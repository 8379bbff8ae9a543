/** The record `src/main.rs` builds from each regular-expression match, and the
    fixed-width line `{:<70}{}` it prints for it. */
module Movies {

  /** The column the title is padded to. Rust's width counts characters. */
  const TitleWidth: nat := 70

  datatype Movie = Movie(title: string, url: string)

  /** The two capture groups of one match: group 1 is the link, group 2 the
      link text. The pattern itself is not modelled. */
  datatype Capture = Capture(group1: string, group2: string)

  /** `Movie::from_capture`. */
  function FromCapture(cap: Capture): (m: Movie)
    ensures m.url == cap.group1 && m.title == cap.group2
  {
    Movie(cap.group2, cap.group1)
  }

  function Max(a: nat, b: nat): (m: nat) {
    if a < b then b else a
  }

  /** `{:<width}`: left-aligned, filled on the right with spaces; a longer
      text is never truncated. */
  function PadRight(s: string, width: nat): (r: string)
    ensures |r| == Max(|s|, width)
    ensures r[..|s|] == s
    ensures forall i :: |s| <= i < |r| ==> r[i] == ' '
  {
    if |s| < width then s + seq(width - |s|, _ => ' ') else s
  }

  /** The `Display` line of a movie: the padded title, then the url. */
  function DisplayLine(m: Movie): (line: string)
    ensures |line| == Max(|m.title|, TitleWidth) + |m.url|
    ensures line[..|m.title|] == m.title
    ensures forall i :: |m.title| <= i < TitleWidth ==> line[i] == ' '
    ensures line[Max(|m.title|, TitleWidth)..] == m.url
  {
    PadRight(m.title, TitleWidth) + m.url
  }

  /** The four facts above pin the line down: no other string has them. */
  lemma DisplayLineUnique(m: Movie, line: string)
    requires |line| == Max(|m.title|, TitleWidth) + |m.url|
    requires line[..|m.title|] == m.title
    requires forall i :: |m.title| <= i < TitleWidth ==> line[i] == ' '
    requires line[Max(|m.title|, TitleWidth)..] == m.url
    ensures line == DisplayLine(m)
  {
  }

  /** A title that fills the column is followed directly by the url. */
  lemma LongTitleUnpadded(m: Movie)
    requires |m.title| >= TitleWidth
    ensures DisplayLine(m) == m.title + m.url
  {
  }
}
