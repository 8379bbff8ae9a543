/** The body of `main` in `src/main.rs`: request each listing page in turn,
    turn every match on it into a `Movie`, sort all of them by title and
    produce one line per movie. The network is the function `respond`, which
    gives the response to a URL; the regular expression is taken as already
    applied, so a page's response carries its capture pairs in match order. */
module Listing {
  import opened Decimal
  import opened Movies
  import opened TitleSort

  /** The number of pages `main` requests. */
  const PageCount: nat := 1
  const UrlTemplate: string := "https://videa.hu/kategoriak/film-animacio?sort=0&category=0&page="

  /** `format!("{}{}", URL_TEMPLATE, index)`. */
  function PageUrl(index: nat): (url: string)
    ensures |url| > |UrlTemplate| && url[..|UrlTemplate|] == UrlTemplate
    ensures AllDigits(url[|UrlTemplate|..])
  {
    UrlTemplate + ToDecimal(index)
  }

  /** The page index can be read back from the end of its URL. */
  lemma PageUrlIndex(index: nat)
    ensures PageUrl(index)[|UrlTemplate|..] == ToDecimal(index)
    ensures DigitsValue(PageUrl(index)[|UrlTemplate|..]) == index
  {
  }

  /** Different pages are requested at different URLs. */
  lemma PageUrlInjective(i: nat, j: nat)
    requires PageUrl(i) == PageUrl(j)
    ensures i == j
  {
    PageUrlIndex(i);
    PageUrlIndex(j);
  }

  /** The URLs of pages 1 through `n`, in increasing order. */
  function PageUrls(n: nat): (urls: seq<string>)
    ensures |urls| == n
    ensures forall i :: 0 <= i < n ==> urls[i] == PageUrl(i + 1)
  {
    if n == 0 then [] else PageUrls(n - 1) + [PageUrl(n)]
  }

  /** `main` requests only the first page. */
  lemma MainRequestsFirstPage()
    ensures PageUrls(PageCount) == [UrlTemplate + "1"]
  {
  }

  /** What fetching a page and reading its body gives: the captures of the
      page, or a transport error. */
  datatype Response = Page(captures: seq<Capture>) | FetchError

  /** Fetching pages 1 through `n` in order: all their captures, or the first
      page whose fetch failed (the `?` stops `main` there). */
  datatype Fetched = AllPages(pages: seq<seq<Capture>>) | FailedAt(index: nat)

  function FetchPages(n: nat, respond: string -> Response): (f: Fetched)
    ensures f.AllPages? ==>
              && |f.pages| == n
              && forall i :: 1 <= i <= n ==> respond(PageUrl(i)) == Page(f.pages[i - 1])
    ensures f.FailedAt? ==>
              && 1 <= f.index <= n
              && respond(PageUrl(f.index)) == FetchError
              && forall i :: 1 <= i < f.index ==> respond(PageUrl(i)).Page?
  {
    if n == 0 then AllPages([])
    else
      match FetchPages(n - 1, respond)
      case FailedAt(k) => FailedAt(k)
      case AllPages(pages) =>
        match respond(PageUrl(n))
        case FetchError => FailedAt(n)
        case Page(captures) => AllPages(pages + [captures])
  }

  /** Once a page has failed, fetching more pages reports the same failure. */
  lemma FailureIsFinal(k: nat, n: nat, respond: string -> Response)
    requires k <= n && FetchPages(k, respond).FailedAt?
    ensures FetchPages(n, respond) == FetchPages(k, respond)
  {
  }

  /** The movies of one page, in match order. */
  function MoviesOf(captures: seq<Capture>): (ms: seq<Movie>)
    ensures |ms| == |captures|
    ensures forall i :: 0 <= i < |captures| ==> ms[i] == FromCapture(captures[i])
  {
    if captures == [] then []
    else MoviesOf(captures[..|captures| - 1]) + [FromCapture(captures[|captures| - 1])]
  }

  function TotalCaptures(pages: seq<seq<Capture>>): (n: nat) {
    if pages == [] then 0
    else TotalCaptures(pages[..|pages| - 1]) + |pages[|pages| - 1]|
  }

  /** The `movies` vector before sorting: page after page, each in match order. */
  function Accumulated(pages: seq<seq<Capture>>): (ms: seq<Movie>)
    ensures |ms| == TotalCaptures(pages)
  {
    if pages == [] then []
    else Accumulated(pages[..|pages| - 1]) + MoviesOf(pages[|pages| - 1])
  }

  /** Capture `c` of page `p` sits after every capture of the earlier pages
      and after the earlier captures of its own page. */
  lemma {:induction false} AccumulatedAt(pages: seq<seq<Capture>>, p: nat, c: nat)
    requires p < |pages| && c < |pages[p]|
    ensures TotalCaptures(pages[..p]) + c < TotalCaptures(pages)
    ensures Accumulated(pages)[TotalCaptures(pages[..p]) + c] == FromCapture(pages[p][c])
    decreases |pages|
  {
    var init := pages[..|pages| - 1];
    if p == |pages| - 1 {
      assert pages[..p] == init;
    } else {
      assert init[..p] == pages[..p];
      AccumulatedAt(init, p, c);
    }
  }

  /** The sorted listing keeps every accumulated movie, orders it by title and
      keeps movies of equal title in accumulation order. */
  lemma SortedListing(pages: seq<seq<Capture>>)
    ensures |SortByTitle(Accumulated(pages))| == TotalCaptures(pages)
    ensures multiset(SortByTitle(Accumulated(pages))) == multiset(Accumulated(pages))
    ensures SortedByTitle(SortByTitle(Accumulated(pages)))
    ensures forall t :: WithTitle(SortByTitle(Accumulated(pages)), t) == WithTitle(Accumulated(pages), t)
  {
    var acc := Accumulated(pages);
    SortByTitlePermutation(acc);
    SortByTitleSorted(acc);
    forall t
      ensures WithTitle(SortByTitle(acc), t) == WithTitle(acc, t)
    {
      SortByTitleStable(acc, t);
    }
  }

  /** `for movie in movies { println!("{}", movie) }`, collecting the lines. */
  method RenderLines(movies: seq<Movie>) returns (lines: seq<string>)
    ensures |lines| == |movies|
    ensures forall i :: 0 <= i < |movies| ==> lines[i] == DisplayLine(movies[i])
  {
    lines := [];
    for i := 0 to |movies|
      invariant |lines| == i
      invariant forall k :: 0 <= k < i ==> lines[k] == DisplayLine(movies[k])
    {
      lines := lines + [DisplayLine(movies[i])];
    }
  }

  /** How `main` ends: the printed lines, or the error of the page at `index`,
      in which case nothing is printed. */
  datatype RunOutcome = Completed(lines: seq<string>) | Aborted(index: nat)

  /** `main` with page count `pageCount` (the program itself uses `PageCount`).
      `requested` are the URLs fetched, in order. */
  method Run(pageCount: nat, respond: string -> Response) returns (requested: seq<string>, outcome: RunOutcome)
    requires pageCount < U16Max  // `PAGE_COUNT + 1` is a `u16`
    ensures match FetchPages(pageCount, respond)
            case FailedAt(k) => requested == PageUrls(k) && outcome == Aborted(k)
            case AllPages(pages) =>
              && requested == PageUrls(pageCount)
              && outcome.Completed?
              && |outcome.lines| == TotalCaptures(pages)
              && forall i :: 0 <= i < |outcome.lines| ==>
                   outcome.lines[i] == DisplayLine(SortByTitle(Accumulated(pages))[i])
  {
    var movies: seq<Movie> := [];
    requested := [];
    var index := 1;
    while index < pageCount + 1
      invariant 1 <= index <= pageCount + 1
      invariant FetchPages(index - 1, respond).AllPages?
      invariant movies == Accumulated(FetchPages(index - 1, respond).pages)
      invariant requested == PageUrls(index - 1)
    {
      var url := PageUrl(index);
      requested := requested + [url];
      var response := respond(url);
      if response.FetchError? {
        outcome := Aborted(index);
        FailureIsFinal(index, pageCount, respond);
        return;
      }
      var captures := response.captures;
      ghost var pages := FetchPages(index - 1, respond).pages;
      var j := 0;
      while j < |captures|
        invariant 0 <= j <= |captures|
        invariant movies == Accumulated(pages) + MoviesOf(captures[..j])
      {
        assert captures[..j + 1][..j] == captures[..j];
        movies := movies + [FromCapture(captures[j])];
        j := j + 1;
      }
      assert captures[..j] == captures;
      assert (pages + [captures])[..|pages|] == pages;
      index := index + 1;
    }
    movies := SortByTitle(movies);
    var lines := RenderLines(movies);
    outcome := Completed(lines);
  }
}
