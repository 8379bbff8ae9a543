# VideaTitles listing core, modelled in Dafny

VideaTitles is a small command-line program. It fetches the film-animation
listing of videa.hu page by page and pulls each video's link and title out of
the markup with a regular expression. It then sorts the videos by title and
prints one line per video: the title padded to 70 columns, followed by the
link. A second file builds and validates the run configuration: a page count
in 1..=250 and a page offset.

This project models those two files:

- `decimal.dfy` (module `Decimal`): Rust's `u16`, the decimal formatting
  that `format!("{}", n)` does, and `str::parse::<u16>`. The parser accepts
  one leading `+` followed by at least one digit, and leading zeros. It
  rejects an empty string, any other character (a minus sign included) and
  values above 65535.
- `config.dfy` (module `Configuration`): `Config` as a value, with
  `Config::new` and the two by-value setters, one datatype update each.
  `get_config` is a function of the two argument strings. Its outcome is the
  `Result` the Rust function returns, or `Panicked` for the `unwrap` on the
  page count.
- `movie.dfy` (module `Movies`): `Movie`, `Movie::from_capture` over a pair
  of capture groups, and the `{:<70}{}` display line.
- `sort.dfy` (module `TitleSort`): the order on `String` titles
  (lexicographic by code point, which equals UTF-8 byte order). Also a
  reference stable sort, which stands for `sort_by_key`. It is proved to be
  a permutation, sorted and stable. It is also proved to be the only result
  with those three properties, so the library's own algorithm gives the same
  result.
- `listing.dfy` (module `Listing`): the body of `main` as an imperative
  method. It loops over page indices 1..=page count and builds each page's
  URL. It asks the network for the page and pushes one `Movie` per capture.
  Then it sorts and renders the lines. The network is a function parameter
  `respond` from URL to response. A response is a page's capture pairs in
  match order, or a fetch error. A fetch error stops the run with nothing
  printed.

`main` uses the constant `PAGE_COUNT` (1); `Listing.Run` takes the page
count as a parameter, and `main` is `Run(PageCount, respond)`.

What the two files do, in particular:
- An unparseable page count panics through `unwrap`. It is not a
  validation error, and it is detected before the offset is looked at.
- The offset error message says "0 - 9999", but every `u16` offset (up to
  65535) is accepted.
- `main` never reads the configuration. The page offset is never added to
  the page index.
- A title longer than 70 characters is printed whole, never truncated.

## Model

| member | source | states |
|---|---|---|
| `Configuration.Config.New` | src/config.rs:12-18 | the defaults: url prefix `https://videa.hu/videok/film-animacio/`, page count 1, page offset 0 |
| `Configuration.Config.GetUrlPrefix` | src/config.rs:20-22 | returns the stored url prefix unchanged |
| `Configuration.Config.SetPageCount` | src/config.rs:24-27 | the page count becomes `n`; url prefix and page offset are unchanged |
| `Configuration.Config.SetPageOffset` | src/config.rs:29-32 | the page offset becomes `n`; url prefix and page count are unchanged |
| `Configuration.SettersIndependent` | src/config.rs:24-32 | the two setters commute, and a second call of the same setter overrides the first |
| `Configuration.GetConfig` | src/config.rs:50-71 | the outcome is a panic exactly when the page count does not parse, whatever the offset; then an unparseable offset is the offset error whatever the page count; with both parsed, the result is Ok exactly when 1 <= page count <= 250, otherwise the page-count error; an Ok config holds exactly the parsed count and offset and the default prefix |
| `Configuration.GetConfigAccepts` | src/config.rs:55-71 | every count in 1..=250 with every offset in 0..=65535, given as numerals, yields exactly that Config; 9999 is not a limit |
| `Configuration.GetConfigRejectsCount` | src/config.rs:61-65 | a `u16` count of 0 or in 251..=65535, written as its numeral, gives the page-count error whenever the offset parses |
| `Configuration.GetConfigOffsetFirst` | src/config.rs:55-61 | a bad offset is reported even for an out-of-range page count: the offset check comes first |
| `Configuration.GetConfigBoundaries` | src/config.rs:50-71 | counts 0 and 251 are rejected, 1 and 250 accepted; offset 65535 accepted, 65536 rejected; an empty count panics |
| `Configuration.CountErrorMessageText` | src/config.rs:61-64 | the page-count message reads `Page count must be in range: 1 - 250.` |
| `Decimal.ParseU16` | src/config.rs:50-59 | parsing succeeds exactly when the string is one optional `+` followed by at least one digit and nothing else, with value at most 65535; the value is then those digits' value |
| `Decimal.ParseAnySpelling` | src/config.rs:53 | every `u16`, written with or without a leading `+` and with any number of leading zeros, parses to itself |
| `Decimal.ParseDecimal` | src/config.rs:53 | parsing the decimal numeral of any `u16` gives that value back |
| `Decimal.ParsePlusDecimal` | src/config.rs:53 | a leading `+` before the numeral is accepted with the same value |
| `Decimal.ParseOverflow` | src/config.rs:58 | the numeral of any number above 65535 is rejected |
| `Decimal.ParseLeadingZero` | src/config.rs:53 | before a non-empty string of digits, a leading zero does not change the outcome |
| `Decimal.ParseRejectsMinus` | src/config.rs:58 | a string starting with `-` is rejected |
| `Decimal.ToDecimal` | src/main.rs:30 | the numeral is a non-empty digit string with no leading zero (except `0` itself) |
| `Decimal.DigitsValueOfDecimal` | src/main.rs:30 | the numeral's digits denote the number |
| `Decimal.DecimalInjective` | src/main.rs:30 | distinct numbers have distinct numerals |
| `Movies.FromCapture` | src/main.rs:11-16 | url is capture group 1, title is capture group 2 |
| `Movies.PadRight` | src/main.rs:21 | `{:<w}`: length max(length of s, w), the text first, spaces after it, never truncated |
| `Movies.DisplayLine` | src/main.rs:19-23 | the line has length max(title length, 70) + url length; it starts with the title, has spaces up to column 70, and ends with the url |
| `Movies.DisplayLineUnique` | src/main.rs:21 | those four facts determine the line: any string with them is the display line |
| `Movies.LongTitleUnpadded` | src/main.rs:21 | a title of 70 or more characters is followed directly by the url |
| `TitleSort.LexLe` | src/main.rs:39 | the `String` order on titles: code points compared left to right, and a prefix comes first |
| `TitleSort.LexLeReflexive` | src/main.rs:39 | the title order is reflexive |
| `TitleSort.LexLeTotal` | src/main.rs:39 | any two titles are comparable |
| `TitleSort.LexLeAntisymmetric` | src/main.rs:39 | titles each at most the other are equal |
| `TitleSort.LexLeTransitive` | src/main.rs:39 | the title order is transitive |
| `TitleSort.SortByTitle` | src/main.rs:39 | the reference stable sort standing for `sort_by_key`: it keeps the length; its permutation, order and stability are the three lemmas below |
| `TitleSort.SortByTitlePermutation` | src/main.rs:39 | sorting is a permutation: same multiset of movies, none dropped or duplicated |
| `TitleSort.SortByTitleSorted` | src/main.rs:39 | after sorting, titles are non-decreasing in code-point order |
| `TitleSort.SortByTitleStable` | src/main.rs:39 | for every title, the movies with that title appear in the same order as before sorting |
| `TitleSort.SortedUnique` | src/main.rs:39 | two sorted sequences with the same movies of each title, in the same order, are equal |
| `TitleSort.StableSortUnique` | src/main.rs:39 | any sorted result that keeps equal titles in order equals the reference sort |
| `Listing.PageUrl` | src/main.rs:30 | the page URL is the URL template followed by a digit string |
| `Listing.PageUrlIndex` | src/main.rs:30 | the part after the template is the decimal numeral of the index and denotes it |
| `Listing.PageUrlInjective` | src/main.rs:30 | different indices give different URLs |
| `Listing.PageUrls` | src/main.rs:29-30 | the URLs of pages 1..=n, in increasing order of index |
| `Listing.MainRequestsFirstPage` | src/main.rs:29-30 | with `PAGE_COUNT` = 1, only the URL ending in `1` is requested |
| `Listing.FetchPages` | src/main.rs:29-33 | either every page 1..=n answered and the pages are their captures in order, or the result names the first page whose fetch failed |
| `Listing.FailureIsFinal` | src/main.rs:31-32 | once a fetch fails, later pages do not change the outcome |
| `Listing.MoviesOf` | src/main.rs:34-36 | one movie per capture, in match order, each built by `from_capture` |
| `Listing.Accumulated` | src/main.rs:27-37 | the unsorted list holds as many movies as there are captures over all pages |
| `Listing.AccumulatedAt` | src/main.rs:27-37 | capture c of page p is at position (captures of pages before p) + c: page order, then match order |
| `Listing.SortedListing` | src/main.rs:35-42 | the sorted list has the capture count, is a permutation of the accumulated list, is sorted, and is stable |
| `Listing.RenderLines` | src/main.rs:41-43 | one line per movie, in order, each its display line |
| `Listing.Run` | src/main.rs:25-46 | on a fetch failure at page k, pages 1..=k were requested in order and the run ends with that error; otherwise pages 1..=n were requested in order and the output is the display lines of the stably sorted accumulated movies, one per capture |

## Left out

- HTTP fetching (`reqwest::blocking::get`, `response.text()`) is network I/O. The model takes it as the function `respond`, and both failure kinds become `FetchError`.
- The regular expression and `captures_iter` are a foreign library. A page's response is its sequence of (group 1, group 2) pairs in match order.
- The `clap` command definition and `get_matches` are argument plumbing. `GetConfig` takes the two argument values it would hand back, defaults included.
- `println!` writes to standard output. The model produces the lines as strings.
- The `VERSION` string passed to clap's `about` has no logic.
- `Decimal.ParseU16`: Rust's error kinds (empty, invalid digit, overflow) collapse to `None`, because `get_config` discards them (`unwrap`, `map_err`).
- `Listing.Run`: the `movies` vector is a sequence value, so the in-place reordering by `sort_by_key` is modelled by its result only. The library sort algorithm is replaced by a reference stable sort, which `TitleSort.StableSortUnique` shows gives the same result.
- `Listing.Run`: the page index is a mathematical integer; the `u16` range only appears as the requirement that the page count plus one fits a `u16`.
- Blacklist filtering, the encoding check, year detection and similarity grouping are not in `src/config.rs` or `src/main.rs`, and are not modelled.
