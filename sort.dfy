/** `movies.sort_by_key(|m| m.title.clone())`: a stable sort by title in the
    order of Rust's `String`, which compares UTF-8 bytes and therefore code
    points. The library's algorithm is not the source's; `SortByTitle` is a
    reference stable sort whose result every stable sort by title equals. */
module TitleSort {
  import opened Movies

  /** Lexicographic order on code points; a proper prefix comes first. */
  predicate LexLe(a: string, b: string)
    ensures a <= b ==> LexLe(a, b)
  {
    a == [] || (b != [] && (a[0] < b[0] || (a[0] == b[0] && LexLe(a[1..], b[1..]))))
  }

  lemma {:induction false} LexLeReflexive(a: string)
    ensures LexLe(a, a)
    decreases |a|
  {
    if a != [] {
      LexLeReflexive(a[1..]);
    }
  }

  lemma {:induction false} LexLeTotal(a: string, b: string)
    ensures LexLe(a, b) || LexLe(b, a)
    decreases |a|
  {
    if a != [] && b != [] && a[0] == b[0] {
      LexLeTotal(a[1..], b[1..]);
    }
  }

  lemma {:induction false} LexLeAntisymmetric(a: string, b: string)
    requires LexLe(a, b) && LexLe(b, a)
    ensures a == b
    decreases |a|
  {
    if a != [] {
      LexLeAntisymmetric(a[1..], b[1..]);
      assert a == [a[0]] + a[1..] && b == [b[0]] + b[1..];
    }
  }

  lemma {:induction false} LexLeTransitive(a: string, b: string, c: string)
    requires LexLe(a, b) && LexLe(b, c)
    ensures LexLe(a, c)
    decreases |a|
  {
    if a != [] && a[0] == b[0] && b[0] == c[0] {
      LexLeTransitive(a[1..], b[1..], c[1..]);
    }
  }

  /** Titles are non-decreasing from left to right. */
  predicate SortedByTitle(s: seq<Movie>) {
    forall i, j :: 0 <= i < j < |s| ==> LexLe(s[i].title, s[j].title)
  }

  /** The records with title `t`, in their order in `s`. A sort is stable when
      this subsequence is the same before and after, for every `t`. */
  function WithTitle(s: seq<Movie>, t: string): (r: seq<Movie>)
    ensures |r| <= |s|
  {
    if s == [] then []
    else (if s[0].title == t then [s[0]] else []) + WithTitle(s[1..], t)
  }

  lemma {:induction false} WithTitleAppend(a: seq<Movie>, b: seq<Movie>, t: string)
    ensures WithTitle(a + b, t) == WithTitle(a, t) + WithTitle(b, t)
    decreases |a|
  {
    if a == [] {
      assert a + b == b;
    } else {
      var head := if a[0].title == t then [a[0]] else [];
      assert (a + b)[0] == a[0] && (a + b)[1..] == a[1..] + b;
      calc {
        WithTitle(a + b, t);
        head + WithTitle(a[1..] + b, t);
        { WithTitleAppend(a[1..], b, t); }
        head + (WithTitle(a[1..], t) + WithTitle(b, t));
        (head + WithTitle(a[1..], t)) + WithTitle(b, t);
      }
    }
  }

  lemma {:induction false} WithTitleNone(s: seq<Movie>, t: string)
    requires forall i :: 0 <= i < |s| ==> s[i].title != t
    ensures WithTitle(s, t) == []
    decreases |s|
  {
    if s != [] {
      WithTitleNone(s[1..], t);
    }
  }

  /** Inserts `m` after every record whose title is at most `m`'s. */
  function Insert(s: seq<Movie>, m: Movie): (r: seq<Movie>)
    ensures |r| == |s| + 1
  {
    if s == [] then [m]
    else if LexLe(s[0].title, m.title) then [s[0]] + Insert(s[1..], m)
    else [m] + s
  }

  /** Insertion sort from the back: the last record goes after its equals. */
  function SortByTitle(s: seq<Movie>): (r: seq<Movie>)
    ensures |r| == |s|
  {
    if s == [] then [] else Insert(SortByTitle(s[..|s| - 1]), s[|s| - 1])
  }

  lemma {:induction false} InsertPermutation(s: seq<Movie>, m: Movie)
    ensures multiset(Insert(s, m)) == multiset(s) + multiset{m}
    decreases |s|
  {
    if s != [] && LexLe(s[0].title, m.title) {
      InsertPermutation(s[1..], m);
      assert s == [s[0]] + s[1..];
    }
  }

  lemma {:induction false} InsertSorted(s: seq<Movie>, m: Movie)
    requires SortedByTitle(s)
    ensures SortedByTitle(Insert(s, m))
    decreases |s|
  {
    if s == [] {
    } else if LexLe(s[0].title, m.title) {
      var rest := Insert(s[1..], m);
      InsertSorted(s[1..], m);
      InsertPermutation(s[1..], m);
      forall j | 0 <= j < |rest|
        ensures LexLe(s[0].title, rest[j].title)
      {
        assert rest[j] in multiset(rest);
        if rest[j] != m {
          assert rest[j] in multiset(s[1..]);
          var k :| 0 <= k < |s[1..]| && s[1..][k] == rest[j];
          assert s[k + 1] == rest[j];
        }
      }
      assert Insert(s, m) == [s[0]] + rest;
    } else {
      LexLeTotal(s[0].title, m.title);
      forall j | 0 < j < |s| + 1
        ensures LexLe(m.title, ([m] + s)[j].title)
      {
        if j > 1 {
          LexLeTransitive(m.title, s[0].title, s[j - 1].title);
        }
      }
    }
  }

  lemma {:induction false} InsertStable(s: seq<Movie>, m: Movie, t: string)
    requires SortedByTitle(s)
    ensures WithTitle(Insert(s, m), t) == WithTitle(s, t) + WithTitle([m], t)
    decreases |s|
  {
    if s == [] {
    } else if LexLe(s[0].title, m.title) {
      InsertStable(s[1..], m, t);
      WithTitleAppend([s[0]], Insert(s[1..], m), t);
      WithTitleAppend([s[0]], s[1..], t);
      assert s == [s[0]] + s[1..];
    } else {
      WithTitleAppend([m], s, t);
      if m.title == t {
        forall i | 0 <= i < |s|
          ensures LexLe(s[0].title, s[i].title)
        {
          if i == 0 {
            LexLeReflexive(s[0].title);
          }
        }
        WithTitleNone(s, t);
      } else {
        assert WithTitle([m], t) == [];
      }
    }
  }

  /** The sort is a permutation: nothing dropped, nothing duplicated. */
  lemma {:induction false} SortByTitlePermutation(s: seq<Movie>)
    ensures multiset(SortByTitle(s)) == multiset(s)
    decreases |s|
  {
    if s != [] {
      var init := s[..|s| - 1];
      SortByTitlePermutation(init);
      InsertPermutation(SortByTitle(init), s[|s| - 1]);
      assert s == init + [s[|s| - 1]];
    }
  }

  lemma {:induction false} SortByTitleSorted(s: seq<Movie>)
    ensures SortedByTitle(SortByTitle(s))
    decreases |s|
  {
    if s != [] {
      SortByTitleSorted(s[..|s| - 1]);
      InsertSorted(SortByTitle(s[..|s| - 1]), s[|s| - 1]);
    }
  }

  /** The sort is stable: records with equal titles keep their order. */
  lemma {:induction false} SortByTitleStable(s: seq<Movie>, t: string)
    ensures WithTitle(SortByTitle(s), t) == WithTitle(s, t)
    decreases |s|
  {
    if s != [] {
      var init := s[..|s| - 1];
      SortByTitleStable(init, t);
      SortByTitleSorted(init);
      InsertStable(SortByTitle(init), s[|s| - 1], t);
      WithTitleAppend(init, [s[|s| - 1]], t);
      assert s == init + [s[|s| - 1]];
    }
  }

  /** Two title-sorted sequences holding the same records of each title in the
      same order are equal. */
  lemma {:induction false} SortedUnique(x: seq<Movie>, y: seq<Movie>)
    requires SortedByTitle(x) && SortedByTitle(y)
    requires forall t :: WithTitle(x, t) == WithTitle(y, t)
    ensures x == y
    decreases |x|
  {
    if x == [] || y == [] {
      assert x != [] ==> WithTitle(x, x[0].title) != [];
      assert y != [] ==> WithTitle(y, y[0].title) != [];
    } else {
      var a, b := x[0], y[0];
      assert LexLe(b.title, a.title) by {
        assert WithTitle(y, a.title) == WithTitle(x, a.title) != [];
        if forall j :: 0 <= j < |y| ==> y[j].title != a.title {
          WithTitleNone(y, a.title);
        }
        var j :| 0 <= j < |y| && y[j].title == a.title;
        if j == 0 { LexLeReflexive(b.title); }
      }
      assert LexLe(a.title, b.title) by {
        assert WithTitle(x, b.title) == WithTitle(y, b.title) != [];
        if forall j :: 0 <= j < |x| ==> x[j].title != b.title {
          WithTitleNone(x, b.title);
        }
        var j :| 0 <= j < |x| && x[j].title == b.title;
        if j == 0 { LexLeReflexive(a.title); }
      }
      LexLeAntisymmetric(a.title, b.title);
      var wx, wy := WithTitle(x, a.title), WithTitle(y, a.title);
      assert wx == [a] + WithTitle(x[1..], a.title);
      assert wy == [b] + WithTitle(y[1..], a.title);
      assert wx == wy;
      assert a == wx[0] == wy[0] == b;
      forall t
        ensures WithTitle(x[1..], t) == WithTitle(y[1..], t)
      {
        assert WithTitle(x, t) == WithTitle(y, t);
        if t == a.title {
          assert WithTitle(x[1..], t) == wx[1..] && WithTitle(y[1..], t) == wy[1..];
        } else {
          assert WithTitle(x, t) == WithTitle(x[1..], t);
          assert WithTitle(y, t) == WithTitle(y[1..], t);
        }
      }
      SortedUnique(x[1..], y[1..]);
      assert x == [a] + x[1..] && y == [b] + y[1..];
    }
  }

  /** `SortByTitle` is the only stable sort by title: whatever sorted result
      keeps the order of equal titles is `SortByTitle(s)`. */
  lemma StableSortUnique(s: seq<Movie>, r: seq<Movie>)
    requires SortedByTitle(r)
    requires forall t :: WithTitle(r, t) == WithTitle(s, t)
    ensures r == SortByTitle(s)
  {
    SortByTitleSorted(s);
    forall t
      ensures WithTitle(r, t) == WithTitle(SortByTitle(s), t)
    {
      SortByTitleStable(s, t);
    }
    SortedUnique(r, SortByTitle(s));
  }
}
