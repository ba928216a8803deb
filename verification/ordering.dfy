/**
  The two orders the wrapper sorts movies by, and Python's `sorted`, which is
  a stable sort: movies that compare equal keep the order the service gave.
 */
module Ordering {
  import opened Movies

  /** Python's `<=` on strings: lexicographic by code point, a prefix first. */
  predicate StrLe(a: string, b: string)
  {
    a == [] || (b != [] && (a[0] < b[0] || (a[0] == b[0] && StrLe(a[1..], b[1..]))))
  }

  lemma {:induction false} StrLeReflexive(a: string)
    ensures StrLe(a, a)
  {
    if a != [] {
      StrLeReflexive(a[1..]);
    }
  }

  lemma {:induction false} StrLeTotal(a: string, b: string)
    ensures StrLe(a, b) || StrLe(b, a)
  {
    if a != [] && b != [] && a[0] == b[0] {
      StrLeTotal(a[1..], b[1..]);
    }
  }

  lemma {:induction false} StrLeTransitive(a: string, b: string, c: string)
    requires StrLe(a, b) && StrLe(b, c)
    ensures StrLe(a, c)
  {
    if a != [] && a[0] == b[0] && b[0] == c[0] {
      StrLeTransitive(a[1..], b[1..], c[1..]);
    }
  }

  lemma {:induction false} StrLeAntisymmetric(a: string, b: string)
    requires StrLe(a, b) && StrLe(b, a)
    ensures a == b
  {
    if a != [] {
      StrLeAntisymmetric(a[1..], b[1..]);
      assert a == [a[0]] + a[1..] && b == [b[0]] + b[1..];
    }
  }

  /**
    `sorted(movies, key=lambda k: k['title'])` or
    `sorted(movies, key=lambda k: score(k['title'], query), reverse=True)`.
   */
  datatype Order = ByTitle | ByScoreDesc(score: (string, string) -> int, query: string)

  /** `x` may come before `y` in the order `o`. */
  predicate Le(o: Order, x: Movie, y: Movie)
  {
    match o
    case ByTitle => StrLe(x.title, y.title)
    case ByScoreDesc(score, query) => score(x.title, query) >= score(y.title, query)
  }

  /** The two movies compare equal, so a stable sort keeps their input order. */
  predicate Equiv(o: Order, x: Movie, y: Movie)
  {
    Le(o, x, y) && Le(o, y, x)
  }

  lemma LeTotal(o: Order, x: Movie, y: Movie)
    ensures Le(o, x, y) || Le(o, y, x)
  {
    if o.ByTitle? {
      StrLeTotal(x.title, y.title);
    }
  }

  lemma LeTransitive(o: Order, x: Movie, y: Movie, z: Movie)
    requires Le(o, x, y) && Le(o, y, z)
    ensures Le(o, x, z)
  {
    if o.ByTitle? {
      StrLeTransitive(x.title, y.title, z.title);
    }
  }

  /** Equal in the order means equal title, or equal score. */
  lemma EquivMeaning(o: Order, x: Movie, y: Movie)
    ensures o.ByTitle? ==> (Equiv(o, x, y) <==> x.title == y.title)
    ensures o.ByScoreDesc? ==>
      (Equiv(o, x, y) <==> o.score(x.title, o.query) == o.score(y.title, o.query))
  {
    if o.ByTitle? {
      StrLeReflexive(x.title);
      if Equiv(o, x, y) {
        StrLeAntisymmetric(x.title, y.title);
      }
    }
  }

  predicate Sorted(o: Order, s: seq<Movie>)
  {
    forall i, j :: 0 <= i < j < |s| ==> Le(o, s[i], s[j])
  }

  /** Python's `s[:n]`. */
  function Take(s: seq<Movie>, n: nat): (r: seq<Movie>)
    ensures |r| <= n && r <= s
    ensures |r| < n ==> r == s
  {
    if |s| <= n then s else s[..n]
  }

  /** Every movie that the first `n` of a sorted library leave out may follow each one kept. */
  lemma SortedTakeIsBest(o: Order, s: seq<Movie>, n: nat, m: Movie, i: nat)
    requires m in s && m !in Take(Sort(o, s), n)
    requires i < |Take(Sort(o, s), n)|
    ensures Le(o, Take(Sort(o, s), n)[i], m)
  {
    var sorted := Sort(o, s);
    assert m in multiset(sorted);
    var k :| 0 <= k < |sorted| && sorted[k] == m;
    SortSorted(o, s);
  }

  /** Puts `x` in front of the first movie it may precede. */
  function Insert(o: Order, x: Movie, s: seq<Movie>): (r: seq<Movie>)
    ensures multiset(r) == multiset(s) + multiset{x}
  {
    if s == [] then [x]
    else if Le(o, x, s[0]) then [x] + s
    else
      assert s == [s[0]] + s[1..];
      [s[0]] + Insert(o, x, s[1..])
  }

  /** Stable insertion sort: the model of Python's `sorted`. */
  function Sort(o: Order, s: seq<Movie>): (r: seq<Movie>)
    ensures multiset(r) == multiset(s)
    ensures |r| == |s|
  {
    if s == [] then []
    else
      assert s == [s[0]] + s[1..];
      Insert(o, s[0], Sort(o, s[1..]))
  }

  lemma {:induction false} InsertSorted(o: Order, x: Movie, s: seq<Movie>)
    requires Sorted(o, s)
    ensures Sorted(o, Insert(o, x, s))
  {
    if s != [] {
      if Le(o, x, s[0]) {
        forall j | 1 <= j < |s| ensures Le(o, x, s[j]) {
          LeTransitive(o, x, s[0], s[j]);
        }
      } else {
        LeTotal(o, x, s[0]);
        InsertSorted(o, x, s[1..]);
        InsertLowerBound(o, s[0], x, s[1..]);
      }
    }
  }

  /** A movie that may precede `x` and every movie of `s` may precede every movie of `Insert(o, x, s)`. */
  lemma {:induction false} InsertLowerBound(o: Order, lo: Movie, x: Movie, s: seq<Movie>)
    requires Le(o, lo, x)
    requires forall j :: 0 <= j < |s| ==> Le(o, lo, s[j])
    ensures forall j :: 0 <= j < |Insert(o, x, s)| ==> Le(o, lo, Insert(o, x, s)[j])
  {
    if s != [] && !Le(o, x, s[0]) {
      InsertLowerBound(o, lo, x, s[1..]);
    }
  }

  /** The result of `Sort` is in order. */
  lemma {:induction false} SortSorted(o: Order, s: seq<Movie>)
    ensures Sorted(o, Sort(o, s))
  {
    if s != [] {
      SortSorted(o, s[1..]);
      InsertSorted(o, s[0], Sort(o, s[1..]));
    }
  }

  /** The movies of `s` that compare equal to `x`, in the order of `s`. */
  function Ties(o: Order, s: seq<Movie>, x: Movie): (r: seq<Movie>)
  {
    if s == [] then []
    else TieOf(o, s[0], x) + Ties(o, s[1..], x)
  }

  /** The movie `m` alone if it ties with `x`, else nothing. */
  function TieOf(o: Order, m: Movie, x: Movie): seq<Movie>
  {
    if Equiv(o, m, x) then [m] else []
  }

  lemma {:induction false} InsertTies(o: Order, y: Movie, s: seq<Movie>, x: Movie)
    ensures Ties(o, Insert(o, y, s), x) == TieOf(o, y, x) + Ties(o, s, x)
    decreases |s|
  {
    if s == [] {
      assert [y][1..] == [];
    } else if Le(o, y, s[0]) {
      assert ([y] + s)[1..] == s;
    } else {
      InsertTiesSkip(o, y, s, x);
    }
  }

  /** The step of `InsertTies` where `y` goes past the first movie of `s`. */
  lemma {:induction false} InsertTiesSkip(o: Order, y: Movie, s: seq<Movie>, x: Movie)
    requires s != [] && !Le(o, y, s[0])
    ensures Ties(o, Insert(o, y, s), x) == TieOf(o, y, x) + Ties(o, s, x)
    decreases |s|, 0
  {
    var r := Insert(o, y, s[1..]);
    assert ([s[0]] + r)[1..] == r;
    InsertTies(o, y, s[1..], x);
    TiesExclusive(o, y, s[0], x);
    SwapAroundEmpty(TieOf(o, s[0], x), TieOf(o, y, x), Ties(o, s[1..], x));
  }

  /** A movie that may not precede `m` cannot tie with the same movie as `m`. */
  lemma TiesExclusive(o: Order, y: Movie, m: Movie, x: Movie)
    requires !Le(o, y, m)
    ensures TieOf(o, y, x) == [] || TieOf(o, m, x) == []
  {
    if Equiv(o, y, x) && Equiv(o, m, x) {
      LeTransitive(o, y, x, m);
    }
  }

  lemma SwapAroundEmpty<T>(a: seq<T>, b: seq<T>, c: seq<T>)
    requires a == [] || b == []
    ensures a + (b + c) == b + (a + c)
  {
    if a == [] {
      assert a + (b + c) == b + c == b + (a + c);
    } else {
      assert a + (b + c) == a + c == b + (a + c);
    }
  }

  /** `Sort` is stable: movies that compare equal keep their relative order. */
  lemma {:induction false} SortStable(o: Order, s: seq<Movie>, x: Movie)
    ensures Ties(o, Sort(o, s), x) == Ties(o, s, x)
  {
    if s != [] {
      InsertTies(o, s[0], Sort(o, s[1..]), x);
      SortStable(o, s[1..], x);
    }
  }
}
