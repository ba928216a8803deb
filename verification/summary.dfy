/**
  What `status` reports: how many movies there are, their total size on
  disk, and how many of them (and how much) carry no tag at all.
  Sizes are rendered by `humanize.naturalsize`, a parameter here.
 */
module Summary {
  import opened Text
  import opened Movies

  /** Sum of `sizeOnDisk` over the movies. */
  function TotalSize(movies: seq<Movie>): int
  {
    if movies == [] then 0 else TotalSize(movies[..|movies| - 1]) + movies[|movies| - 1].sizeOnDisk
  }

  /** The movies with an empty tag list, in library order. */
  function Untagged(movies: seq<Movie>): seq<Movie>
  {
    if movies == [] then []
    else
      var last := movies[|movies| - 1];
      Untagged(movies[..|movies| - 1]) + (if last.tags == [] then [last] else [])
  }

  /** The untagged movies are exactly the library's movies with no tag. */
  lemma {:induction false} UntaggedExactly(movies: seq<Movie>)
    ensures |Untagged(movies)| <= |movies|
    ensures forall m :: m in Untagged(movies) <==> m in movies && m.tags == []
  {
    if movies != [] {
      var init := movies[..|movies| - 1];
      UntaggedExactly(init);
      assert movies == init + [movies[|movies| - 1]];
    }
  }

  /**
    Each movie with no tag is counted as often as the library holds it, and
    tagged movies not at all, so the untagged count is the number of movies
    without a tag.
   */
  lemma {:induction false} UntaggedCounts(movies: seq<Movie>)
    ensures forall m :: multiset(Untagged(movies))[m] == if m.tags == [] then multiset(movies)[m] else 0
  {
    if movies != [] {
      var init := movies[..|movies| - 1];
      var last := movies[|movies| - 1];
      UntaggedCounts(init);
      assert movies == init + [last];
      assert multiset(movies) == multiset(init) + multiset{last};
    }
  }

  /** Counting the untagged movies of a list counts those of each part, in order. */
  lemma {:induction false} UntaggedAppend(a: seq<Movie>, b: seq<Movie>)
    ensures Untagged(a + b) == Untagged(a) + Untagged(b)
    decreases |b|
  {
    if b == [] {
      assert a + b == a;
    } else {
      var init := b[..|b| - 1];
      assert (a + b)[..|a + b| - 1] == a + init;
      UntaggedAppend(a, init);
    }
  }

  /** With no negative sizes, the untagged movies take no more space than the whole library. */
  lemma {:induction false} UntaggedSizeAtMostTotal(movies: seq<Movie>)
    requires forall i :: 0 <= i < |movies| ==> movies[i].sizeOnDisk >= 0
    ensures 0 <= TotalSize(Untagged(movies)) <= TotalSize(movies)
  {
    if movies != [] {
      var init := movies[..|movies| - 1];
      var last := movies[|movies| - 1];
      UntaggedSizeAtMostTotal(init);
      TotalSizeAppend(Untagged(init), if last.tags == [] then [last] else []);
    }
  }

  lemma {:induction false} TotalSizeAppend(a: seq<Movie>, b: seq<Movie>)
    ensures TotalSize(a + b) == TotalSize(a) + TotalSize(b)
    decreases |b|
  {
    if b == [] {
      assert a + b == a;
    } else {
      assert (a + b)[..|a + b| - 1] == a + b[..|b| - 1];
      TotalSizeAppend(a, b[..|b| - 1]);
    }
  }

  /** No movie is untagged exactly when every movie carries a tag. */
  lemma {:induction false} NoneUntaggedIff(movies: seq<Movie>)
    ensures |Untagged(movies)| == 0 <==> forall i :: 0 <= i < |movies| ==> movies[i].tags != []
  {
    UntaggedExactly(movies);
    if |Untagged(movies)| != 0 {
      assert Untagged(movies)[0] in Untagged(movies);
    } else {
      forall i | 0 <= i < |movies| ensures movies[i].tags != [] {
        assert movies[i] in movies;
      }
    }
  }

  /**
    The closing parenthesis of the status line: "(all tagged)" exactly when
    no movie is untagged, whatever the size text says.
   */
  function UntaggedMessage(untaggedCount: nat, untaggedSize: string): (r: string)
    ensures |r| >= 2 && r[0] == '(' && r[|r| - 1] == ')'
    ensures r == "(all tagged)" <==> untaggedCount == 0
  {
    if untaggedCount == 0 then "(all tagged)"
    else
      var r := "(" + IntToString(untaggedCount) + " untagged totalling " + untaggedSize + ")";
      assert r[1] == IntToString(untaggedCount)[0] != "(all tagged)"[1];
      r
  }

  /** The status line up to its closing parenthesis: count and total size. */
  function StatusHead(movies: seq<Movie>, naturalsize: int -> string): string
  {
    "There are " + IntToString(|movies|) + " movies totalling " + naturalsize(TotalSize(movies)) + " "
  }

  /**
    The whole reply of `status` for a library: the count and total size,
    then "(all tagged)" exactly when every movie carries a tag.
   */
  function StatusReport(movies: seq<Movie>, naturalsize: int -> string): (r: string)
    ensures |StatusHead(movies, naturalsize)| < |r| && r[..|StatusHead(movies, naturalsize)|] == StatusHead(movies, naturalsize)
    ensures r[|StatusHead(movies, naturalsize)|..] == "(all tagged)" <==>
      forall i :: 0 <= i < |movies| ==> movies[i].tags != []
  {
    NoneUntaggedIff(movies);
    var head := StatusHead(movies, naturalsize);
    var tail := UntaggedMessage(|Untagged(movies)|, naturalsize(TotalSize(Untagged(movies))));
    assert (head + tail)[|head|..] == tail;
    head + tail
  }
}
