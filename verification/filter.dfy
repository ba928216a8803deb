/**
  `_filter_movies` and the choice, shared by `list` and `me`, between the
  title-sorted library and the ten best matches for some search terms.
  The similarity metric (`fuzz.partial_ratio`) is a parameter `score` about
  which nothing is assumed.
 */
module Filter {
  import opened Text
  import opened Movies
  import opened Ordering

  /** How many matches a search keeps (`movies[:10]`). */
  const MaxMatches: nat := 10

  /** The movies of a listing, without their scores. */
  function MoviesOf(entries: seq<Entry>): (movies: seq<Movie>)
    ensures |movies| == |entries|
    ensures forall i :: 0 <= i < |entries| ==> movies[i] == entries[i].movie
  {
    seq(|entries|, i requires 0 <= i < |entries| => entries[i].movie)
  }

  /** All movies, best score first, equal scores in the service's order. */
  function Ranked(movies: seq<Movie>, terms: seq<string>, score: (string, string) -> int): seq<Movie>
  {
    Sort(ByScoreDesc(score, JoinWords(terms)), movies)
  }

  /** What `_filter_movies` returns: the first ten ranked movies, each carrying its score. */
  function TopMatches(movies: seq<Movie>, terms: seq<string>, score: (string, string) -> int): (entries: seq<Entry>)
    ensures |entries| == if |movies| < MaxMatches then |movies| else MaxMatches
  {
    var top := Take(Ranked(movies, terms, score), MaxMatches);
    seq(|top|, i requires 0 <= i < |top| => Entry(top[i], Some(score(top[i].title, JoinWords(terms)))))
  }

  /**
    `_filter_movies(movies, *terms)`: sort by score, keep ten, then write each
    kept movie's score into it, one movie at a time.
   */
  method FilterMovies(movies: seq<Movie>, terms: seq<string>, score: (string, string) -> int)
    returns (entries: seq<Entry>)
    ensures entries == TopMatches(movies, terms, score)
  {
    var query := JoinWords(terms);
    var ranked := Sort(ByScoreDesc(score, query), movies);
    var top := Take(ranked, MaxMatches);
    entries := Unscored(top);
    for i := 0 to |entries|
      invariant |entries| == |top|
      invariant forall k :: 0 <= k < i ==> entries[k] == Entry(top[k], Some(score(top[k].title, query)))
      invariant forall k :: i <= k < |entries| ==> entries[k] == Entry(top[k], None)
    {
      entries := entries[i := entries[i].(fuzzyScore := Some(score(entries[i].movie.title, query)))];
    }
  }

  /** A search keeps the first ten ranked movies, each annotated with its own score. */
  lemma TopMatchesKeepsRanked(movies: seq<Movie>, terms: seq<string>, score: (string, string) -> int)
    ensures var r := TopMatches(movies, terms, score);
      && MoviesOf(r) == Take(Ranked(movies, terms, score), MaxMatches)
      && |r| == (if |movies| < MaxMatches then |movies| else MaxMatches)
      && forall i :: 0 <= i < |r| ==> r[i].fuzzyScore == Some(score(r[i].movie.title, JoinWords(terms)))
  {
  }

  /** A search returns movies of the library, each at most as often as the library has it. */
  lemma TopMatchesDrawnFromLibrary(movies: seq<Movie>, terms: seq<string>, score: (string, string) -> int)
    ensures multiset(MoviesOf(TopMatches(movies, terms, score))) <= multiset(movies)
  {
    var ranked := Ranked(movies, terms, score);
    var top := Take(ranked, MaxMatches);
    TopMatchesKeepsRanked(movies, terms, score);
    assert ranked == top + ranked[|top|..];
  }

  /** The scores of a search's results never increase down the list. */
  lemma TopMatchesOrdered(movies: seq<Movie>, terms: seq<string>, score: (string, string) -> int)
    ensures var r := TopMatches(movies, terms, score);
      forall i, j :: 0 <= i < j < |r| ==> r[i].fuzzyScore.value >= r[j].fuzzyScore.value
  {
    var o := ByScoreDesc(score, JoinWords(terms));
    var r := TopMatches(movies, terms, score);
    TopMatchesKeepsRanked(movies, terms, score);
    SortSorted(o, movies);
    forall i, j | 0 <= i < j < |r| ensures r[i].fuzzyScore.value >= r[j].fuzzyScore.value {
      assert Le(o, MoviesOf(r)[i], MoviesOf(r)[j]);
    }
  }

  /** No movie a search leaves out scores higher than any movie it keeps. */
  lemma TopMatchesAreBest(movies: seq<Movie>, terms: seq<string>, score: (string, string) -> int)
    ensures var r := TopMatches(movies, terms, score);
      forall m, i :: m in movies && m !in MoviesOf(r) && 0 <= i < |r| ==>
        score(m.title, JoinWords(terms)) <= r[i].fuzzyScore.value
  {
    var o := ByScoreDesc(score, JoinWords(terms));
    var r := TopMatches(movies, terms, score);
    var top := Take(Sort(o, movies), MaxMatches);
    assert MoviesOf(r) == top;
    forall m, i | m in movies && m !in MoviesOf(r) && 0 <= i < |r|
      ensures score(m.title, JoinWords(terms)) <= r[i].fuzzyScore.value
    {
      SortedTakeIsBest(o, movies, MaxMatches, m, i);
    }
  }

  /** `list` and `me`: the ten best matches when there are terms, else every movie by title. */
  function Selection(movies: seq<Movie>, terms: seq<string>, score: (string, string) -> int): (r: seq<Entry>)
    ensures |r| == if |terms| > 0 && |movies| > MaxMatches then MaxMatches else |movies|
  {
    if |terms| > 0 then TopMatches(movies, terms, score) else Unscored(Sort(ByTitle, movies))
  }

  /** Without terms the whole library is listed, sorted by title, equal titles in service order, without scores. */
  lemma SelectionWithoutTerms(movies: seq<Movie>, score: (string, string) -> int, x: Movie)
    ensures var r := Selection(movies, [], score);
      && multiset(MoviesOf(r)) == multiset(movies)
      && (forall i, j :: 0 <= i < j < |r| ==> StrLe(r[i].movie.title, r[j].movie.title))
      && (forall i :: 0 <= i < |r| ==> r[i].fuzzyScore.None?)
      && Ties(ByTitle, MoviesOf(r), x) == Ties(ByTitle, movies, x)
  {
    var sorted := Sort(ByTitle, movies);
    assert MoviesOf(Selection(movies, [], score)) == sorted;
    SortSorted(ByTitle, movies);
    SortStable(ByTitle, movies, x);
  }

  /** The shared first step of `list` and `me`. */
  method Select(movies: seq<Movie>, terms: seq<string>, score: (string, string) -> int)
    returns (entries: seq<Entry>)
    ensures entries == Selection(movies, terms, score)
  {
    if |terms| > 0 {
      entries := FilterMovies(movies, terms, score);
    } else {
      entries := Unscored(Sort(ByTitle, movies));
    }
  }
}
