/**
  The records the wrapper reads from the Radarr service, the results it
  returns, and the one-line rendering of a movie shared by `list` and `me`.
 */
module Movies {
  import opened Text

  datatype Option<T> = None | Some(value: T)

  /** A movie as the service reports it; `tags` holds tag ids in the service's order. */
  datatype Movie = Movie(id: int, title: string, year: int, sizeOnDisk: int, tags: seq<int>)

  /** A tag defined in the service; `name` is its `label` (a reserved word in Dafny). */
  datatype Tag = Tag(id: int, name: string)

  /** A movie as it is listed: with the `fuzzy_score` key when a search ranked it. */
  datatype Entry = Entry(movie: Movie, fuzzyScore: Option<int>)

  /** The exceptions the wrapper raises itself. */
  datatype Error =
    | UnknownUser(username: string)
      // the user's label names no tag in the service (see `Radarr.Tag`)
    | NoUserTag(username: string)

  datatype Result<T> = Ok(value: T) | Err(error: Error)

  /** `f"{m['title']} ({m['year']})"`, how replies name a movie. */
  function TitleAndYear(m: Movie): (s: string)
    ensures |s| > |m.title| + 2 && s[..|m.title|] == m.title && s[|s| - 1] == ')'
  {
    m.title + " (" + IntToString(m.year) + ")"
  }

  /** The optional ` (fuzzy score: N)` suffix of a listed line. */
  function ScoreSuffix(score: Option<int>): (s: string)
    ensures s == "" <==> score.None?
  {
    match score
    case None => ""
    case Some(n) => " (fuzzy score: " + IntToString(n) + ")"
  }

  /** One listed line: the id right-aligned in five columns, title, year, optional score, newline. */
  function Line(e: Entry): (line: string)
    ensures |line| > 5 && line[|line| - 1] == '\n'
  {
    PadLeft(IntToString(e.movie.id), 5) + ": " + TitleAndYear(e.movie) + ScoreSuffix(e.fuzzyScore) + "\n"
  }

  /** The lines of a listing, one per entry, in order. */
  function Lines(entries: seq<Entry>): (lines: seq<string>)
    ensures |lines| == |entries|
  {
    if entries == [] then []
    else Lines(entries[..|entries| - 1]) + [Line(entries[|entries| - 1])]
  }

  /** Rendering one more entry adds its line at the end. */
  lemma LinesSnoc(entries: seq<Entry>, e: Entry)
    ensures Lines(entries + [e]) == Lines(entries) + [Line(e)]
  {
    assert (entries + [e])[..|entries|] == entries;
  }

  /** Entries without a score, as the title-sorted listing produces them. */
  function Unscored(movies: seq<Movie>): (entries: seq<Entry>)
    ensures |entries| == |movies|
    ensures forall i :: 0 <= i < |movies| ==> entries[i] == Entry(movies[i], None)
  {
    seq(|movies|, i requires 0 <= i < |movies| => Entry(movies[i], None))
  }
}
