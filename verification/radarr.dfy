/**
  The `Radarr` wrapper. The remote service it talks to is modelled as the
  state it holds: the movies (`get_movie()`, in the service's order) and the
  tags (`get_tag()`). `tag` and `untag` update that state in place, as
  `upd_movie` does on the service; every other command only reads it.
 */
module RadarrWrapper {
  import opened Text
  import opened Movies
  import opened Ordering
  import opened Filter
  import opened Paging
  import opened Summary
  import opened Users
  import opened Tagging

  /** The reply of `me`: the user's movies among those listed, one line each. */
  function MeReply(movies: seq<Movie>, tags: seq<Tag>, username: string, terms: seq<string>,
                   score: (string, string) -> int): (r: Result<string>)
    ensures r.Err? <==> username !in UserTagMap
    ensures r.Err? ==> r.error == UnknownUser(username)
  {
    match LookupUserId(tags, username)
    case Err(e) => Err(e)
    case Ok(userId) => Ok(Concat(Lines(Claimed(Selection(movies, terms, score), userId))))
  }

  /**
    `me` lists exactly the selected movies the user has tagged, in listing
    order; with search terms at most ten of them; and nothing at all for a
    user whose label names no tag.
   */
  lemma MeListsClaimed(movies: seq<Movie>, tags: seq<Tag>, username: string, terms: seq<string>,
                       score: (string, string) -> int)
    requires username in UserTagMap
    ensures var userId := LookupUserId(tags, username).value;
      var mine := Claimed(Selection(movies, terms, score), userId);
      && MeReply(movies, tags, username, terms, score) == Ok(Concat(Lines(mine)))
      && (forall e :: e in mine <==> e in Selection(movies, terms, score) && ClaimedBy(e.movie, userId))
      && (|terms| > 0 ==> |mine| <= MaxMatches)
      && (userId.None? ==> MeReply(movies, tags, username, terms, score) == Ok(""))
  {
    var userId := LookupUserId(tags, username).value;
    var mine := Claimed(Selection(movies, terms, score), userId);
    ClaimedExactly(Selection(movies, terms, score), userId);
    if |terms| > 0 {
      TopMatchesKeepsRanked(movies, terms, score);
    }
    if userId.None? {
      ClaimedByNobody(Selection(movies, terms, score));
    }
  }

  /** One step of the loop in `me`: the next entry adds its line exactly when the user has tagged it. */
  lemma MeStep(entries: seq<Entry>, i: nat, userId: Option<int>)
    requires i < |entries|
    ensures Concat(Lines(Claimed(entries[..i + 1], userId))) ==
      Concat(Lines(Claimed(entries[..i], userId))) + (if ClaimedBy(entries[i].movie, userId) then Line(entries[i]) else "")
  {
    var e := entries[i];
    var before := Claimed(entries[..i], userId);
    assert entries[..i + 1] == entries[..i] + [e];
    ClaimedSnoc(entries[..i], e, userId);
    if ClaimedBy(e.movie, userId) {
      LinesSnoc(before, e);
      ConcatSnoc(Lines(before), Line(e));
    } else {
      assert before + [] == before;
    }
  }

  class Radarr {
    /** The service's movies, in the order `get_movie()` returns them. */
    var movies: seq<Movie>
    /** The service's tags, in the order `get_tag()` returns them. */
    var tags: seq<Tag>

    ghost predicate Valid()
      reads this
    {
      DistinctIds(movies)
    }

    /** A wrapper around a service that holds these movies and tags. */
    constructor (movies: seq<Movie>, tags: seq<Tag>)
      requires DistinctIds(movies)
      ensures Valid()
      ensures this.movies == movies && this.tags == tags
    {
      this.movies := movies;
      this.tags := tags;
    }

    /** `status()`: count and size of the library, and of its untagged part. */
    method Status(naturalsize: int -> string) returns (text: string)
      ensures text == StatusReport(movies, naturalsize)
    {
      var all := movies;
      var count := |all|;
      var untaggedCount, totalSize, untaggedSize := 0, 0, 0;
      for i := 0 to |all|
        invariant totalSize == TotalSize(all[..i])
        invariant untaggedCount == |Untagged(all[..i])|
        invariant untaggedSize == TotalSize(Untagged(all[..i]))
      {
        assert all[..i + 1][..i] == all[..i];
        TotalSizeAppend(Untagged(all[..i]), if all[i].tags == [] then [all[i]] else []);
        totalSize := totalSize + all[i].sizeOnDisk;
        if |all[i].tags| == 0 {
          untaggedSize := untaggedSize + all[i].sizeOnDisk;
          untaggedCount := untaggedCount + 1;
        }
      }
      assert all[..|all|] == all;
      var untaggedMessage: string;
      if untaggedCount == 0 {
        untaggedMessage := "(all tagged)";
      } else {
        untaggedMessage := "(" + IntToString(untaggedCount) + " untagged totalling " + naturalsize(untaggedSize) + ")";
      }
      text := "There are " + IntToString(count) + " movies totalling " + naturalsize(totalSize) + " " + untaggedMessage;
    }

    /**
      `list(*args)`: the selected movies, one line each, cut into chunks; the
      chunks spell out every line in order, each chunk sent inside the loop is
      over the limit only because of its last line, and the final chunk is
      always sent and within the limit.
     */
    method List(terms: seq<string>, score: (string, string) -> int) returns (chunks: seq<string>)
      ensures chunks == Chunked(Lines(Selection(movies, terms, score)), "")
      ensures Concat(chunks) == Concat(Lines(Selection(movies, terms, score)))
      ensures |chunks| >= 1 && |chunks[|chunks| - 1]| <= FlushAbove
      ensures forall k :: 0 <= k < |chunks| - 1 ==> |chunks[k]| > FlushAbove
    {
      var entries := Select(movies, terms, score);
      var lines := Lines(entries);
      chunks := ChunkLines(lines);
    }

    /** `_lookup_user_id(username)` against the service's current tags. */
    method LookupUser(username: string) returns (r: Result<Option<int>>)
      ensures r == LookupUserId(tags, username)
    {
      if username !in UserTagMap {
        return Err(UnknownUser(username));
      }
      var wanted := UserTagMap[username];
      var all := tags;
      for i := 0 to |all|
        invariant forall j :: 0 <= j < i ==> all[j].name != wanted
      {
        if all[i].name == wanted {
          return Ok(Some(all[i].id));
        }
      }
      return Ok(None);
    }

    /** `me(username, *args)`: the lines of the selected movies the user has tagged. */
    method Me(username: string, terms: seq<string>, score: (string, string) -> int) returns (r: Result<string>)
      ensures r == MeReply(movies, tags, username, terms, score)
    {
      var lookup := LookupUser(username);
      if lookup.Err? {
        return Err(lookup.error);
      }
      var userId := lookup.value;
      var entries := Select(movies, terms, score);
      var text := "";
      for i := 0 to |entries|
        invariant text == Concat(Lines(Claimed(entries[..i], userId)))
      {
        MeStep(entries, i, userId);
        if ClaimedBy(entries[i].movie, userId) {
          text := text + Line(entries[i]);
        }
      }
      assert entries[..|entries|] == entries;
      r := Ok(text);
    }

    /**
      `tag(username, *args)`: an unknown user fails before anything else; then
      a prompt when no id is given, the not-found reply, the already-tagged
      reply, or the user's tag id appended to that one movie.
     */
    method Tag(username: string, args: seq<int>) returns (reply: Result<string>)
      requires Valid()
      modifies this
      ensures Valid() && tags == old(tags)
      ensures Outcome(reply, movies) == TagOutcome(old(movies), old(tags), username, args)
    {
      var lookup := LookupUser(username);
      if lookup.Err? {
        return Err(lookup.error);
      }
      var userId := lookup.value;
      if |args| == 0 {
        return Ok(TagPrompt);
      }
      var movieId := args[0];
      var found := FindMovie(movies, movieId);
      if found.None? {
        return Ok(NotFoundMessageAsWritten(movieId));
      }
      var i := found.value;
      var movie := movies[i];
      if ClaimedBy(movie, userId) {
        return Ok("Movie " + TitleAndYear(movie) + " is already tagged for you");
      }
      if userId.None? {
        return Err(NoUserTag(username));
      }
      EditsKeepIdsDistinct(movies, tags, username, args);
      movies := movies[i := WithTag(movie, userId.value)];
      reply := Ok("Tagged " + TitleAndYear(movie));
    }

    /**
      `untag(username, *args)`: an unknown user fails before anything else;
      then a prompt when no id is given, the not-found reply, the not-tagged
      reply, or the first occurrence of the user's tag id removed from that
      one movie.
     */
    method Untag(username: string, args: seq<int>) returns (reply: Result<string>)
      requires Valid()
      modifies this
      ensures Valid() && tags == old(tags)
      ensures Outcome(reply, movies) == UntagOutcome(old(movies), old(tags), username, args)
    {
      var lookup := LookupUser(username);
      if lookup.Err? {
        return Err(lookup.error);
      }
      var userId := lookup.value;
      if |args| == 0 {
        return Ok(UntagPrompt);
      }
      var movieId := args[0];
      var found := FindMovie(movies, movieId);
      if found.None? {
        return Ok(NotFoundMessageAsWritten(movieId));
      }
      var i := found.value;
      var movie := movies[i];
      if !ClaimedBy(movie, userId) {
        return Ok("Movie " + TitleAndYear(movie) + " is not tagged for you");
      }
      EditsKeepIdsDistinct(movies, tags, username, args);
      movies := movies[i := WithoutTag(movie, userId.value)];
      reply := Ok("Untagged " + TitleAndYear(movie));
    }

    /** Tagging a movie and then untagging it leaves the service as it was. */
    method TagThenUntag(username: string, args: seq<int>) returns (tagged: Result<string>, untagged: Result<string>)
      requires Valid()
      requires CanTag(movies, tags, username, args)
      modifies this
      ensures Valid()
      ensures movies == old(movies) && tags == old(tags)
      ensures tagged.Ok? && untagged.Ok?
    {
      UntagUndoesTagInStore(movies, tags, username, args);
      tagged := Tag(username, args);
      untagged := Untag(username, args);
    }
  }
}
