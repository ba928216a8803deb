/**
  What `tag` and `untag` do to the service's movies, as functions of the
  movies and tags before the call: the reply and the movies afterwards.
  `Radarr.Tag` and `Radarr.Untag` are proved to behave exactly like this.
 */
module Tagging {
  import opened Text
  import opened Movies
  import opened Users

  /** Movie ids are unique in the service. */
  predicate DistinctIds(movies: seq<Movie>)
  {
    forall i, j :: 0 <= i < j < |movies| ==> movies[i].id != movies[j].id
  }

  /** Position of the first movie with this id, or `|movies|`. */
  function MovieIndex(movies: seq<Movie>, id: int): (i: nat)
    ensures i <= |movies|
    ensures forall j :: 0 <= j < i ==> movies[j].id != id
    ensures i < |movies| ==> movies[i].id == id
  {
    if movies == [] || movies[0].id == id then 0 else 1 + MovieIndex(movies[1..], id)
  }

  /** `get_movie(id_=movie_id)`: where the movie is, or None when the service has no such movie. */
  function FindMovie(movies: seq<Movie>, id: int): (r: Option<nat>)
    ensures r.None? <==> forall j :: 0 <= j < |movies| ==> movies[j].id != id
    ensures r.Some? ==> r.value < |movies| && movies[r.value].id == id
  {
    var i := MovieIndex(movies, id);
    if i < |movies| then Some(i) else None
  }

  const TagPrompt := "Please provide a movie ID to tag"
  const UntagPrompt := "Please provide a movie ID to untag"

  /** The not-found reply exactly as the source writes it: a plain string, not an f-string. */
  function NotFoundMessageAsWritten(id: int): (reply: string)
    ensures forall i :: 0 <= i < |reply| ==> !('0' <= reply[i] <= '9')
  {
    "No movie found with ID {movie_id}"
  }

  /** Every id gets the same not-found reply as written, so it cannot tell the user which id was missing. */
  lemma NotFoundMessageAsWrittenIgnoresId(a: int, b: int)
    ensures NotFoundMessageAsWritten(a) == NotFoundMessageAsWritten(b)
  {
  }

  /** The not-found reply as intended: the id the user asked for, interpolated. */
  function NotFoundMessage(id: int): (reply: string)
    ensures |reply| > 23 && reply[..23] == "No movie found with ID "
    ensures reply[23..] == IntToString(id)
  {
    "No movie found with ID " + IntToString(id)
  }

  /** The intended reply tells ids apart: equal replies mean equal ids. */
  lemma NotFoundMessageNamesId(a: int, b: int)
    requires NotFoundMessage(a) == NotFoundMessage(b)
    ensures a == b
  {
    assert IntToString(a) == NotFoundMessage(a)[23..] == NotFoundMessage(b)[23..] == IntToString(b);
    IntToStringInjective(a, b);
  }

  /** A reply to `tag` or `untag`, and the movies the service holds afterwards. */
  datatype Outcome = Outcome(reply: Result<string>, movies: seq<Movie>)

  /** `Radarr.tag(username, *args)` */
  function TagOutcome(movies: seq<Movie>, tags: seq<Tag>, username: string, args: seq<int>): (out: Outcome)
    ensures |out.movies| == |movies|
    ensures out.reply.Err? ==> out.movies == movies
    ensures out.reply.Err? <==>
      || username !in UserTagMap
      || (LookupUserId(tags, username) == Ok(None) && |args| > 0 && FindMovie(movies, args[0]).Some?)
    ensures out.reply.Err? ==>
      out.reply.error == if username !in UserTagMap then UnknownUser(username) else NoUserTag(username)
  {
    match LookupUserId(tags, username)
    case Err(e) => Outcome(Err(e), movies)
    case Ok(userId) =>
      if |args| == 0 then Outcome(Ok(TagPrompt), movies)
      else
        match FindMovie(movies, args[0])
        case None => Outcome(Ok(NotFoundMessageAsWritten(args[0])), movies)
        case Some(i) =>
          var m := movies[i];
          if ClaimedBy(m, userId) then
            Outcome(Ok("Movie " + TitleAndYear(m) + " is already tagged for you"), movies)
          else if userId.None? then
            Outcome(Err(NoUserTag(username)), movies)
          else
            Outcome(Ok("Tagged " + TitleAndYear(m)), movies[i := WithTag(m, userId.value)])
  }

  /** `Radarr.untag(username, *args)` */
  function UntagOutcome(movies: seq<Movie>, tags: seq<Tag>, username: string, args: seq<int>): (out: Outcome)
    ensures |out.movies| == |movies|
    ensures out.reply.Err? <==> username !in UserTagMap
    ensures out.reply.Err? ==> out.movies == movies
  {
    match LookupUserId(tags, username)
    case Err(e) => Outcome(Err(e), movies)
    case Ok(userId) =>
      if |args| == 0 then Outcome(Ok(UntagPrompt), movies)
      else
        match FindMovie(movies, args[0])
        case None => Outcome(Ok(NotFoundMessageAsWritten(args[0])), movies)
        case Some(i) =>
          var m := movies[i];
          if !ClaimedBy(m, userId) then
            Outcome(Ok("Movie " + TitleAndYear(m) + " is not tagged for you"), movies)
          else
            Outcome(Ok("Untagged " + TitleAndYear(m)), movies[i := WithoutTag(m, userId.value)])
  }

  /**
    `tag` changes at most the movie whose id was given, and that one only by
    appending the user's tag id at the end of its tags, every other field
    kept. It changes something exactly when it replies "Tagged ...".
   */
  lemma TagChangesOnlyTarget(movies: seq<Movie>, tags: seq<Tag>, username: string, args: seq<int>)
    ensures var out := TagOutcome(movies, tags, username, args);
      && |out.movies| == |movies|
      && (forall k :: 0 <= k < |movies| ==> out.movies[k].id == movies[k].id)
      && (forall k :: 0 <= k < |movies| && (|args| == 0 || movies[k].id != args[0]) ==>
            out.movies[k] == movies[k])
      && (out.movies != movies <==>
            out.reply.Ok? && |out.reply.value| >= 7 && out.reply.value[..7] == "Tagged ")
      && (out.movies != movies ==>
            exists k, userId :: 0 <= k < |movies| && movies[k].id == args[0]
              && LookupUserId(tags, username) == Ok(Some(userId)) && userId !in movies[k].tags
              && out.movies[k] == WithTag(movies[k], userId))
  {
    var out := TagOutcome(movies, tags, username, args);
    if out.movies != movies {
      var userId := LookupUserId(tags, username).value.value;
      var k := FindMovie(movies, args[0]).value;
      assert out.movies[k] == WithTag(movies[k], userId);
    } else if out.reply.Ok? && |out.reply.value| >= 7 {
      assert out.reply.value[..7][0] != "Tagged "[0];
    }
  }

  /**
    `untag` changes at most the movie whose id was given, and that one only by
    removing the first occurrence of the user's tag id, every other field
    kept. It changes something exactly when it replies "Untagged ...".
   */
  lemma UntagChangesOnlyTarget(movies: seq<Movie>, tags: seq<Tag>, username: string, args: seq<int>)
    ensures var out := UntagOutcome(movies, tags, username, args);
      && |out.movies| == |movies|
      && (forall k :: 0 <= k < |movies| ==> out.movies[k].id == movies[k].id)
      && (forall k :: 0 <= k < |movies| && (|args| == 0 || movies[k].id != args[0]) ==>
            out.movies[k] == movies[k])
      && (out.movies != movies ==>
            exists k, userId :: 0 <= k < |movies| && movies[k].id == args[0]
              && LookupUserId(tags, username) == Ok(Some(userId)) && userId in movies[k].tags
              && out.movies[k] == WithoutTag(movies[k], userId))
      && (out.movies != movies <==>
            out.reply.Ok? && |out.reply.value| >= 9 && out.reply.value[..9] == "Untagged ")
  {
    var out := UntagOutcome(movies, tags, username, args);
    var lookup := LookupUserId(tags, username);
    if lookup.Ok? && |args| > 0 && FindMovie(movies, args[0]).Some?
      && ClaimedBy(movies[FindMovie(movies, args[0]).value], lookup.value)
    {
      var userId := lookup.value.value;
      var k := FindMovie(movies, args[0]).value;
      assert out.movies[k] == WithoutTag(movies[k], userId);
      assert |out.movies[k].tags| == |movies[k].tags| - 1;
    } else if out.reply.Ok? && |out.reply.value| >= 9 {
      assert out.reply.value[0] in {'P', 'N', 'M'};
      assert out.reply.value[..9][0] != "Untagged "[0];
    }
  }

  /**
    Every reply of `tag`: an unknown user fails whatever the arguments; then
    the prompt for a missing id, the not-found reply, the already-tagged
    reply, or (for a user with a tag) the movie tagged.
   */
  lemma TagReplies(movies: seq<Movie>, tags: seq<Tag>, username: string, args: seq<int>)
    ensures username !in UserTagMap ==>
      TagOutcome(movies, tags, username, args) == Outcome(Err(UnknownUser(username)), movies)
    ensures username in UserTagMap && |args| == 0 ==>
      TagOutcome(movies, tags, username, args) == Outcome(Ok(TagPrompt), movies)
    ensures username in UserTagMap && |args| > 0 && FindMovie(movies, args[0]).None? ==>
      TagOutcome(movies, tags, username, args) == Outcome(Ok(NotFoundMessageAsWritten(args[0])), movies)
    ensures forall userId, k ::
      LookupUserId(tags, username) == Ok(userId) && |args| > 0 && FindMovie(movies, args[0]) == Some(k) ==>
        TagOutcome(movies, tags, username, args) ==
          if ClaimedBy(movies[k], userId) then
            Outcome(Ok("Movie " + TitleAndYear(movies[k]) + " is already tagged for you"), movies)
          else if userId.None? then
            Outcome(Err(NoUserTag(username)), movies)
          else
            Outcome(Ok("Tagged " + TitleAndYear(movies[k])), movies[k := WithTag(movies[k], userId.value)])
  {
  }

  /**
    Every reply of `untag`: an unknown user fails whatever the arguments;
    then the prompt for a missing id, the not-found reply, the not-tagged
    reply, or the movie untagged.
   */
  lemma UntagReplies(movies: seq<Movie>, tags: seq<Tag>, username: string, args: seq<int>)
    ensures username !in UserTagMap ==>
      UntagOutcome(movies, tags, username, args) == Outcome(Err(UnknownUser(username)), movies)
    ensures username in UserTagMap && |args| == 0 ==>
      UntagOutcome(movies, tags, username, args) == Outcome(Ok(UntagPrompt), movies)
    ensures username in UserTagMap && |args| > 0 && FindMovie(movies, args[0]).None? ==>
      UntagOutcome(movies, tags, username, args) == Outcome(Ok(NotFoundMessageAsWritten(args[0])), movies)
    ensures forall userId, k ::
      LookupUserId(tags, username) == Ok(userId) && |args| > 0 && FindMovie(movies, args[0]) == Some(k) ==>
        UntagOutcome(movies, tags, username, args) ==
          if !ClaimedBy(movies[k], userId) then
            Outcome(Ok("Movie " + TitleAndYear(movies[k]) + " is not tagged for you"), movies)
          else
            Outcome(Ok("Untagged " + TitleAndYear(movies[k])), movies[k := WithoutTag(movies[k], userId.value)])
  {
  }

  /** Neither edit breaks the uniqueness of movie ids. */
  lemma EditsKeepIdsDistinct(movies: seq<Movie>, tags: seq<Tag>, username: string, args: seq<int>)
    requires DistinctIds(movies)
    ensures DistinctIds(TagOutcome(movies, tags, username, args).movies)
    ensures DistinctIds(UntagOutcome(movies, tags, username, args).movies)
  {
    TagChangesOnlyTarget(movies, tags, username, args);
    UntagChangesOnlyTarget(movies, tags, username, args);
  }

  /** Tagging twice is tagging once: the second call only says the movie is already tagged. */
  lemma TagIdempotent(movies: seq<Movie>, tags: seq<Tag>, username: string, args: seq<int>)
    requires DistinctIds(movies)
    ensures var once := TagOutcome(movies, tags, username, args).movies;
      TagOutcome(once, tags, username, args).movies == once
  {
    var once := TagOutcome(movies, tags, username, args).movies;
    TagChangesOnlyTarget(movies, tags, username, args);
    if once != movies {
      var i := FindMovie(movies, args[0]).value;
      assert FindMovie(once, args[0]) == Some(i);
    }
  }

  /**
    When `tag` has something to do: a known user whose label names a tag,
    an id argument, a movie with that id, and the user's tag id not yet
    among that movie's tags.
   */
  predicate CanTag(movies: seq<Movie>, tags: seq<Tag>, username: string, args: seq<int>)
  {
    && username in UserTagMap
    && LookupUserId(tags, username).value.Some?
    && |args| > 0
    && FindMovie(movies, args[0]).Some?
    && LookupUserId(tags, username).value.value !in movies[FindMovie(movies, args[0]).value].tags
  }

  /** `tag` changes the movies exactly when it has something to do. */
  lemma CanTagIff(movies: seq<Movie>, tags: seq<Tag>, username: string, args: seq<int>)
    ensures CanTag(movies, tags, username, args) <==> TagOutcome(movies, tags, username, args).movies != movies
  {
    if CanTag(movies, tags, username, args) {
      var k := FindMovie(movies, args[0]).value;
      var out := TagOutcome(movies, tags, username, args).movies;
      assert |out[k].tags| == |movies[k].tags| + 1;
    } else {
      TagChangesOnlyTarget(movies, tags, username, args);
    }
  }

  /**
    Untagging right after a `tag` call that tagged a movie restores every
    movie as it was.
   */
  lemma UntagUndoesTagInStore(movies: seq<Movie>, tags: seq<Tag>, username: string, args: seq<int>)
    requires DistinctIds(movies)
    requires CanTag(movies, tags, username, args)
    ensures UntagOutcome(TagOutcome(movies, tags, username, args).movies, tags, username, args).movies == movies
  {
    var once := TagOutcome(movies, tags, username, args).movies;
    var userId := LookupUserId(tags, username).value.value;
    var i := FindMovie(movies, args[0]).value;
    CanTagIff(movies, tags, username, args);
    TagChangesOnlyTarget(movies, tags, username, args);
    assert FindMovie(once, args[0]) == Some(i);
    UntagUndoesTag(movies[i], userId);
    assert once[i := WithoutTag(once[i], userId)] == movies;
  }
}
