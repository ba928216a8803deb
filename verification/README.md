# Radarr wrapper model

A Dafny model of `radarr.py`, the wrapper through which a chat bot lets a
fixed set of users inspect and curate a movie library kept by a Radarr
service. The wrapper's commands are:

- `status`: how many movies the library holds, their total size on disk,
  and how many movies (and how much) carry no tag.
- `list [terms]`: every movie, sorted by title. With search terms it shows
  instead the ten movies whose titles best match the terms, best first,
  each with its fuzzy score. The lines are cut into chat-sized chunks.
- `me [terms]`: the same selection, restricted to the movies carrying the
  caller's tag.
- `tag <id>` and `untag <id>`: add or remove the caller's tag on one movie.

A chat username maps to a tag label through `USER_TAG_MAP`. The label maps
to a tag id through the service's list of tags.

The service is modelled as the state it holds. Class
`RadarrWrapper.Radarr` has two fields: `movies` (in the order the service
lists them; ids are unique) and `tags`. `Tag` and `Untag` update `movies` in
place. Each is proved to do exactly what the pure functions
`Tagging.TagOutcome` and `Tagging.UntagOutcome` describe. The lemmas of
module `Tagging` then prove what those functions promise: only the
addressed movie changes, ids stay unique, tagging twice is tagging once,
and untagging undoes tagging.

The read-only commands are methods with the source's loops. Each is proved
equal to a specification function: `Summary.StatusReport`,
`Paging.Chunked` of `Filter.Selection`, and `RadarrWrapper.MeReply`.
Lemmas prove what those functions mean.

Python's `sorted` is modelled as a stable insertion sort over an order
(`Ordering.Order`). It is proved to sort, to permute, and to keep
equal-keyed movies in their input order. `sorted(..., reverse=True)` is
stable as well, so the score order keeps ties in service order.

Two library calls are parameters about which nothing is assumed:

- the similarity score `fuzz.partial_ratio` is `score: (string, string) -> int`;
- `humanize.naturalsize` is `naturalsize: int -> string`.

`list` sends its output in chunks. The buffer is sent as soon as it is
longer than 1800 characters, so every chunk sent inside the loop is longer
than 1800. What precedes its last line is at most 1800. The final chunk is
always sent, even when it is empty.

`tag` and `untag` answer an unknown movie id with the text
`No movie found with ID {movie_id}`, braces included; the model replies
exactly that (see "## Findings").

## Model

| member | source | states |
|---|---|---|
| Text.IntToString | radarr.py:56-58 | `str(n)` of an int: non-empty, a leading minus exactly for negative numbers, then only digits, with no leading zero except for 0 itself |
| Text.IntToStringInjective | radarr.py:73 | distinct ints (ids, years, counts) render as distinct strings |
| Text.ParseNatToString | radarr.py:73 | reading back the digits of a rendered natural number gives the number |
| Text.PadLeft | radarr.py:73 | `:>5` right alignment: the result is the text preceded by spaces up to the width, never truncated |
| Text.JoinWords | radarr.py:20 | `' '.join(args)`: its length is the words' letters plus one less than their count, and it ends with the last word |
| Text.JoinWordsChar | radarr.py:20 | in `' '.join(args)` character `i` of word `k` sits `i` places after the word's start, which is the letters of the words before it plus one space for each |
| Text.JoinWordsPlace | radarr.py:20 | in `' '.join(args)` word `k` appears intact, starting after the letters of the words before it and one space for each |
| Text.JoinWordsSpace | radarr.py:20 | in `' '.join(args)` every word but the last is followed by a space |
| Text.JoinWordsLayout | radarr.py:20 | `' '.join(args)` holds every word, in order, at its place, with a single space after every word but the last |
| Text.ConcatSnoc | radarr.py:73 | appending a line to the `+=` buffer appends it to the concatenation of all lines |
| Movies.TitleAndYear | radarr.py:123-128 | how replies name a movie: its title first, then more than two characters, ending in `)` |
| Movies.ScoreSuffix | radarr.py:70-72 | the ` (fuzzy score: N)` suffix is empty exactly when the movie has no fuzzy score |
| Movies.Line | radarr.py:73 | a listed line is longer than the five-column id field and ends with a newline |
| Movies.Lines | radarr.py:69-73 | one line per listed movie |
| Movies.LinesSnoc | radarr.py:69-73 | rendering one more movie adds its line at the end |
| Ordering.StrLeReflexive | radarr.py:66 | Python's string `<=` is reflexive |
| Ordering.StrLeTotal | radarr.py:66 | any two titles are comparable |
| Ordering.StrLeTransitive | radarr.py:66 | string `<=` is transitive |
| Ordering.StrLeAntisymmetric | radarr.py:66 | titles that are each `<=` the other are equal |
| Ordering.LeTotal | radarr.py:21 | both sort orders (title, score descending) are total |
| Ordering.LeTransitive | radarr.py:21 | both sort orders are transitive |
| Ordering.EquivMeaning | radarr.py:21 | two movies tie exactly when their titles are equal (title order) or their scores are equal (score order) |
| Ordering.Take | radarr.py:22 | `s[:n]`: a prefix of the input, at most `n` long, and the whole input when it is shorter than `n` |
| Ordering.Insert | radarr.py:21 | inserting adds exactly the one movie |
| Ordering.Sort | radarr.py:21 | `sorted` returns a permutation of its input |
| Ordering.InsertSorted | radarr.py:21 | inserting into a sorted sequence keeps it sorted |
| Ordering.InsertLowerBound | radarr.py:21 | a lower bound of a movie and of a sequence bounds the insertion of one into the other |
| Ordering.SortSorted | radarr.py:21 | the result of `sorted` is in order |
| Ordering.InsertTies | radarr.py:21 | insertion keeps the relative order of movies that tie with any given movie |
| Ordering.SortStable | radarr.py:21 | `sorted` is stable: the movies tying with any movie appear in input order |
| Ordering.SortedTakeIsBest | radarr.py:21-22 | every movie left out of the first `n` of the sorted library may follow each movie kept |
| Filter.TopMatches | radarr.py:19-26 | `_filter_movies` keeps ten movies, or all of them when the library holds fewer |
| Filter.FilterMovies | radarr.py:19-26 | `_filter_movies` sorts by score, keeps ten, and writes each kept movie's score into it: the result is `TopMatches` |
| Filter.TopMatchesKeepsRanked | radarr.py:19-26 | a search returns the first `min(n, 10)` ranked movies, each annotated with its own score |
| Filter.TopMatchesDrawnFromLibrary | radarr.py:21-22 | a search returns movies of the library, none more often than the library holds it |
| Filter.TopMatchesOrdered | radarr.py:21-24 | fuzzy scores never increase down a search's results |
| Filter.TopMatchesAreBest | radarr.py:21-22 | no library movie a search leaves out scores higher than any movie it keeps |
| Filter.Selection | radarr.py:63-66 | what `list` and `me` go through: ten movies with search terms when the library holds more, every movie otherwise |
| Filter.SelectionWithoutTerms | radarr.py:63-66 | without terms every movie is listed once, sorted by title, ties in service order, no scores |
| Filter.Select | radarr.py:63-66 | `list` and `me` choose between the search and the title sort on whether there are terms |
| Paging.Chunked | radarr.py:68-78 | the generator always yields at least one chunk |
| Paging.ChunkedStep | radarr.py:69-76 | one turn of the loop: the line joins the buffer, which is yielded and emptied once over 1800 characters |
| Paging.ChunkLines | radarr.py:68-78 | the buffer loop yields exactly the chunks `Chunked` describes |
| Paging.ChunkedContent | radarr.py:68-78 | the chunks spell out every line in order, nothing lost or repeated |
| Paging.ChunkedSizes | radarr.py:74-78 | every chunk yielded inside the loop is over 1800 characters; the final chunk is at most 1800 |
| Paging.ChunkEndsAtLine | radarr.py:73-76 | the output up to and including chunk `k` yielded inside the loop is the starting buffer followed by the lines up to and including line `EndLine(k)`: every such chunk is cut right after a whole line |
| Paging.ChunkOverflowsByEndLine | radarr.py:73-76 | chunk `k` yielded inside the loop ends with line `EndLine(k)`, and without that line it was at most 1800 characters |
| Paging.ChunkedOverflowByOneLine | radarr.py:73-76 | every chunk yielded inside the loop ends exactly where its own last line ends in the output, and without that line it was at most 1800 characters |
| Summary.UntaggedExactly | radarr.py:42-46 | a movie is among the untagged exactly when it is in the library and has no tag; there are never more untagged movies than movies |
| Summary.UntaggedCounts | radarr.py:42-46 | each movie with no tag is among the untagged as often as the library holds it, and a tagged movie never is: the untagged count is the number of movies without a tag |
| Summary.UntaggedAppend | radarr.py:42-46 | the untagged movies of a list are those of its parts, in order |
| Summary.TotalSizeAppend | radarr.py:42-43 | the total size of two lists is the sum of their totals |
| Summary.UntaggedSizeAtMostTotal | radarr.py:42-46 | with non-negative sizes the untagged size lies between 0 and the total size |
| Summary.NoneUntaggedIff | radarr.py:42-46 | the untagged count is zero exactly when every movie carries a tag |
| Summary.UntaggedMessage | radarr.py:52-56 | the untagged part of the status is parenthesised, and is "(all tagged)" exactly when the untagged count is zero |
| Summary.StatusReport | radarr.py:35-58 | the status starts with the movie count and total size, and its remainder is "(all tagged)" exactly when every movie carries a tag |
| Users.UserTagMapInjective | radarr.py:10-16 | `USER_TAG_MAP` knows five users, and no two of them share a tag label |
| Users.FirstLabelIndex | radarr.py:85-87 | the position of the first tag with the wanted label, or the end |
| Users.LookupUserId | radarr.py:80-87 | an unknown username raises; otherwise the id of the first tag with the user's label, or None when no tag has it |
| Users.ClaimedExactly | radarr.py:100-101 | `me` keeps exactly the listed movies whose tags contain the user's id, never more than were listed |
| Users.ClaimedAppend | radarr.py:100-105 | the kept movies of a listing are those of its parts, in order |
| Users.ClaimedSnoc | radarr.py:100-105 | one more listed movie is kept exactly when the user has tagged it |
| Users.ClaimedByNobody | radarr.py:101 | a user id of None is in no movie's tags, so nothing is kept |
| Users.IndexOf | radarr.py:146 | the first occurrence of a tag id, or the end when it is absent |
| Users.IndexOfFirst | radarr.py:146 | an occurrence with no earlier one is the first |
| Users.RemoveFirst | radarr.py:146 | `list.remove`: when the id is present, the list loses exactly its first occurrence and keeps everything else in order; a list without the id is unchanged |
| Users.WithTag | radarr.py:125 | `movie["tags"].append(user_id)`: the tags gain the id at the end; every other field stays |
| Users.WithoutTag | radarr.py:146 | `movie["tags"].remove(user_id)`: the tags lose exactly one occurrence of the id; every other field stays |
| Users.UntagUndoesTag | radarr.py:125-146 | removing a tag id just appended to a movie that lacked it restores the movie |
| Tagging.MovieIndex | radarr.py:117 | the position of the first movie with the id, or the end |
| Tagging.FindMovie | radarr.py:117-119 | `get_movie(id_=...)` gives None exactly when no movie has the id, else a movie with that id |
| Tagging.NotFoundMessageAsWritten | radarr.py:120 | the not-found reply as written contains no digit, so it never names the id |
| Tagging.NotFoundMessageAsWrittenIgnoresId | radarr.py:120 | any two ids get the same not-found reply as written |
| Tagging.NotFoundMessageNamesId | radarr.py:119-120 | equal intended not-found replies mean equal ids |
| Tagging.TagOutcome | radarr.py:109-128 | `tag` keeps the number of movies; it fails exactly for an unknown user, or for a known user whose label names no tag who gives the id of an existing movie; the error names the cause, and a failure changes nothing |
| Tagging.UntagOutcome | radarr.py:130-149 | `untag` keeps the number of movies; it fails exactly for an unknown user, and a failure changes nothing |
| Tagging.CanTagIff | radarr.py:109-128 | `tag` changes the movies exactly when a known user whose label names a tag gives the id of an existing movie that does not yet carry that tag |
| Tagging.TagChangesOnlyTarget | radarr.py:109-128 | `tag` changes at most the addressed movie, and that one only by appending the user's tag id, every other field kept; it changes something exactly when it replies "Tagged ...", and only for a known user with a tag naming a movie that lacks it |
| Tagging.UntagChangesOnlyTarget | radarr.py:130-149 | `untag` changes at most the addressed movie, and that one only by removing the first occurrence of the user's tag id, every other field kept; it changes something only when the user has tagged the named movie, and exactly when it replies "Untagged ..." |
| Tagging.TagReplies | radarr.py:109-128 | every reply of `tag` and the movies after it: an unknown user fails and changes nothing; then the prompt for a missing id, the not-found reply, the already-tagged reply, the error for a user without a tag, or "Tagged ..." with the user's id appended to exactly the named movie |
| Tagging.UntagReplies | radarr.py:130-149 | every reply of `untag` and the movies after it: an unknown user fails and changes nothing; then the prompt for a missing id, the not-found reply, the not-tagged reply, or "Untagged ..." with the user's id removed from exactly the named movie |
| Tagging.EditsKeepIdsDistinct | radarr.py:125-126 | neither edit breaks the uniqueness of movie ids |
| Tagging.TagIdempotent | radarr.py:122-125 | tagging twice leaves the movies as tagging once does |
| Tagging.UntagUndoesTagInStore | radarr.py:125-146 | when a known user with a tag names an existing movie without it, `tag` followed by `untag` restores every movie |
| RadarrWrapper.MeReply | radarr.py:89-107 | `me` fails exactly for an unknown username, with that username in the error |
| RadarrWrapper.MeListsClaimed | radarr.py:89-107 | `me` lists exactly the selected movies the user has tagged, in order; at most ten with terms; nothing for a user without a tag |
| RadarrWrapper.MeStep | radarr.py:100-105 | one turn of `me`'s loop adds a line exactly when the user has tagged the movie |
| RadarrWrapper.Radarr.constructor | radarr.py:32-33 | the wrapper starts over a service holding the given movies and tags |
| RadarrWrapper.Radarr.Status | radarr.py:35-58 | the counting loop yields the count, the total size, and the count and size of exactly the untagged movies, as `StatusReport` |
| RadarrWrapper.Radarr.List | radarr.py:60-78 | the chunks are those of the selected lines; they spell out every line; all but the last are over 1800; the last is at most 1800 |
| RadarrWrapper.Radarr.LookupUser | radarr.py:80-87 | the search loop returns what `LookupUserId` describes |
| RadarrWrapper.Radarr.Me | radarr.py:89-107 | the filtering loop returns `MeReply` |
| RadarrWrapper.Radarr.Tag | radarr.py:109-128 | the reply and new movies are those of `TagOutcome`, the not-found reply as written included; the tags do not change; ids stay unique |
| RadarrWrapper.Radarr.Untag | radarr.py:130-149 | the reply and new movies are those of `UntagOutcome`, the not-found reply as written included; the tags do not change; ids stay unique |
| RadarrWrapper.Radarr.TagThenUntag | radarr.py:125-146 | when a known user with a tag names an existing movie without it, `tag` followed by `untag` leaves the service as it was, and both calls succeed |

## Left out

- main.py is not part of this model. It holds the chat-bot command routing and the `help` text.
- The REST calls (`get_movie`, `get_tag`, `upd_movie`) become reads and writes of the class's fields. Network failures and server-side validation are not modelled.
- `fuzz.partial_ratio` and `humanize.naturalsize` are parameters. Their own behaviour is not modelled.
- `list` is a Python generator. The model returns all its chunks at once; laziness is not modelled.
- Command arguments are modelled as integers. The source passes the chat text of the first argument on to the service unparsed.
- RadarrWrapper.Radarr.Tag: in the source, a user whose label names no tag gets `None` appended to the movie's tags, which is then sent to the service, whose answer is not known. The model returns the error `NoUserTag` and changes nothing.
- RadarrWrapper.Radarr.Tag: the source's reply names the movie as `upd_movie` echoes it back. The model names the movie as it was read, the same title and year.
- RadarrWrapper.Radarr.Untag: the same echo holds for its reply.
- Filter.TopMatchesAreBest: it compares the left-out movies by membership. Two identical movie records where one is kept and one left out are not compared; with unique ids this cannot happen.
- RadarrWrapper.Radarr.constructor: the source's constructor takes a URL and an API key; the model takes the service's initial movies and tags instead.
- Python's exceptions become a `Result` with an `Error` value. Exception messages are not modelled beyond the username they carry.

## Findings

| source | as written | input that shows it | evidently intended | confidence | as-written member | corrected member |
|---|---|---|---|---|---|---|
| radarr.py:120 | the not-found reply (and the same at line 141) is a plain string `"No movie found with ID {movie_id}"`, without the `f` prefix, so the braces are sent literally; `Radarr.Tag` and `Radarr.Untag` reply this text | `tag` or `untag` with any two ids on a service holding neither: both replies are the same and name no id | `f"No movie found with ID {movie_id}"`, naming the requested id, as `Tagging.NotFoundMessage` renders it | high, not executed | Tagging.NotFoundMessageAsWrittenIgnoresId | Tagging.NotFoundMessageNamesId |
