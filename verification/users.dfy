/**
  Who is who: the fixed chat-username to tag-label table, the search for a
  label's tag id, which movies a user has claimed, and the edits `tag` and
  `untag` make to a movie's tag list.
 */
module Users {
  import opened Movies

  /** `USER_TAG_MAP`: chat username to the label of that user's tag. */
  const UserTagMap: map<string, string> := map[
    "simple_harmonic_motion" := "sean",
    "elzibubble" := "alexis",
    "bakatron" := "nick",
    "spike6112" := "spike",
    "seraphaile" := "mark"
  ]

  /** No two users share a label, so no user sees another's movies as their own. */
  lemma UserTagMapInjective()
    ensures |UserTagMap.Keys| == 5
    ensures forall a, b :: a in UserTagMap && b in UserTagMap && a != b ==> UserTagMap[a] != UserTagMap[b]
  {
  }

  /** Position of the first tag with this label, or `|tags|` when there is none. */
  function FirstLabelIndex(tags: seq<Tag>, wanted: string): (i: nat)
    ensures i <= |tags|
    ensures forall j :: 0 <= j < i ==> tags[j].name != wanted
    ensures i < |tags| ==> tags[i].name == wanted
  {
    if tags == [] || tags[0].name == wanted then 0 else 1 + FirstLabelIndex(tags[1..], wanted)
  }

  /**
    `_lookup_user_id`: an unknown username raises; otherwise the id of the
    first tag carrying the user's label, or None when no tag does.
   */
  function LookupUserId(tags: seq<Tag>, username: string): (r: Result<Option<int>>)
    ensures r.Err? <==> username !in UserTagMap
    ensures r.Err? ==> r.error == UnknownUser(username)
    ensures r.Ok? ==>
      (r.value.None? <==> forall i :: 0 <= i < |tags| ==> tags[i].name != UserTagMap[username])
    ensures r.Ok? && r.value.Some? ==>
      exists i :: 0 <= i < |tags| && tags[i].name == UserTagMap[username] && tags[i].id == r.value.value
        && forall j :: 0 <= j < i ==> tags[j].name != UserTagMap[username]
  {
    if username !in UserTagMap then Err(UnknownUser(username))
    else
      var i := FirstLabelIndex(tags, UserTagMap[username]);
      Ok(if i < |tags| then Some(tags[i].id) else None)
  }

  /** `user_id in movie["tags"]`: a user without a tag (None) has claimed nothing. */
  predicate ClaimedBy(m: Movie, userId: Option<int>)
  {
    userId.Some? && userId.value in m.tags
  }

  /** The entries a user has claimed, in listing order. */
  function Claimed(entries: seq<Entry>, userId: Option<int>): seq<Entry>
  {
    if entries == [] then []
    else
      var last := entries[|entries| - 1];
      Claimed(entries[..|entries| - 1], userId) + (if ClaimedBy(last.movie, userId) then [last] else [])
  }

  /** The claimed entries are exactly the listed entries the user has tagged, and no more of them. */
  lemma {:induction false} ClaimedExactly(entries: seq<Entry>, userId: Option<int>)
    ensures |Claimed(entries, userId)| <= |entries|
    ensures forall e :: e in Claimed(entries, userId) <==> e in entries && ClaimedBy(e.movie, userId)
  {
    if entries != [] {
      var init := entries[..|entries| - 1];
      ClaimedExactly(init, userId);
      assert entries == init + [entries[|entries| - 1]];
    }
  }

  /** Claiming keeps listing order: the claims of a listing are those of its parts, in turn. */
  lemma {:induction false} ClaimedAppend(a: seq<Entry>, b: seq<Entry>, userId: Option<int>)
    ensures Claimed(a + b, userId) == Claimed(a, userId) + Claimed(b, userId)
    decreases |b|
  {
    if b == [] {
      assert a + b == a;
    } else {
      var init := b[..|b| - 1];
      assert (a + b)[..|a + b| - 1] == a + init;
      ClaimedAppend(a, init, userId);
    }
  }

  /** Claiming one more entry: it is kept exactly when the user has tagged its movie. */
  lemma ClaimedSnoc(entries: seq<Entry>, e: Entry, userId: Option<int>)
    ensures Claimed(entries + [e], userId) == Claimed(entries, userId) + (if ClaimedBy(e.movie, userId) then [e] else [])
  {
    assert (entries + [e])[..|entries|] == entries;
  }

  /** A user whose label names no tag has claimed nothing. */
  lemma {:induction false} ClaimedByNobody(entries: seq<Entry>)
    ensures Claimed(entries, None) == []
  {
    if entries != [] {
      ClaimedByNobody(entries[..|entries| - 1]);
    }
  }

  /** Position of the first occurrence of `x` in `s`, or `|s|`. */
  function IndexOf(s: seq<int>, x: int): (i: nat)
    ensures i <= |s|
    ensures x !in s[..i]
    ensures i < |s| <==> x in s
    ensures i < |s| ==> s[i] == x
  {
    if s == [] then 0
    else if s[0] == x then 0
    else
      var i := 1 + IndexOf(s[1..], x);
      assert s[..i] == [s[0]] + s[1..][..i - 1];
      i
  }

  /** An occurrence with no earlier one is the first. */
  lemma IndexOfFirst(s: seq<int>, x: int, k: nat)
    requires k < |s| && s[k] == x && x !in s[..k]
    ensures IndexOf(s, x) == k
  {
  }

  /**
    Python's `list.remove(x)` once `x in list` is known: the first occurrence
    goes, the rest keeps its order; a list without `x` is left alone.
   */
  function RemoveFirst(s: seq<int>, x: int): (r: seq<int>)
    ensures multiset(r) == multiset(s) - multiset{x}
    ensures x in s ==> |r| == |s| - 1
    ensures x in s ==> exists i :: 0 <= i < |s| && s[i] == x && x !in s[..i] && r == s[..i] + s[i + 1..]
    ensures x !in s ==> r == s
  {
    var i := IndexOf(s, x);
    if i < |s| then
      assert s == s[..i] + [x] + s[i + 1..];
      s[..i] + s[i + 1..]
    else s
  }

  /** `movie["tags"].append(user_id)` */
  function WithTag(m: Movie, userId: int): (r: Movie)
    ensures r.id == m.id && r.title == m.title && r.year == m.year && r.sizeOnDisk == m.sizeOnDisk
    ensures |r.tags| == |m.tags| + 1 && r.tags[..|m.tags|] == m.tags && r.tags[|m.tags|] == userId
  {
    m.(tags := m.tags + [userId])
  }

  /** `movie["tags"].remove(user_id)` */
  function WithoutTag(m: Movie, userId: int): (r: Movie)
    ensures r.id == m.id && r.title == m.title && r.year == m.year && r.sizeOnDisk == m.sizeOnDisk
    ensures multiset(r.tags) == multiset(m.tags) - multiset{userId}
  {
    m.(tags := RemoveFirst(m.tags, userId))
  }

  /** Untagging a movie that was just tagged for a user it was not tagged for restores it. */
  lemma {:induction false} UntagUndoesTag(m: Movie, userId: int)
    requires userId !in m.tags
    ensures WithoutTag(WithTag(m, userId), userId) == m
  {
    var s := m.tags + [userId];
    assert s[..|m.tags|] == m.tags;
    IndexOfFirst(s, userId, |m.tags|);
  }
}
