/** The like/save controller of a post card (`PostStats`).

    The component keeps two pieces of local state: the list of liker ids,
    initialised from the post document, and a "saved" flag. A like click
    toggles the user's id in the local list and sends the whole new list to
    the like mutation; a save click either deletes the user's existing save
    record for the post or creates one, deciding from the cached current-user
    document rather than from the flag. */
module PostStats {
  import opened Wrappers
  import opened Models

  /** A document of the saves collection, linking a user to a post. */
  datatype SaveRecord = SaveRecord(id: Id, postId: Id)

  /** The part of the cached current-user document the component reads:
      the user's save records, in the order the backend returned them. */
  datatype CurrentUser = CurrentUser(id: Id, save: seq<SaveRecord>)

  /** A post document: its id and the user documents that like it. */
  datatype Post = Post(id: Id, likes: seq<Document>)

  /** The component's local state. */
  datatype State = State(likes: seq<Id>, isSaved: bool)

  /** Arguments of the like mutation: the post and its complete new liker list. */
  datatype LikeRequest = LikeRequest(postId: Id, likesArray: seq<Id>)

  /** The request a save click hands to one of the two save mutations. */
  datatype SaveRequest =
    | DeleteSaved(savedRecordId: Id)
    | CreateSave(userId: Id, postId: Id)

  /** A click's effect: the next local state and the mutation it fires. */
  datatype Step<R> = Step(state: State, request: R)

  /** The save icon: a loader while either save mutation is pending. */
  datatype SaveIcon = SaveLoader | SavedIcon | SaveOutlineIcon

  /** What the card shows for the current state. */
  datatype View = View(liked: bool, likeCount: nat, saveIcon: SaveIcon)

  // ---------------------------------------------------------------------
  // Sequences kept in order

  /** `t` can be obtained from `s` by deleting elements (greedy matching). */
  predicate IsSubsequence(t: seq<Id>, s: seq<Id>)
    decreases |s|
  {
    if |t| == 0 then true
    else if |s| == 0 then false
    else if t[0] == s[0] then IsSubsequence(t[1..], s[1..])
    else IsSubsequence(t, s[1..])
  }

  /** A subsequence never holds more copies of an element than its source. */
  lemma {:induction false} SubsequenceMultiset(t: seq<Id>, s: seq<Id>)
    requires IsSubsequence(t, s)
    ensures multiset(t) <= multiset(s)
    decreases |s|
  {
    if |t| == 0 {
    } else if t[0] == s[0] {
      SubsequenceMultiset(t[1..], s[1..]);
      assert t == [t[0]] + t[1..];
      assert s == [s[0]] + s[1..];
    } else {
      SubsequenceMultiset(t, s[1..]);
      assert s == [s[0]] + s[1..];
    }
  }

  /** Every sequence is a subsequence of itself extended at the end. */
  lemma {:induction false} SubsequenceOfExtension(s: seq<Id>, e: seq<Id>)
    ensures IsSubsequence(s, s + e)
    decreases |s|
  {
    if |s| > 0 {
      SubsequenceOfExtension(s[1..], e);
      assert (s + e)[1..] == s[1..] + e;
    }
  }

  /** The array `filter` that drops every element equal to `x`. */
  function RemoveAll(s: seq<Id>, x: Id): (r: seq<Id>)
    ensures x !in r
    ensures forall y :: y != x ==> multiset(r)[y] == multiset(s)[y]
    ensures forall y :: y != x ==> (y in r <==> y in s)
    ensures IsSubsequence(r, s)
  {
    if |s| == 0 then []
    else if s[0] == x then
      assert s == [s[0]] + s[1..];
      RemoveAll(s[1..], x)
    else
      var rest := RemoveAll(s[1..], x);
      assert ([s[0]] + rest)[1..] == rest;
      assert s == [s[0]] + s[1..];
      [s[0]] + rest
  }

  /** The three properties of `RemoveAll` pin its result down: any
      subsequence of `s` without `x` that keeps every other element as
      often as `s` does is exactly `RemoveAll(s, x)`. */
  lemma {:induction false} RemoveAllUnique(s: seq<Id>, x: Id, t: seq<Id>)
    requires IsSubsequence(t, s)
    requires x !in t
    requires forall y :: y != x ==> multiset(t)[y] == multiset(s)[y]
    ensures t == RemoveAll(s, x)
    decreases |s|
  {
    if |s| == 0 {
    } else if s[0] == x {
      assert s == [s[0]] + s[1..];
      assert IsSubsequence(t, s[1..]);
      RemoveAllUnique(s[1..], x, t);
    } else {
      var y := s[0];
      assert s == [y] + s[1..];
      assert multiset(s[1..])[y] + 1 == multiset(s)[y];
      if |t| == 0 || t[0] != y {
        assert IsSubsequence(t, s[1..]);
        SubsequenceMultiset(t, s[1..]);
        assert false;
      }
      assert t == [y] + t[1..];
      forall z | z != x
        ensures multiset(t[1..])[z] == multiset(s[1..])[z]
      {
        assert multiset(t)[z] == multiset(t[1..])[z] + (if z == y then 1 else 0);
      }
      RemoveAllUnique(s[1..], x, t[1..]);
    }
  }

  // ---------------------------------------------------------------------
  // Like toggle

  /** The liker list after a like click by `userId`: when the user already
      likes the post every occurrence of their id is dropped, otherwise the
      id is appended once at the end; the other ids keep their order. */
  function ToggleLike(likes: seq<Id>, userId: Id): (r: seq<Id>)
    ensures userId in r <==> userId !in likes
    ensures forall y :: y != userId ==> (y in r <==> y in likes)
    ensures userId !in likes ==>
              |r| == |likes| + 1 && r[..|likes|] == likes && r[|likes|] == userId
    ensures userId in likes ==>
              && IsSubsequence(r, likes)
              && forall y :: y != userId ==> multiset(r)[y] == multiset(likes)[y]
  {
    if userId in likes then RemoveAll(likes, userId) else likes + [userId]
  }

  /** Un-liking right after liking gives back exactly the original list. */
  lemma ToggleTwiceRestores(likes: seq<Id>, userId: Id)
    requires userId !in likes
    ensures ToggleLike(ToggleLike(likes, userId), userId) == likes
  {
    var once := likes + [userId];
    SubsequenceOfExtension(likes, [userId]);
    RemoveAllUnique(once, userId, likes);
  }

  /** Liking right after un-liking keeps the same ids but leaves the user's
      id exactly once, at the end; with a single occurrence to begin with
      the list is a permutation of the original. */
  lemma ToggleTwiceMovesToEnd(likes: seq<Id>, userId: Id)
    requires userId in likes
    ensures var r := ToggleLike(ToggleLike(likes, userId), userId);
            && |r| > 0
            && r[|r| - 1] == userId
            && multiset(r)[userId] == 1
            && (forall y :: y in r <==> y in likes)
            && (multiset(likes)[userId] == 1 ==> multiset(r) == multiset(likes))
  {
    var once := RemoveAll(likes, userId);
    var r := ToggleLike(once, userId);
    assert r == once + [userId];
    assert multiset(r) == multiset(once) + multiset{userId};
    forall y
      ensures y in r <==> y in likes
    {
      if y != userId {
        assert y in r <==> multiset(r)[y] > 0;
        assert y in likes <==> multiset(likes)[y] > 0;
      }
    }
    if multiset(likes)[userId] == 1 {
      forall y
        ensures multiset(r)[y] == multiset(likes)[y]
      {
      }
    }
  }

  // ---------------------------------------------------------------------
  // Component state

  /** The local state on mount: the ids of the post's likers, not saved. */
  function Init(post: Post): (st: State)
    ensures |st.likes| == |post.likes|
    ensures forall i :: 0 <= i < |post.likes| ==> st.likes[i] == post.likes[i].id
    ensures !st.isSaved
  {
    State(seq(|post.likes|, i requires 0 <= i < |post.likes| => post.likes[i].id), false)
  }

  /** A like click: the local list is toggled and the same list is sent,
      with the post's id, to the like mutation. The saved flag is untouched. */
  function HandleLikePost(st: State, post: Post, userId: Id): (step: Step<LikeRequest>)
    ensures step.request.likesArray == step.state.likes
    ensures step.request.postId == post.id
    ensures step.state.likes == ToggleLike(st.likes, userId)
    ensures step.state.isSaved == st.isSaved
  {
    var likesArray := ToggleLike(st.likes, userId);
    Step(st.(likes := likesArray), LikeRequest(post.id, likesArray))
  }

  /** Index of the first save record that points at `postId`. */
  function FirstSaveOf(saves: seq<SaveRecord>, postId: Id): (r: Option<nat>)
    ensures r.Some? ==>
              && r.value < |saves|
              && saves[r.value].postId == postId
              && forall j :: 0 <= j < r.value ==> saves[j].postId != postId
    ensures r.None? ==> forall j :: 0 <= j < |saves| ==> saves[j].postId != postId
  {
    if |saves| == 0 then None
    else if saves[0].postId == postId then Some(0)
    else match FirstSaveOf(saves[1..], postId)
      case None => None
      case Some(i) => Some(i + 1)
  }

  /** `savedPostRecord`: the first record of the current user's save list
      whose post is this post; none while the user is not loaded or when no
      record matches. */
  function SavedPostRecord(currentUser: Option<CurrentUser>, postId: Id): (r: Option<SaveRecord>)
    ensures r.Some? <==>
              currentUser.Some? &&
              exists i :: 0 <= i < |currentUser.value.save| && currentUser.value.save[i].postId == postId
    ensures r.Some? ==>
              exists i ::
                && 0 <= i < |currentUser.value.save|
                && currentUser.value.save[i] == r.value
                && r.value.postId == postId
                && forall j :: 0 <= j < i ==> currentUser.value.save[j].postId != postId
  {
    match currentUser
    case None => None
    case Some(user) =>
      match FirstSaveOf(user.save, postId)
      case None => None
      case Some(i) => Some(user.save[i])
  }

  /** A save click. With an existing record the flag is cleared and the
      first matching record is deleted by its own id, even when the list
      holds several records for the post; otherwise a record for
      (userId, post) is created and the flag is set. */
  function HandleSavePost(st: State, currentUser: Option<CurrentUser>, post: Post, userId: Id)
    : (step: Step<SaveRequest>)
    ensures step.state.likes == st.likes
    ensures step.request.DeleteSaved? <==> SavedPostRecord(currentUser, post.id).Some?
    ensures step.request.DeleteSaved? ==>
              exists i ::
                && 0 <= i < |currentUser.value.save|
                && currentUser.value.save[i].id == step.request.savedRecordId
                && currentUser.value.save[i].postId == post.id
                && forall j :: 0 <= j < i ==> currentUser.value.save[j].postId != post.id
    ensures step.request.CreateSave? ==> step.request == CreateSave(userId, post.id)
    ensures step.state.isSaved <==> step.request.CreateSave?
  {
    match SavedPostRecord(currentUser, post.id)
    case Some(record) => Step(st.(isSaved := false), DeleteSaved(record.id))
    case None => Step(st.(isSaved := true), CreateSave(userId, post.id))
  }

  /** Duplicate save records for one post can exist (a second click before
      the cached user is refetched creates a second record); a save click
      then deletes the earlier one. */
  lemma DuplicateSavesDeleteFirst(st: State, user: CurrentUser, post: Post, userId: Id, a: SaveRecord, b: SaveRecord)
    requires a.postId == post.id && b.postId == post.id
    requires user.save == [a, b]
    ensures HandleSavePost(st, Some(user), post, userId).request == DeleteSaved(a.id)
  {
  }

  /** The effect run when the current user changes: the flag becomes
      "a save record for this post exists". */
  function SyncSaved(st: State, currentUser: Option<CurrentUser>, post: Post): (st': State)
    ensures st'.likes == st.likes
    ensures st'.isSaved <==>
              currentUser.Some? &&
              exists i :: 0 <= i < |currentUser.value.save| && currentUser.value.save[i].postId == post.id
  {
    st.(isSaved := SavedPostRecord(currentUser, post.id).Some?)
  }

  /** The save decision ignores the local flag: two states that differ only
      in `isSaved` lead to the same request and the same next state. */
  lemma SaveDecisionIgnoresFlag(likes: seq<Id>, currentUser: Option<CurrentUser>, post: Post, userId: Id)
    ensures HandleSavePost(State(likes, true), currentUser, post, userId)
         == HandleSavePost(State(likes, false), currentUser, post, userId)
  {
  }

  /** Once the flag is in sync with the cached user, a save click flips it:
      a saved post gets unsaved and an unsaved post gets saved. */
  lemma SaveClickFlipsSyncedFlag(st: State, currentUser: Option<CurrentUser>, post: Post, userId: Id)
    ensures var synced := SyncSaved(st, currentUser, post);
            HandleSavePost(synced, currentUser, post, userId).state.isSaved == !synced.isSaved
  {
  }

  /** What the card shows: the liked icon iff the user's id is in the local
      list (`checkIsLiked` as a membership test), the number of entries, and
      for saving a loader while a save mutation is pending, else the icon
      the flag selects. */
  function Render(st: State, userId: Id, isSavingPost: bool, isDeletingSaved: bool): (v: View)
    ensures v.liked <==> userId in st.likes
    ensures v.likeCount == |st.likes|
    ensures v.saveIcon.SaveLoader? <==> isSavingPost || isDeletingSaved
    ensures !v.saveIcon.SaveLoader? ==> (v.saveIcon.SavedIcon? <==> st.isSaved)
  {
    View(
      userId in st.likes,
      |st.likes|,
      if isSavingPost || isDeletingSaved then SaveLoader
      else if st.isSaved then SavedIcon
      else SaveOutlineIcon)
  }

  /** A like click flips the liked icon and moves the count by one when the
      list held the user's id at most once. */
  lemma LikeClickFlipsIcon(st: State, post: Post, userId: Id, saving: bool, deleting: bool)
    requires multiset(st.likes)[userId] <= 1
    ensures var before := Render(st, userId, saving, deleting);
            var after := Render(HandleLikePost(st, post, userId).state, userId, saving, deleting);
            && after.liked == !before.liked
            && (before.liked ==> after.likeCount + 1 == before.likeCount)
            && (!before.liked ==> after.likeCount == before.likeCount + 1)
  {
    var likes := st.likes;
    if userId in likes {
      var r := RemoveAll(likes, userId);
      assert multiset(likes) == multiset(r) + multiset{userId} by {
        forall y
          ensures multiset(likes)[y] == (multiset(r) + multiset{userId})[y]
        {
        }
      }
    }
  }
}
