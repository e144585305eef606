/** The query-key alphabet (`QUERY_KEYS`). A TypeScript string enum: each
    member's runtime value is its string, and that string is what a query
    key tuple holds. */
module QueryKeys {

  datatype QueryKeyName =
    | GetCurrentUser
    | GetRecentPosts
    | GetPosts
    | GetPostById
    | GetInfinitePosts
    | SearchPosts
  {
    /** The enum member's string value. */
    function Value(): string {
      match this
      case GetCurrentUser => "getCurrentUser"
      case GetRecentPosts => "getRecentPosts"
      case GetPosts => "getPosts"
      case GetPostById => "getPostById"
      case GetInfinitePosts => "getInfinitePosts"
      case SearchPosts => "getSearchPosts"
    }
  }

  /** One element of a key tuple: a string, or `undefined`. */
  datatype KeyPart = Str(s: string) | Undefined

  type QueryKey = seq<KeyPart>

  /** The key part an enum member contributes. */
  function Name(k: QueryKeyName): KeyPart {
    Str(k.Value())
  }

  /** The enum's values are pairwise distinct, so a key part names at most
      one member. */
  lemma NamesDistinct(a: QueryKeyName, b: QueryKeyName)
    ensures Name(a) == Name(b) <==> a == b
  {
  }

  /** The element at position `i` of a key tuple as JavaScript reads it:
      `undefined` past the end of the tuple. */
  function PartAt(key: QueryKey, i: nat): KeyPart {
    if i < |key| then key[i] else Undefined
  }

  /** Partial key matching used by invalidation: every position of the filter
      tuple holds the same value as the key tuple at that position, where a
      position past the key's end reads as `undefined`. A filter without
      `undefined` parts therefore matches exactly the keys it is a prefix of. */
  function Matches(filter: QueryKey, key: QueryKey): (b: bool)
    ensures |filter| <= |key| ==> (b <==> key[..|filter|] == filter)
    ensures (forall i :: 0 <= i < |filter| ==> filter[i].Str?) ==>
              (b <==> |filter| <= |key| && key[..|filter|] == filter)
  {
    assert |filter| > |key| && (forall i :: 0 <= i < |filter| ==> filter[i].Str?) ==>
             filter[|key|] != PartAt(key, |key|);
    forall i :: 0 <= i < |filter| ==> filter[i] == PartAt(key, i)
  }

  /** A filter ending in `undefined` also matches the key one element
      shorter, since the missing position reads as `undefined`. */
  lemma UndefinedMatchesMissingPart(filter: QueryKey)
    ensures Matches(filter + [Undefined], filter)
  {
    assert forall i :: 0 <= i < |filter| ==> (filter + [Undefined])[i] == PartAt(filter, i);
  }
}

/** The mutation hooks of `queryAndMutations` and the query keys each
    invalidates once its request has succeeded. */
module Invalidation {
  import opened Wrappers
  import opened QueryKeys

  datatype Mutation =
    | CreateUserAccount
    | SignInAccount
    | SignOutAccount
    | CreatePost
    | LikePost
    | SavePost
    | DeleteSavedPost

  /** How a mutation's request settled. On success the handler sees the
      returned data; only its `$id` is read, and `data?.$id` is `undefined`
      when nothing was returned. */
  datatype Outcome = Succeeded(returnedId: Option<string>) | Failed

  /** The key part `data?.$id` evaluates to: the returned id as a string,
      or `undefined` when nothing was returned. */
  function ReturnedIdPart(id: Option<string>): (p: KeyPart)
    ensures p.Undefined? <==> id.None?
    ensures id.Some? ==> p.s == id.value
  {
    match id
    case Some(s) => Str(s)
    case None => Undefined
  }

  /** The key filters passed to `invalidateQueries` by the mutation's
      `onSuccess` handler. A failed mutation runs no handler. */
  function InvalidatedKeys(m: Mutation, o: Outcome): (r: set<QueryKey>)
    ensures o.Failed? ==> r == {}
    ensures forall f: QueryKey :: f in r ==> |f| > 0 && f[0].Str?
  {
    if o.Failed? then {}
    else
      match m
      case CreateUserAccount => {}
      case SignInAccount => {}
      case SignOutAccount => {}
      case CreatePost => {[Name(GetRecentPosts)]}
      case LikePost =>
        { [Name(GetPostById), ReturnedIdPart(o.returnedId)],
          [Name(GetRecentPosts)],
          [Name(GetPosts)],
          [Name(GetCurrentUser)] }
      case SavePost => {[Name(GetRecentPosts)], [Name(GetPosts)], [Name(GetCurrentUser)]}
      case DeleteSavedPost => {[Name(GetRecentPosts)], [Name(GetPosts)], [Name(GetCurrentUser)]}
  }

  /** A cached query with key `key` is marked stale by the mutation. */
  predicate Invalidates(m: Mutation, o: Outcome, key: QueryKey) {
    exists f :: f in InvalidatedKeys(m, o) && Matches(f, key)
  }

  /** The key tuples of the two queries the hooks module defines. */
  const CurrentUserQuery: QueryKey := [Name(GetCurrentUser)]
  const RecentPostsQuery: QueryKey := [Name(GetRecentPosts)]

  /** A failed mutation marks no query stale. */
  lemma FailureInvalidatesNothing(m: Mutation, key: QueryKey)
    ensures !Invalidates(m, Failed, key)
  {
  }

  /** Sign-up, sign-in and sign-out leave the cache alone, whatever happens. */
  lemma AuthMutationsInvalidateNothing(m: Mutation, o: Outcome, key: QueryKey)
    requires m == CreateUserAccount || m == SignInAccount || m == SignOutAccount
    ensures InvalidatedKeys(m, o) == {}
    ensures !Invalidates(m, o, key)
  {
  }

  /** A created post marks stale exactly the queries under the recent-posts
      key. */
  lemma CreatePostInvalidatesRecentPosts(id: Option<string>, key: QueryKey)
    ensures InvalidatedKeys(CreatePost, Succeeded(id)) == {RecentPostsQuery}
    ensures Invalidates(CreatePost, Succeeded(id), key) <==> |key| > 0 && key[0] == Name(GetRecentPosts)
  {
    if |key| > 0 && key[0] == Name(GetRecentPosts) {
      assert Matches(RecentPostsQuery, key);
    }
  }

  /** A like hands four distinct filters to `invalidateQueries`. */
  lemma LikeInvalidatesFourKeys(id: Option<string>)
    ensures |InvalidatedKeys(LikePost, Succeeded(id))| == 4
  {
    var byId := [Name(GetPostById), ReturnedIdPart(id)];
    var three: set<QueryKey> := {[Name(GetRecentPosts)], [Name(GetPosts)], [Name(GetCurrentUser)]};
    assert InvalidatedKeys(LikePost, Succeeded(id)) == {byId} + three;
    assert |three| == 3 by {
      assert [Name(GetRecentPosts)] != [Name(GetPosts)];
      assert three == {[Name(GetRecentPosts)]} + {[Name(GetPosts)]} + {[Name(GetCurrentUser)]};
    }
    assert byId !in three;
  }

  /** A query is stale after a like iff its key starts with the by-id name
      and holds the returned id at position 1 (`undefined` there when the key
      ends after the name), or lies under the recent-posts, posts or
      current-user key. */
  lemma LikeInvalidates(id: Option<string>, key: QueryKey)
    ensures Invalidates(LikePost, Succeeded(id), key) <==>
              || (|key| > 0 && key[0] == Name(GetPostById) && PartAt(key, 1) == ReturnedIdPart(id))
              || (|key| > 0 && (key[0] == Name(GetRecentPosts) || key[0] == Name(GetPosts) || key[0] == Name(GetCurrentUser)))
  {
    var byId := [Name(GetPostById), ReturnedIdPart(id)];
    var ks := InvalidatedKeys(LikePost, Succeeded(id));
    if Invalidates(LikePost, Succeeded(id), key) {
      var f :| f in ks && Matches(f, key);
      assert f[0] == PartAt(key, 0);
      if f == byId {
        assert byId[1] == PartAt(key, 1);
      }
    }
    if |key| > 0 && key[0] == Name(GetPostById) && PartAt(key, 1) == ReturnedIdPart(id) {
      assert byId[0] == PartAt(key, 0) && byId[1] == PartAt(key, 1);
      assert Matches(byId, key);
    }
    if |key| > 0 && (key[0] == Name(GetRecentPosts) || key[0] == Name(GetPosts) || key[0] == Name(GetCurrentUser)) {
      assert [key[0]] in ks;
      assert Matches([key[0]], key);
    }
  }

  /** A like whose response carries no `$id` also marks stale the queries
      keyed by the by-id name alone. */
  lemma LikeWithoutIdHitsBareByIdKey()
    ensures Invalidates(LikePost, Succeeded(None), [Name(GetPostById)])
  {
    LikeInvalidates(None, [Name(GetPostById)]);
  }

  /** A like leaves alone the by-id query of any other post. */
  lemma LikeSparesOtherPosts(id: string, otherId: string, rest: QueryKey)
    requires otherId != id
    ensures !Invalidates(LikePost, Succeeded(Some(id)), [Name(GetPostById), Str(otherId)] + rest)
  {
    LikeInvalidates(Some(id), [Name(GetPostById), Str(otherId)] + rest);
  }

  /** Saving and unsaving invalidate the same three filters. */
  lemma SaveAndUnsaveAgree(o: Outcome)
    requires o.Succeeded?
    ensures InvalidatedKeys(SavePost, o) == InvalidatedKeys(DeleteSavedPost, o)
    ensures InvalidatedKeys(SavePost, o) == {RecentPostsQuery, [Name(GetPosts)], CurrentUserQuery}
    ensures |InvalidatedKeys(SavePost, o)| == 3
  {
    var three: set<QueryKey> := {[Name(GetRecentPosts)], [Name(GetPosts)], [Name(GetCurrentUser)]};
    assert three == {[Name(GetRecentPosts)]} + {[Name(GetPosts)]} + {[Name(GetCurrentUser)]};
  }

  /** No mutation ever invalidates the infinite-posts or search queries. */
  lemma FeedAndSearchNeverInvalidated(m: Mutation, o: Outcome, key: QueryKey)
    requires |key| > 0 && (key[0] == Name(GetInfinitePosts) || key[0] == Name(SearchPosts))
    ensures !Invalidates(m, o, key)
  {
  }

  /** Effect on the two queries of the hooks module: every successful like,
      save or unsave refreshes both; a created post refreshes the recent
      posts but not the current user. */
  lemma CachedQueriesAfterSuccess(m: Mutation, id: Option<string>)
    ensures (m == LikePost || m == SavePost || m == DeleteSavedPost) ==>
              Invalidates(m, Succeeded(id), CurrentUserQuery) &&
              Invalidates(m, Succeeded(id), RecentPostsQuery)
    ensures m == CreatePost ==>
              !Invalidates(m, Succeeded(id), CurrentUserQuery) &&
              Invalidates(m, Succeeded(id), RecentPostsQuery)
  {
    if m == LikePost || m == SavePost || m == DeleteSavedPost {
      assert Matches(CurrentUserQuery, CurrentUserQuery);
      assert Matches(RecentPostsQuery, RecentPostsQuery);
    }
    if m == CreatePost {
      CreatePostInvalidatesRecentPosts(id, CurrentUserQuery);
      CreatePostInvalidatesRecentPosts(id, RecentPostsQuery);
    }
  }
}
