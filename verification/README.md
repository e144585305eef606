# media-app client logic in Dafny

This project models the client-side decision rules of a social-media web
client. The client is a thin React layer over a hosted backend. The modelled
rules are:

- the like/save controller of a post card (`PostStats`);
- the cache-invalidation table of the mutation hooks (`queryAndMutations`),
  over the query-key alphabet `QUERY_KEYS`;
- the explore page's choice between feed, end-of-feed message and search
  results, plus its next-page trigger (`Explore`), and the search-result
  panel (`SearchResults`);
- the sign-up form schema (`SignupValidation`).

Everything is a pure function over immutable data. The modules are:

- `Wrappers` (`wrappers.dfy`): `Option` stands for `undefined`, `Result`
  for a schema parse.
- `Models` (`models.dfy`): a document and its id.
- `PostStats` (`post_stats.dfy`)
- `QueryKeys` and `Invalidation` (`invalidation.dfy`)
- `SearchResults` and `Explore` (`explore.dfy`)
- `Validation` (`validation.dfy`)

Each of the last six modules follows one source file: `PostStats.tsx`,
`queryKeys.ts`, `queryAndMutations.ts`, `SearchResults.tsx`, `Explore.tsx`
and `validation/index.ts`.

Invalidation filters match query keys the way the query library's partial
key match does. Each position of the filter tuple must equal the key's
element at that position, and a position past the key's end reads as
`undefined`. So a filter without `undefined` parts matches exactly the keys
it is a prefix of, and a filter ending in `undefined` also matches the key
one element shorter.

The end-of-feed test follows the code rather than a looser reading of it. A
page entry that is `undefined` does not count as empty, because
`item?.documents.length === 0` is false for it. Such an entry therefore hides
the end-of-feed message, and it renders as an empty grid.

Inputs the code reads from the outside world are parameters of the model:

- the cached current user;
- the viewport-visibility flag `inView`;
- the infinite query's pages and `hasNextPage`;
- the search query's data and fetching flag;
- the debounced search text;
- the schema library's email predicate and message.

## Model

| member | source | states |
|---|---|---|
| PostStats.ToggleLike | src/components/shared/PostStats.tsx:42-48 | After a like click the user's id is present iff it was absent before. No other id changes membership. An absent id is appended once at the end with the rest unchanged. A present id is removed everywhere, and the other ids keep their order and multiplicity. |
| PostStats.RemoveAll | src/components/shared/PostStats.tsx:45 | The array filter drops `x` completely. It keeps every other id as often as before, keeps membership of the others, and yields a subsequence of its input. |
| PostStats.RemoveAllUnique | src/components/shared/PostStats.tsx:45 | Those filter properties pin the result down: any subsequence without `x` that keeps the other multiplicities equals the filter's result. |
| PostStats.ToggleTwiceRestores | src/components/shared/PostStats.tsx:42-48 | Liking and then un-liking from a list without the user gives back exactly the original list. |
| PostStats.ToggleTwiceMovesToEnd | src/components/shared/PostStats.tsx:42-48 | Un-liking and then liking keeps the same ids. The user's id ends up exactly once, at the end. With a single occurrence at the start, the result is a permutation of the original. |
| PostStats.Init | src/components/shared/PostStats.tsx:14-17 | The initial local list holds the ids of the post's liker documents, in order. The saved flag starts false. |
| PostStats.HandleLikePost | src/components/shared/PostStats.tsx:50-51 | The list sent to the like mutation, with the post's id, is the new local list. The saved flag is untouched. |
| PostStats.FirstSaveOf | src/components/shared/PostStats.tsx:26-28 | Returns the index of the first save record for the post, or none exactly when no record matches. |
| PostStats.SavedPostRecord | src/components/shared/PostStats.tsx:26-28 | The saved record exists iff the user is loaded and some record points at the post. It is the first such record. |
| PostStats.HandleSavePost | src/components/shared/PostStats.tsx:26-66 | With an existing record, the click deletes the first of the user's records that points at this post, by that record's id, and clears the flag. Otherwise it creates (userId, post id) and sets the flag. Likes stay unchanged. |
| PostStats.DuplicateSavesDeleteFirst | src/components/shared/PostStats.tsx:26-66 | With two save records for the post, a save click deletes the earlier one. |
| PostStats.SaveDecisionIgnoresFlag | src/components/shared/PostStats.tsx:60-66 | The request and the next state do not depend on the local saved flag. |
| PostStats.SyncSaved | src/components/shared/PostStats.tsx:32-34 | When the current user changes, the flag becomes true iff a save record for the post exists. |
| PostStats.SaveClickFlipsSyncedFlag | src/components/shared/PostStats.tsx:32-66 | Once the flag is in sync with the cached user, a save click negates it. |
| PostStats.Render | src/components/shared/PostStats.tsx:74-103 | The liked icon shows iff the id is in the local list. The count is the list's length. The save icon is a loader iff a save mutation is pending, and otherwise follows the flag. |
| PostStats.LikeClickFlipsIcon | src/components/shared/PostStats.tsx:42-86 | If the list held the user's id at most once, a like click flips the liked icon and moves the count by exactly one. |
| QueryKeys.NamesDistinct | src/lib/react-query/queryKeys.ts:1-13 | Two enum members give the same key part iff they are the same member. |
| QueryKeys.Matches | src/lib/react-query/queryAndMutations.ts:83-94 | When the filter is no longer than the key, it matches iff it is the key's prefix. A filter made of strings matches exactly the keys it is a prefix of. |
| QueryKeys.UndefinedMatchesMissingPart | src/lib/react-query/queryAndMutations.ts:83-85 | A filter ending in `undefined` matches the key without that last position. |
| Invalidation.ReturnedIdPart | src/lib/react-query/queryAndMutations.ts:84 | `data?.$id` is `undefined` iff nothing was returned, and otherwise the returned id. |
| Invalidation.InvalidatedKeys | src/lib/react-query/queryAndMutations.ts:54-132 | A failed mutation hands no filter to `invalidateQueries`. Every filter starts with a string. |
| Invalidation.FailureInvalidatesNothing | src/lib/react-query/queryAndMutations.ts:54-132 | Invalidation runs only in `onSuccess`, so a failed mutation makes no query stale. |
| Invalidation.AuthMutationsInvalidateNothing | src/lib/react-query/queryAndMutations.ts:12-32 | Sign-up, sign-in and sign-out invalidate nothing, whatever the outcome. |
| Invalidation.CreatePostInvalidatesRecentPosts | src/lib/react-query/queryAndMutations.ts:54-58 | A created post invalidates exactly the recent-posts filter. A query becomes stale iff its key starts with that name. |
| Invalidation.LikeInvalidatesFourKeys | src/lib/react-query/queryAndMutations.ts:82-95 | A successful like hands over four distinct filters. |
| Invalidation.LikeInvalidates | src/lib/react-query/queryAndMutations.ts:82-95 | After a like, a query is stale iff one of these holds: its key begins with the post-by-id name and holds the returned `$id` at position 1, which reads as `undefined` past the key's end; or its key begins with recent posts, posts or current user. |
| Invalidation.LikeWithoutIdHitsBareByIdKey | src/lib/react-query/queryAndMutations.ts:82-85 | A like whose response has no `$id` also makes the query keyed by the post-by-id name alone stale. |
| Invalidation.LikeSparesOtherPosts | src/lib/react-query/queryAndMutations.ts:82-85 | A like never invalidates the by-id query of a different post. |
| Invalidation.SaveAndUnsaveAgree | src/lib/react-query/queryAndMutations.ts:104-132 | Save and delete-saved invalidate the same set of three filters: recent posts, posts and current user. |
| Invalidation.FeedAndSearchNeverInvalidated | src/lib/react-query/queryKeys.ts:8-12 | No mutation, whatever its outcome, makes a query under the infinite-posts or search key stale. |
| Invalidation.CachedQueriesAfterSuccess | src/lib/react-query/queryAndMutations.ts:38-132 | A successful like, save or unsave makes both defined queries stale: current user and recent posts. A created post makes recent posts stale but not the current user. |
| SearchResults.Render | src/components/shared/SearchResults.tsx:11-19 | The loader shows iff fetching. The grid shows iff not fetching and the results hold a document, and it shows exactly those documents. "No results" shows iff not fetching and the results are absent or empty. |
| SearchResults.GridIsNeverEmpty | src/components/shared/SearchResults.tsx:11-14 | The grid never shows an empty list. While fetching, the results present make no difference. |
| Explore.RequestsNextPage | src/_root/pages/Explore.tsx:20-24 | A next page is requested iff the effect runs and both hold: the sentinel is in view and the raw search text is empty. The effect runs on the first render or when its dependencies change. |
| Explore.AllEmpty | src/_root/pages/Explore.tsx:34-35 | `every` holds iff each page is present and has no documents. |
| Explore.Grids | src/_root/pages/Explore.tsx:84-86 | There is one grid per page, in order. A missing page renders as an empty list. |
| Explore.Render | src/_root/pages/Explore.tsx:26-94 | Only the loader shows iff there is no pages data. The search panel shows iff the raw text is non-empty. End-of-feed shows iff not searching and every page is present and empty. Otherwise the page grids show. The sentinel is mounted iff `hasNextPage` holds and the text is empty. |
| Explore.FlattenMembership | src/_root/pages/Explore.tsx:84-86 | A document is in the concatenated grids iff it is in one grid. |
| Explore.NoPagesIsEndOfFeed | src/_root/pages/Explore.tsx:34-82 | With zero pages and no search, the end-of-feed message shows. |
| Explore.FetchedDocumentsAreShown | src/_root/pages/Explore.tsx:34-86 | Outside a search, a document of any page is shown among the grids. |
| Explore.RawValueDecides | src/_root/pages/Explore.tsx:16-94 | Changing the debounced text together with the search query's data and fetching flag keeps the kind of content and the sentinel unchanged, since the raw text alone picks search or feed. Outside a search the whole screen stays the same. |
| Explore.SearchSuspendsPagination | src/_root/pages/Explore.tsx:20-94 | With search text, no next page is requested, no sentinel is mounted, and the search panel replaces the feed. |
| Explore.SameDepsNoRequest | src/_root/pages/Explore.tsx:20-24 | A re-render with unchanged dependencies never requests a page. |
| Validation.Utf16Length | src/lib/validation/index.ts:9-12 | The JavaScript length lies between the number of characters and twice that number. It equals the number of characters for text in the Basic Multilingual Plane. |
| Validation.CollectIssuesSound | src/lib/validation/index.ts:8-13 | Every reported issue names a failing field with that field's message. |
| Validation.CollectIssuesComplete | src/lib/validation/index.ts:8-13 | Every failing field is reported. |
| Validation.CollectIssuesOrdered | src/lib/validation/index.ts:8-13 | Issues follow the fields' declaration order. |
| Validation.SchemaIssuesExact | src/lib/validation/index.ts:8-13 | Over the whole schema, a field has an issue iff it fails its rule. |
| Validation.SchemaIssuesShaped | src/lib/validation/index.ts:8-13 | Over the whole schema, every issue carries its field's message, and the issues follow declaration order. |
| Validation.ParseSignup | src/lib/validation/index.ts:8-13 | Input is accepted, unchanged, iff all four fields pass. A failure lists exactly the failing fields, once each, in declaration order, with their messages. |
| Validation.ShortFieldsRejected | src/lib/validation/index.ts:9-12 | For text in the Basic Multilingual Plane, some inputs are rejected: a name or username under 2 characters, or a password under 8. The issue carries "Ad en az 2 karakter olmalıdır.", "Kullanıcı adı en az 2 karakter olmalıdır." or "Parola en az 8 karakter olmalıdır." respectively. |
| Validation.IssueReported | src/lib/validation/index.ts:8-13 | A failing field makes the parse fail, and the field's issue carries the field's message. |
| Validation.AstralCharacterCountsTwice | src/lib/validation/index.ts:9 | A one-character name outside the Basic Multilingual Plane passes the 2-character minimum, because JavaScript counts UTF-16 code units. |
| Validation.LongEnoughAccepted | src/lib/validation/index.ts:8-13 | Enough characters and a valid email always pass: at least 2 for name and username, at least 8 for the password. |

## Left out

- Backend SDK calls and client configuration (`src/lib/appwrite/api.ts`, `src/lib/appwrite/config.ts`) are network plumbing. Mutation results enter the model only as an `Outcome`.
- React Query's caching, deduplication, refetching and mutation scheduling belong to the library. Only the invalidation filters and partial key matching are modelled. Key parts are strings or `undefined`, the only values the keys in this code hold.
- The hooks `useGetPosts`, `useSearchPosts` and the post-by-id query are not part of this model. Their data and flags are inputs of `Explore`.
- The 500 ms debounce is timer-based. The debounced text is an input. The search query's data and fetching flag for it are inputs as well, so the model states only how they reach the screen.
- The intersection observer behind `inView` and the internals of `fetchNextPage` are browser and library behaviour. `inView` is an input.
- PostStats.SavedPostRecord: save records are modelled with a post id that is always present. The code reads `record.post.$id` without optional chaining, so a save record whose post is `null` makes the card throw while rendering. The model does not represent that throw.
- `checkIsLiked` is not part of this model. It is modelled as a membership test.
- The schema library's email check and its default message are parameters.
- Form components, JSX layout, routing, file upload and object URLs are UI with no further decision logic. This covers `SignupForm`, `SigninForm`, `PostForm`, `Profile`, `EditPost`, `LikedPosts`, `AuthLayout`, `App`, `FileUploader` and `constants`.
- Async ordering is not modelled. The model does not cover the order of the optimistic update against the network call, or a failed like write that is never rolled back.
