# Post store model

A Dafny model of the client-side state container of a small blogging web
application (`example/src/store/index.js`). The store holds three pieces of
state:

- a draft form of post attributes (`title`, `body`, and anything else
  `updatePostForm` sets);
- an auth record: a status (`'not'`, `'pending'` or `'signin'`) and the person
  the identity provider returned;
- an ordered list of posts `{id, title, body, createdAt, updatedAt}`.

Getters read that state. Mutations change it in place. Actions issue a request
to the datastore and commit mutations.

The model's modules:

- `Wrappers`: optional and result values (standing in for `undefined` and a
  thrown `TypeError`).
- `Posts`: the post record and the array built-ins the mutations rely on.
  `findIndex` and `find` return the first match, or -1 / nothing. `splice`
  follows ECMAScript for a negative start. This matters because the
  `updatePost` and `deletePost` mutations pass the result of `findIndex`
  straight to `splice`. When no post has the identifier, the index is -1 and
  `splice` works on the **last** post: `deletePost` removes it and
  `updatePost` overwrites it. On an empty list, `updatePost` inserts the post
  and `deletePost` does nothing. The model keeps this behaviour.
- `Recency`: the `recentPosts` ordering. This is JavaScript's `<` on the
  `createdAt` strings and the comparator that puts later posts first, proved
  to be a strict total order and consistent. The sorted list is the stable
  insertion sort `SortNewestFirst`. It is proved newest-first, a permutation
  of the input, and stable (equal timestamps keep their order). It is also
  the only list with all three properties, so it is exactly what a
  stable `Array.prototype.sort` (required since ES2019) leaves, whatever
  algorithm the engine uses.
- `AuthProfile`: the `authUser` view and its three fallbacks: `'noname'`,
  `'no description'` and the fixed default avatar URL.
- `AppStore`: class `Store`. It has the state as fields (`postForm` is a map,
  because `state.postForm[attr] = val` accepts any attribute), the getters as
  functions, and `recentPosts` and the seven mutations as methods with
  `modifies this`. A ghost `trace` records every committed mutation and every
  remote call in order.
- `StoreActions`: the actions `loadPosts`, `createPost`, `deletePost` and
  `updatePost`. The server's answers are parameters, and the clock's ISO
  timestamp is the parameter `now`. The trace states the order of effects:
  - `createPost` sends first and then commits.
  - `deletePost` and `updatePost` commit the local change first and then
    issue the remote write without waiting for it.

## Model

| member | source | states |
|---|---|---|
| Posts.FindIndex | example/src/store/index.js:63-63 | `findIndex` by id: -1 exactly when no post has the id, otherwise the first position holding it |
| Posts.Find | example/src/store/index.js:33-35 | `find` by id: nothing exactly when no post has the id, otherwise the post at the first position holding it |
| Posts.FindAtFindIndex | example/src/store/index.js:33-35 | `find` returns the element at the index `findIndex` reports, and nothing when that index is -1 |
| Posts.FirstWithIdUnique | example/src/store/index.js:63-63 | the first position holding an id is unique |
| Posts.SpliceStart | example/src/store/index.js:64-64 | the position `splice` starts at never passes the end; a start within the array is taken as is, and -1 means the last element (0 on an empty array) |
| Posts.SpliceDeleteCount | example/src/store/index.js:64-64 | `splice` deletes the requested count when that many elements are left from the start, and never more than are left |
| Posts.Splice | example/src/store/index.js:64-64 | `splice(start, deleteCount, ...items)`: the prefix before the start is kept, the items follow, then the rest after the deleted elements; the length is the old length minus the deleted count plus the items |
| Posts.ReplaceFirst | example/src/store/index.js:62-65 | the list `updatePost` leaves always holds the new post and keeps its length, except that an empty list becomes one post long |
| Posts.RemoveFirst | example/src/store/index.js:66-69 | the list `deletePost` leaves is one shorter unless it was empty, and holds no post that was not there before |
| Posts.ReplaceFirstPresent | example/src/store/index.js:62-65 | `updatePost` with the id present: the first post with the id is replaced, length and all other entries unchanged |
| Posts.ReplaceFirstAbsent | example/src/store/index.js:62-65 | `updatePost` with the id absent: the last post is replaced; an empty list becomes `[post]` |
| Posts.RemoveFirstPresent | example/src/store/index.js:66-69 | `deletePost` with the id present: exactly the first post with the id is removed, the rest keep their order, length drops by one |
| Posts.RemoveFirstAbsent | example/src/store/index.js:66-69 | `deletePost` with the id absent: the last post is removed; an empty list stays empty |
| Posts.RemoveFirstDropsId | example/src/store/index.js:66-69 | in a list without repeated ids, deleting a present post leaves no post with its id |
| Recency.Less | example/src/store/index.js:40-41 | JavaScript's `<` on strings, character by character; a string is never `<` an equal one |
| Recency.LessPrefix | example/src/store/index.js:40-41 | a proper prefix is `<` the longer string, and no string is `<` one of its own prefixes |
| Recency.LessIrreflexive | example/src/store/index.js:40-41 | no string is `<` itself |
| Recency.LessAsymmetric | example/src/store/index.js:40-41 | `a < b` excludes `b < a` |
| Recency.LessTransitive | example/src/store/index.js:40-41 | `<` on strings is transitive |
| Recency.LessTotal | example/src/store/index.js:40-41 | two different strings are ordered one way or the other |
| Recency.LessTrichotomous | example/src/store/index.js:40-42 | exactly one of `a < b`, equal, `a > b` holds |
| Recency.Compare | example/src/store/index.js:37-43 | the comparator is 0 exactly on equal `createdAt`, positive exactly when the first post is older, negative exactly when it is newer |
| Recency.CompareAntisymmetric | example/src/store/index.js:37-43 | swapping the comparator's arguments flips its sign |
| Recency.Insert | example/src/store/index.js:37-43 | one insertion step of the sort: the list grows by exactly the inserted post (its ordering and stability are `InsertKeepsOrder` and `InsertTies`) |
| Recency.InsertKeepsOrder | example/src/store/index.js:37-43 | inserting into a newest-first list keeps it newest-first |
| Recency.InsertTies | example/src/store/index.js:37-43 | the inserted post goes after every post with the same `createdAt` |
| Recency.SortNewestFirst | example/src/store/index.js:37-43 | the array `sort` leaves, of the same length as the input; `SortNewestFirstIsTheStableSort` shows it is the unique stable newest-first arrangement |
| Recency.NewestFirstByCompare | example/src/store/index.js:37-43 | a list is newest-first exactly when the comparator never asks to move a later element before an earlier one |
| Recency.SortNewestFirstPermutes | example/src/store/index.js:36-44 | the sorted list holds the same posts as the input (multiset) |
| Recency.SortNewestFirstOrders | example/src/store/index.js:36-44 | the sorted list is newest-first |
| Recency.SortNewestFirstCorrect | example/src/store/index.js:36-44 | the sorted list is newest-first, has the same length, and has the same posts (multiset) |
| Recency.SortNewestFirstStable | example/src/store/index.js:36-44 | posts with equal `createdAt` keep their relative order |
| Recency.StableSortUnique | example/src/store/index.js:36-44 | two newest-first lists with the same ties in the same order are equal |
| Recency.SortNewestFirstIsTheStableSort | example/src/store/index.js:36-44 | any newest-first list with the input's ties is the model's sort, so the model's sort is what any stable sort produces |
| AuthProfile.Truthy | example/src/store/index.js:28-30 | the only falsy values of a string-valued field are `undefined` and the empty string |
| AuthProfile.Or | example/src/store/index.js:28-30 | `v \|\| fallback`: the value when it is a non-empty string, else the fallback |
| AuthProfile.FirstImageUrl | example/src/store/index.js:29-29 | `image && image[0] && image[0].contentUrl` is present exactly when there is an image list with a first entry that has a URL |
| AuthProfile.AuthUser | example/src/store/index.js:25-32 | a `TypeError` exactly when there is no person or no profile; otherwise each field is the profile's value when truthy, else `'noname'`, the default URL, or `'no description'` |
| AuthProfile.AuthUserNeverBlank | example/src/store/index.js:28-30 | every field of the view is non-empty |
| AuthProfile.AuthUserImage | example/src/store/index.js:29-29 | the image URL is the first image's non-empty `contentUrl`, else the default avatar |
| AppStore.Store.constructor | example/src/store/index.js:10-20 | initial state: empty title and body, status `'not'`, no person, no posts |
| AppStore.Store.IsAuthenticated | example/src/store/index.js:22-24 | true exactly when the status is `'signin'` |
| AppStore.Store.AuthUser | example/src/store/index.js:25-32 | throws exactly when no person with a profile is set; otherwise all three fields are non-empty |
| AppStore.Store.FindPost | example/src/store/index.js:33-35 | the first post with the id, or nothing exactly when none has it |
| AppStore.Store.RecentPosts | example/src/store/index.js:36-44 | sorts `posts` in place into the stable newest-first permutation and returns that same list; nothing else changes |
| AppStore.Store.SetAuthPerson | example/src/store/index.js:47-49 | only `auth.person` changes |
| AppStore.Store.SetAuthStatus | example/src/store/index.js:50-52 | only `auth.status` changes; authenticated exactly when the new status is `'signin'` |
| AppStore.Store.SetPosts | example/src/store/index.js:53-55 | `posts` becomes the given list; nothing else changes |
| AppStore.Store.UpdatePostForm | example/src/store/index.js:56-58 | only the named form attribute changes (it is added if new); every other attribute and the rest of the state stay |
| AppStore.Store.AddPost | example/src/store/index.js:59-61 | length grows by one, the post is last, and earlier entries are unchanged and in the same order |
| AppStore.Store.UpdatePost | example/src/store/index.js:62-65 | `posts` becomes `splice(findIndex(id), 1, post)`; length is kept on a non-empty list; nothing else changes |
| AppStore.Store.DeletePost | example/src/store/index.js:66-69 | `posts` becomes `splice(findIndex(id), 1)`; length drops by one on a non-empty list; nothing else changes |
| StoreActions.DraftFields | example/src/store/index.js:100-106 | the record sent copies the draft's title and body; `createdAt` and `updatedAt` are the same instant |
| StoreActions.LoadPosts | example/src/store/index.js:95-98 | fetches the listing, then replaces the local list with it |
| StoreActions.CreatePost | example/src/store/index.js:99-110 | sends the draft record, then appends the returned record, which it also returns |
| StoreActions.DeletePost | example/src/store/index.js:111-114 | commits the local removal before issuing the remote delete |
| StoreActions.UpdatePost | example/src/store/index.js:115-121 | overwrites `createdAt` (not `updatedAt`) with the new timestamp, commits the replacement, then issues the remote write |
| StoreActions.PublishDraft | example/src/store/index.js:99-110 | on a fresh store, filling in the draft and creating it leaves exactly the returned post, and `findPost` finds it |

## Left out

- The datastore client (`example/src/cosmo-client/index.js`: `Client`, `Collection`, `Doc`) is not part of this model. It is HTTP I/O over an external library. Its calls are recorded as `RemoteCall` values, and its answers are parameters.
- The actions `init`, `signIn` and `signOut`: they call the external identity provider and the browser's `window.location`.
- Asynchrony: the awaits in `loadPosts` and `createPost`, and the un-awaited remote writes of `deletePost` and `updatePost`, become one sequential step. A failed remote write changes nothing locally in the source either.
- Failed requests: `Collection.get` and `Collection.add` log the error and return `undefined`. The source would then store `undefined` as `posts` or push it as a post. The model always receives a list or a record.
- `new Date().toISOString()`: the timestamp is the opaque string parameter `now`.
- Recency.Less: it compares `char`s, which are Unicode scalar values. JavaScript compares UTF-16 code units. The two orders disagree when a character outside the Basic Multilingual Plane meets a character in U+E000 to U+FFFF. For example, JavaScript has `"\u{10000}" < "\uFFFF"` true, because the lead unit D800 is below FFFF, and `Less` says the opposite. JavaScript strings may also hold lone surrogates, which have no Dafny `char`. ISO timestamps contain neither case.
- Posts without a `createdAt`: comparing with `undefined` gives 0 in the source. The model gives every post a string `createdAt`.
- Recency.SortNewestFirst: it assumes the engine's `Array.prototype.sort` is stable. ECMAScript has required this only since ES2019. An older engine (V8 before 7.0, for one) may reorder posts with equal `createdAt`, and its result need not equal `SortNewestFirst`.
- AuthProfile.AuthUser: profile fields are strings or missing. A non-string name or description, or a `null` first image entry, is not modelled.
- StoreActions.UpdatePost: the source stamps the caller's object in place. If that object is also an entry of `posts` other than the first one with its id, that entry changes too. The model works on values and returns the stamped copy, so it does not capture that aliasing.
- AppStore.AuthStatus: `setAuthStatus` accepts any value in the source. The model restricts it to three statuses: `'not'`, the initial value, and `'signin'` and `'pending'`, the only values the code commits.
- The caching and reactivity of Vuex getters (`recentPosts` sorts on every call in the model), Vuex registration, the unused `uuid` import, and console logging.
