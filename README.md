# VibrantBlog store and page rules in Dafny

This project models the core of the VibrantBlog content-management application:

- **`MemStorage`**, the in-memory blog store (`server/storage.ts`). It holds two insertion-ordered maps keyed by integer id, `users` and `blogPosts`, and two id counters. On top of them it does:
  - id allocation;
  - post creation stamped with the current time;
  - a partial update that pins the id and refreshes `updatedAt`;
  - delete that reports whether anything was removed;
  - lookup by id and by exact username;
  - a listing sorted newest first;
  - seeding with six posts when it is constructed.
- **The record shapes** of `shared/schema.ts`: users, posts, the insert shapes, the nullable columns and the declared column defaults.
- **The home page's pagination** (`client/src/pages/Home.tsx`): the featured post, the grid of the remaining posts, and the "Load more posts" counter.
- **The sign-in page's form rules** (`client/src/pages/auth-page.tsx`): the login and register validation and the register payload.

Layout:

- `wrappers.dfy` — `Option`.
- `ordered_maps.dfy` — a JavaScript `Map` with integer keys. It is a dictionary plus the order in which keys were first inserted. `set` on a present key keeps its place, `delete` removes the key, and `values()` follows the order.
- `schema.dfy` — the records, the insert shapes, the declared defaults, and the `{ ...ins, ...patch }` merge.
- `seed.dfy` — the six seed posts.
- `storage.dfy` — the store:
  - a value `Store` and one pure step function per write operation (the specification);
  - lemmas about single steps and about whole histories of calls;
  - the class `MemStorage`, whose methods change its four fields in place. Each method is proved to leave exactly the state the matching step function gives.
- `home.dfy` — the page rendering rule `Render`, `LoadMore`, and the page state class `HomeState`.
- `auth.dfy` — the zod schemas as issue lists, acceptance, and the register payload.

The clock is a parameter. `createPost` and `updatePost` receive `now`, the constructor receives the six clock readings it takes, and a timestamp is a natural number of milliseconds. The store's `async` methods complete without waiting, so they are plain methods here.

Three behaviours of the code worth noting:

- `createPost` does **not** fill in the declared defaults for `readTime` and `imageUrl`; it copies its input verbatim. The defaults are modelled separately, as `Schema.WithDeclaredDefaults`.
- `getUserByUsername` returns the first matching user in insertion order.
- `createUser` does not check username uniqueness. `Storage.CreateUserUniqueness` states exactly when the declared uniqueness survives a call.

## Model

| member | source | states |
|---|---|---|
| OrderedMaps.Get | server/storage.ts:94 | `Map.get` finds a value exactly when the key is present, and returns the stored value |
| OrderedMaps.Set | server/storage.ts:106 | `Map.set` stores the value under the key; a new key goes to the end of the iteration order, an existing key keeps its place; well-formedness is kept |
| OrderedMaps.Delete | server/storage.ts:154 | `Map.delete` reports true exactly when the key was present, removes only that key, keeps the others in their order, and keeps a well-formed, ascending map so |
| OrderedMaps.Values | server/storage.ts:98 | `Array.from(map.values())` lists one value per key, in iteration order |
| OrderedMaps.OrderCoversEntries | server/storage.ts:112 | a well-formed map yields exactly as many values as it has keys |
| Schema.UserInsertShape | shared/schema.ts:11-14 | the user insert shape is exactly `{username, password}`; adding the id back gives the stored user |
| Schema.WithUserId | server/storage.ts:105 | `{ ...insertUser, id }` carries the given id and the input's username and password |
| Schema.InsertShape | shared/schema.ts:33-37 | the post insert shape is the post without `id`, `createdAt` and `updatedAt`; adding them back gives the post |
| Schema.WithServerFields | server/storage.ts:127-132 | `{ ...post, id, createdAt, updatedAt }` copies every input field and sets the three server fields |
| Schema.InsertShapeRoundTrip | shared/schema.ts:33-37 | projecting the server-set fields away from a built record gives back the insert input, for posts and for users |
| Schema.AllColumns | shared/schema.ts:33-37 | an insert that sends every column of the insert shape, a missing value as `null` |
| Schema.WithDeclaredDefaults | shared/schema.ts:27-30 | the declared defaults `"3 min read"` and the placeholder image URL fill `readTime` and `imageUrl` only when the column is left out; a column sent as `null` stays null; no other field is touched |
| Schema.DefaultsOnlyFillOmitted | shared/schema.ts:27-30 | an insert that sends every column, even as `null`, is stored as sent, so storing a stored row again changes nothing |
| Schema.Patched | server/storage.ts:142-144 | in `{ ...post, ...updates }` every field the patch names overrides, every other field is kept, and an empty patch changes nothing |
| Schema.PatchedComposes | server/storage.ts:142-144 | two patches in a row act as one patch in which the later one wins; repeating a patch acts once |
| Storage.FirstWithUsername | server/storage.ts:97-101 | `find` returns nothing exactly when no user has the name; otherwise it returns the user at the first index that has it |
| Storage.UsernameAbsent | server/storage.ts:97-101 | the lookup finds nothing exactly when no stored user has the name |
| Storage.CreateUserStep | server/storage.ts:103-108 | the new user gets the current user counter as id and the input verbatim; it is stored under that fresh id at the end of the order; the counter advances by one; other users and all posts are unchanged; the invariant is kept |
| Storage.CreateUserUniqueness | server/storage.ts:103-108 | after `createUser`, usernames are unique exactly when they were unique before and no stored user already had the new username; the store itself never checks this |
| Storage.CreatePostStep | server/storage.ts:123-136 | the new post gets the current post counter as id, copies every input field, is created and updated at the same `now`, and `getPostById(id)` then returns it; the counter advances; other posts are unchanged; the invariant and the monotone-clock property are kept |
| Storage.MergeUpdate | server/storage.ts:142-147 | the merged record is the patched insert shape with the requested id, the original `createdAt` and `updatedAt = now` |
| Storage.MergeNoChanges | server/storage.ts:142-147 | an update that names no field only refreshes `updatedAt` |
| Storage.MergeComposes | server/storage.ts:142-147 | two updates in a row equal one update with the combined patch, stamped at the later time |
| Storage.UpdatePostStep | server/storage.ts:138-151 | on an absent id nothing changes and nothing is returned; on a present id the merged record replaces the old one in its place and is returned; other ids, users and counters are unchanged; the invariant and the monotone-clock property are kept |
| Storage.DeletePostStep | server/storage.ts:153-155 | the result is true exactly when the id was present; afterwards the id is absent and every other entry, the users and the counters are unchanged |
| Storage.DeleteTwice | server/storage.ts:153-155 | a second delete of the same id returns false and changes nothing |
| Storage.RunKeepsInvariant | server/storage.ts:6-17 | any history of `createUser`, `createPost`, `updatePost` and `deletePost` calls keeps the invariant and never moves a counter backwards |
| Storage.PostIdsNeverReissued | server/storage.ts:124 | a post id once handed out is never handed out again, whatever calls follow, deletes included |
| Storage.UserIdsNeverReissued | server/storage.ts:104 | a user id once handed out is never handed out again |
| Storage.CreatedKey | server/storage.ts:113-114 | the sort key is `createdAt`, or 0 when it is missing |
| Storage.ListedBefore | server/storage.ts:115 | the comparator puts a newer post first and never an older one; among equal creation times the smaller id, which is the earlier inserted, comes first |
| Storage.ListingLength | server/storage.ts:111-117 | the listing holds exactly as many posts as the store |
| Storage.HeadListedFirst | server/storage.ts:112-116 | the head of a newest-first list is listed before every other post in it |
| Storage.NewestFirstUnique | server/storage.ts:112-116 | the listing is fully determined: two newest-first orderings of the same posts are equal |
| Storage.InsertNewestFirst | server/storage.ts:112-116 | inserting a post with a larger id than all others, at the place a stable sort puts it, keeps the list newest first and adds exactly that post |
| Storage.SeedPosts | server/storage.ts:31-90 | the constructor creates six seed posts |
| Storage.SeededShape | server/storage.ts:25-91 | after the constructor's k creations the invariant holds, the posts are listed under ids 1..k in order, the next post id is k + 1, there are no users and the next user id is 1 |
| Storage.SeededPosts | server/storage.ts:25-91 | after k creations seed post i is stored verbatim under id i + 1, stamped with its own clock reading, and no other id is used |
| Storage.MemStorage.constructor | server/storage.ts:25-91 | the constructed store is the fresh store after the six seed creations: exactly six posts under ids 1..6, next post id 7, no users, next user id 1 |
| Storage.MemStorage.GetUser | server/storage.ts:93-95 | returns the user under the id, or nothing when there is none |
| Storage.MemStorage.GetUserByUsername | server/storage.ts:97-101 | returns the first user in insertion order whose username is exactly equal, or nothing |
| Storage.MemStorage.CreateUser | server/storage.ts:103-108 | leaves exactly the state and result of `CreateUserStep` and keeps the invariant |
| Storage.MemStorage.GetAllPosts | server/storage.ts:111-117 | returns a permutation of all stored posts, as many as are stored, sorted by `createdAt` descending with a missing `createdAt` as 0, and ties in insertion order |
| Storage.MemStorage.GetPostById | server/storage.ts:119-121 | returns the post under the id, or nothing when it was never created or was deleted |
| Storage.MemStorage.CreatePost | server/storage.ts:123-136 | leaves exactly the state and result of `CreatePostStep` and keeps the invariant |
| Storage.MemStorage.UpdatePost | server/storage.ts:138-151 | leaves exactly the state and result of `UpdatePostStep` and keeps the invariant |
| Storage.MemStorage.DeletePost | server/storage.ts:153-155 | leaves exactly the state and result of `DeletePostStep` and keeps the invariant |
| HomePage.Render | client/src/pages/Home.tsx:52-114 | no data or an empty list gives the empty state; otherwise the first post is featured, the grid is the first `min(postsToShow, n - 1)` of the remaining posts in listing order, and "Load more" is shown exactly when `postsToShow` is below the number of remaining posts |
| HomePage.LoadMore | client/src/pages/Home.tsx:74-76 | the new count is the smaller of `postsToShow + 3` and the number of remaining posts; it never exceeds that number, and it grows whenever the button is shown |
| HomePage.FeaturedNotInGrid | client/src/pages/Home.tsx:70-72 | with distinct ids the featured post never appears in the grid |
| HomePage.FeaturedIsNewest | client/src/pages/Home.tsx:70-72 | on the store's listing the featured post is listed before every grid post, so it is the newest |
| HomePage.ClicksRevealAll | client/src/pages/Home.tsx:74-114 | pressing "Load more" never shrinks the grid, never goes past the remaining posts, and one press per three hidden posts shows them all and removes the button |
| HomePage.HomeState.constructor | client/src/pages/Home.tsx:13 | `postsToShow` starts at 6 |
| HomePage.HomeState.LoadMorePosts | client/src/pages/Home.tsx:74-76 | `postsToShow` becomes `LoadMore` of its old value |
| AuthPage.LoginIssues | client/src/pages/auth-page.tsx:22-25 | a username shorter than 3 is flagged on `username` and a password shorter than 6 on `password`, each with its message, username first, and nothing else |
| AuthPage.RegisterIssues | client/src/pages/auth-page.tsx:28-34 | a password shorter than 6 is flagged on `password`; a confirmation that differs is flagged on `confirmPassword`, after it and even when the password is short; the username is never flagged |
| AuthPage.LoginAccepted | client/src/pages/auth-page.tsx:22-25 | the login schema reports no issue exactly for a username of at least 3 and a password of at least 6 characters |
| AuthPage.RegisterAccepted | client/src/pages/auth-page.tsx:28-34 | the register schema reports no issue exactly for a password of at least 6 characters whose confirmation equals it, whatever the username |
| AuthPage.RegisterPayload | client/src/pages/auth-page.tsx:89-91 | the payload of an accepted form carries the confirmed password |
| AuthPage.Confirmed | client/src/pages/auth-page.tsx:89-91 | the form that a payload and a confirmation came from carries that confirmation |
| AuthPage.PayloadRoundTrip | client/src/pages/auth-page.tsx:89-91 | the payload is the form minus `confirmPassword`: adding the confirmation back gives the form, and a payload confirmed with its own password is accepted exactly when the password is long enough |
| AuthPage.RegisteredCredentialsAtLogin | client/src/pages/auth-page.tsx:22-34 | credentials accepted by register pass login exactly when the username has at least 3 characters |
| AuthPage.ShortUsernameRegistersButCannotLogIn | client/src/pages/auth-page.tsx:22-34 | the two-character username "ab" with password "secret" registers but is refused at login |
| AuthPage.RegisteredUserFound | client/src/pages/auth-page.tsx:89-91 | registering a username nobody has stores the payload, and looking the username up afterwards finds exactly that user |

## Left out

- The `async`/`Promise` wrapping of every store method. Every operation completes at once, so the methods are synchronous.
- Aliasing of stored records. `getUser`, `getPostById`, `createUser`, `createPost`, `updatePost` and every element of `getAllPosts` hand out the stored object itself (server/storage.ts:94,98,107,112,120,135,150), so a caller that mutates a returned record changes the store; and a new post's `createdAt` and `updatedAt` are one shared `Date` object (server/storage.ts:125,130-131). Records here are immutable values, so none of this sharing is captured.
- The module-level `storage` singleton (server/storage.ts:158).
- `new Date()` is not modelled. The clock readings are parameters; `createdAt <= updatedAt` holds when the readings do not go backwards, which `StampedBy` states.
- JavaScript numbers are unbounded integers here. Overflow past 2^53 of the counters or of millisecond timestamps is not modelled.
- String lengths count `char`s. zod's `min` counts UTF-16 code units, so the two differ for characters outside the Basic Multilingual Plane.
- `Option.None` in a `Post` or `InsertPost` stands for both an absent field and `null`. `PostPatch` and `InsertColumns` separate "not sent" from "sent as `null`" for the nullable fields. A patch field present with the value `undefined` is not modelled: it would override the stored field with `undefined`.
- `Storage.SeedPosts`: each seed post's markdown `content` is cut to its first line (the heading), and each `summary` is cut to its first sentence. The other fields are verbatim. The full texts carry no behaviour and made every proof that mentions them too expensive.
- `Storage.MemStorage.GetAllPosts`: `Array.prototype.sort`, a stable sort, is modelled by a stable insertion sort. The result is proved to be the one stable newest-first order (`NewestFirstUnique`), not the same sequence of comparisons.
- The relational backend, the column default `defaultNow()` for the timestamps, and the `unique()` constraint as enforced by a database; only the in-memory store is modelled.
- All rendering: the loading and error states of the home page, the JSX, the toasts, the tab state of the sign-in page, and the network mutations behind login and register.
- The zod and drizzle-zod libraries themselves; only the shapes and rules they produce here are modelled.
