# bloglist in Dafny

A model of the domain logic of the bloglist REST API: the `totalLikes`
aggregate over a list of blog entries, the blog resource handlers (list,
create with defaulting and validation, delete by id) over an in-memory store,
and the user registration handler with its two ordered guards and a password
hash supplied from outside.

Files and modules:

- `values.dfy` (`Values`): decoded JSON fields as `Option`, JavaScript
  truthiness for string fields (`undefined`/`null`/`""` are falsy) and number
  fields (`undefined`/`null`/`0` are falsy), and the HTTP status codes.
- `models.dfy` (`Models`): the persisted `Blog` and `User` records.
- `list_helper.dfy` (`ListHelper`): `dummy` and `totalLikes`. The `reduce`
  is the left fold `FoldLikes`; `SumLikes` is an independent
  right-recursive sum it is proved against.
- `blogs.dfy` (`Blogs`): the pure rules `DefaultLikes` and `Accept`, the
  removal function `Without`, and the class `BlogStore`. Its methods `List`,
  `Create` and `Delete` are the three route handlers, each joined with the
  store call it makes. The store keeps entries in insertion order with
  unique ids taken from a counter (`Valid`). `BlogListScenario` sends the
  requests of `tests/bloglist.test.js` to a single store, in this order:
  - the two seed entries;
  - a list;
  - the post with 298 likes;
  - the post without likes;
  - the posts without a title, without an author and without a url;
  - the delete of the first entry.

  The tests re-seed two entries before each test, so the scenario's counts
  differ from theirs. The scenario has 4 entries after the rejected posts and
  3 after the delete. In the tests the store holds 2 after a rejected post
  (a count they do not check) and 1 after the delete.
- `users.dfy` (`Users`): the ordered guards `Check`, the error messages and
  the class `UserStore`, whose `Register` method is the POST handler. The
  bcrypt call is the parameter `hash`, applied to the password and the cost
  factor 10. Length is JavaScript's `.length`, which counts UTF-16 code units
  (`JsLength`), so a character outside the Basic Multilingual Plane counts
  twice.

The code never checks the sign of `likes`. A truthy negative value is
stored as given, and the store has no `likes >= 0` invariant. `totalLikes`
is non-negative only when every entry's `likes` is (`TotalLikesBounds`).

## Model

| member | source | states |
|---|---|---|
| `ListHelper.Dummy` | utils/list_helper.js:1-3 | returns 1 for every list |
| `ListHelper.FoldLikes` | utils/list_helper.js:6-8 | the reduce from accumulator `acc` yields `acc` plus the sum of all `likes` |
| `ListHelper.TotalLikes` | utils/list_helper.js:5-10 | the total equals the element-wise sum of `likes`; 0 for the empty list |
| `ListHelper.SumLikesConcat` | utils/list_helper.js:6-8 | the sum of a concatenation is the sum of the parts |
| `ListHelper.TotalLikesConcat` | utils/list_helper.js:5-10 | `totalLikes(a + b) == totalLikes(a) + totalLikes(b)` |
| `ListHelper.TotalLikesBounds` | utils/list_helper.js:5-10 | with no negative `likes`, the total is >= 0 and >= every entry's `likes` |
| `ListHelper.TotalLikesPermutation` | utils/list_helper.js:5-10 | two lists with the same multiset of entries have the same total |
| `Values.FalsyString` | controllers/blogs.js:15 | `!s` on a string field holds exactly for an absent field or `""`; a truthy string has at least one character |
| `Values.FalsyNumber` | controllers/blogs.js:12 | `!n` on a number field holds exactly for an absent field or 0 |
| `Blogs.MissingRequired` | controllers/blogs.js:15 | the 400 condition fails exactly when title, author and url are all present and non-empty |
| `Blogs.DefaultLikes` | controllers/blogs.js:12-14 | the saved `likes` is 0 exactly when the given one is falsy; otherwise it is the given value |
| `Blogs.Accept` | controllers/blogs.js:10-20 | rejects exactly when title, author or url is falsy; an accepted draft carries the given non-empty title, author and url and the defaulted likes |
| `Blogs.AcceptIgnoresLikes` | controllers/blogs.js:12-16 | accept versus reject does not depend on `likes`, and changing `likes` changes only the saved `likes` |
| `Blogs.AcceptedLikes` | controllers/blogs.js:12-14 | an accepted request without likes, or with 0, is saved with 0; any other likes value is kept |
| `Blogs.Without` | controllers/blogs.js:25 | after removal no entry carries the id |
| `Blogs.WithoutKeepsOthers` | controllers/blogs.js:25 | for any list, unique ids or not, removal keeps exactly the entries with another id and is never longer than the input |
| `Blogs.WithoutKeepsUnique` | controllers/blogs.js:25 | removing an id keeps the remaining ids unique |
| `Blogs.WithoutAbsent` | controllers/blogs.js:25 | removing an id that no entry carries leaves the collection unchanged |
| `Blogs.WithoutPresent` | controllers/blogs.js:25 | with unique ids, removing entry k's id removes exactly entry k and the length drops by one |
| `Blogs.WithoutIdempotent` | controllers/blogs.js:25 | removing the same id twice is removing it once |
| `Blogs.BlogStore.List` | controllers/blogs.js:4-7 | answers 200 with exactly the stored entries in store order |
| `Blogs.BlogStore.Create` | controllers/blogs.js:9-21 | 400 with the store unchanged when `Accept` rejects; otherwise 201 and the store grows by exactly the echoed entry, which has a fresh id; the total likes grows by the saved likes; ids stay unique |
| `Blogs.BlogStore.Delete` | controllers/blogs.js:23-27 | always 204; the store becomes `Without(old, id)`: unchanged for an unknown id, and otherwise that one entry is removed |
| `Blogs.BlogListScenario` | tests/bloglist.test.js:16-142 | after seeding, list returns two entries with likes 45 and 54 and distinct ids; a posted 298 is kept; a post without likes gets 0; posts without a title, without an author and without a url each get 400 and leave 4 entries; deleting the first leaves 3 entries, none with its id |
| `Users.Message` | controllers/users.js:7-13 | the two rejections carry the two distinct error texts |
| `Users.JsLength` | controllers/users.js:7-11 | `.length` counts UTF-16 code units: between the number of characters and twice it, and equal to it when no character is outside the Basic Multilingual Plane |
| `Users.TooShort` | controllers/users.js:7-11 | the guard "falsy or `.length` below 3" holds exactly when the field is absent or under 3 code units |
| `Users.TooShortMeansUnderThree` | controllers/users.js:7-12 | in characters, a field of 0 or 1 characters always fails, 3 or more always passes, and 2 passes only if one of them is a surrogate pair |
| `Users.SurrogatePairCountsTwice` | controllers/users.js:7-13 | the username `a` followed by an emoji is 2 characters and 3 code units long, and is accepted |
| `Users.Check` | controllers/users.js:7-13 | username error exactly when the username is too short (in UTF-16 code units), whatever the password; password error exactly when the username passes and the password is too short; accepted exactly when both pass |
| `Users.UsernameCheckedFirst` | controllers/users.js:7-13 | when both fields are too short, the username error is returned |
| `Users.ThreeCharactersPass` | controllers/users.js:7-13 | a username and a password of exactly 3 characters pass both guards |
| `Users.UserStore.Register` | controllers/users.js:5-25 | on rejection: 400 with the rule's message and the store unchanged; otherwise 201 and the store grows by `{username, name, passwordHash = hash(password, 10)}`, with no plaintext field |

## Left out

- Express routing, JSON body parsing, CORS, the MongoDB connection and `listen` (`index.js`). The handlers are methods called directly.
- Configuration from the environment (`utils/config.js`) and logging (`utils/logger.js`). Both are I/O.
- Mongoose schema casting and ObjectId parsing. Ids are naturals from a counter, so a malformed id that would make `findByIdAndRemove` throw is not modelled. Fields are typed, so a non-string `username` or `password` is not modelled either. In JavaScript a non-zero number or `true` has an undefined `length` and passes the guard; `0`, `NaN` and `false` are rejected as falsy.
- `Blogs.BlogStore.Create`: the new entry always gets the store's next id. Mongoose keeps an `_id` field from the POST body, so there the client can choose the id, and a duplicate id makes `save` fail with a 500 response. `BlogPayload` has no id field, so neither case is modelled.
- `Users.JsLength`: strings here are sequences of Unicode scalar values, so a decoded JSON string holding an unpaired surrogate (such as `"\ud800ab"`, 3 code units long) cannot be expressed and is not modelled.
- `NaN` as a falsy `likes`, because the model has no floating-point numbers.
- `ListHelper.TotalLikes`: `likes` is an integer here, where JavaScript has a double. Rounding of `sum + blog.likes` once the running sum passes 2^53 is not modelled. Fractional likes are not modelled either. An entry with no `likes` is not modelled: in JavaScript it turns the total into `NaN`.
- `Blogs.DefaultLikes`: a truthy fractional `likes` such as 2.5, which the handler keeps as given, is not modelled, because `likes` is an integer here.
- Storage and hashing failures, and the 500 responses they propagate to.
- `Users.UserStore.Register`: bcrypt is the pure parameter `hash`, so "nothing is hashed on rejection" appears only as "no record and no hash value is produced". Salting and the one-way property are not modelled.
- Uniqueness of usernames, because the user schema is not part of this model.
- An update (PUT/PATCH) of likes. The test file exercises one, but `controllers/blogs.js` has no handler for it.
- `userRouter` is not mounted in `index.js`. Registration is modelled at the handler level only.
