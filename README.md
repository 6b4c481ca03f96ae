# Paginated listings of a marketplace and a users service, in Dafny

This project models the two list operations of a small CRUD backend and the
user-account service that surrounds one of them:

- **Users service** (`src/api/components/users/users-service.js`): `getUsers`
  and `getUser`, which answer with users stripped down to `id`, `name` and
  `email`; `createUser`, which stores the hash of the password; and
  `changeUserPassword`, which answers null, `false` or `true`. The users
  repository is the state of the class `Users.UsersService`: a map from id to
  stored record (`records`) and the order in which the repository lists them
  (`order`). It also models `getFilteredUsers`, the paginated user listing, as a
  pure function of the listed users and the page parameters.
- **Marketplace listing** (`app.js`, the GET `/marketplace` handler): the
  `page` / `page_size` defaults (`parseInt(x) || default`), the search that
  feeds both `countDocuments` and `find`, the `skip((page - 1) * pageSize)` /
  `limit(pageSize)` window, the response metadata, and the public shape of
  each transaction.

Module `Paging` holds what the two listings share. `CeilDiv` is
`Math.ceil(count / pageSize)`. `Window` is a reference definition of one page.
The lemmas there tie the page flags and page emptiness to the items of the
listing. Each listing's own slicing is proved equal to `Window`: the
`Math.min`/`slice` code in the users service (`Users.FilteredUsersIsPage`) and
the cursor's `skip`/`limit` in the marketplace (`Marketplace.SkipLimitIsWindow`).
`Paging.PagesCoverListing` then shows that pages 1 to `total_pages` together
give the whole listing, each item once and in order.

The two listings deliberately disagree on `count`. In `getFilteredUsers` it is
the number of all users (`users-service.js:68`), so `Users.FilteredUsers`
ensures `r.count == |users|`. In the marketplace it is the number of
transactions on the returned page (`app.js:72`), so
`Marketplace.ListTransactions` ensures `r.count == |r.data|`.

`getFilteredUsers` returns the stored records themselves, password digest
included (`users-service.js:75` and `:82`). `getUsers` and `getUser` do strip
the password. The model keeps this as written: `UsersPage.users` is a sequence
of `User`, not of `PublicUser`.

Collaborators that are not code of this repository become parameters:

- The password hasher is a `Users.Hasher` value holding two opaque functions,
  `hash` for `hashPassword` and `compare` for `bcrypt.compare`.
  `Users.Sound(h)` says that `compare` accepts every password against its own
  digest. Stored passwords have type `Digest`, never `string`.
- A failing repository write is a boolean parameter (`insertFails`,
  `updateFails`). The id that the store assigns on insert is a parameter too.
  An id that is already taken makes the insert fail, as a duplicate key does.
- The store's `$regex` search with option `i` is an opaque
  `Marketplace.Matcher` applied to pattern and product name.
  `Marketplace.ContainsIgnoreCase` is a literal substring match that ignores
  the case of ASCII letters. It is an example of a matcher. No member states
  that it agrees with the store's regular expressions.
- The schema requires none of a transaction's fields, and the POST handler
  stores whatever the body supplies. So a stored transaction may lack its
  product name, quantity or price, and the model gives those fields
  `Option` types. A transaction without a product name never matches the
  `$regex` filter, not even the empty pattern. It is therefore neither
  counted nor listed (`Marketplace.Matches`, `Marketplace.FindAll`).

Three facts about the code shape the model. A non-numeric or zero `page` /
`page_size` falls back to 1 / 10; it is never rejected. The search term is a
regular expression, not a plain substring. `count` means the number of all
users in one listing and the number of items on the page in the other.

## Model

| member | source | states |
|---|---|---|
| `Paging.CeilDiv` | src/api/components/users/users-service.js:69 | the page count is the fewest pages of `d` items that hold `n` items: `pages * d >= n` and `(pages - 1) * d < n`; it is 0 exactly when there are no items |
| `Paging.Offset` | app.js:66 | the number of items before page `page` is `(page - 1) * pageSize`, and it is 0 exactly on page 1 |
| `Paging.Window` | src/api/components/users/users-service.js:73-75 | a page has at most `size` items; they are the items at `offset`, `offset + 1`, … of the listing, in order; there are `min(size, n - offset)` of them, or none when `offset` is past the end |
| `Paging.BelowPageCount` | app.js:61 | `k < ceil(n / d)` exactly when `k * d < n` |
| `Paging.HasNextIffItemsFollow` | app.js:75 | `page < total_pages` exactly when some item lies after the end of page `page` |
| `Paging.PageEmptyIffBeyondLast` | app.js:66-67 | the page is empty exactly when its number exceeds `total_pages`; every page from 1 to `total_pages` holds at least one item |
| `Paging.PagesArePrefix` | app.js:66-67 | pages 1 to `k` together are the first `k * pageSize` items of the listing |
| `Paging.PagesCoverListing` | src/api/components/users/users-service.js:73-75 | pages 1 to `total_pages` together are the whole listing: each item appears once, in order |
| `Users.Slice` | src/api/components/users/users-service.js:75 | `slice(begin, end)` returns the items from the clamped `begin` up to the clamped `end`, in order; when the end is at or before the start it returns none |
| `Users.FilteredUsers` | src/api/components/users/users-service.js:65-88 | `count` is the number of all users, not the page length; `total_pages` is the ceiling of `count / page_size`; `has_previous_page` iff `page_number > 1`; `has_next_page` iff `page_number < total_pages` |
| `Users.FilteredUsersIsPage` | src/api/components/users/users-service.js:73-75 | the `Math.min`/`slice` result is the reference page: the contiguous users from `(page_number - 1) * page_size` on, at most `page_size` of them, in repository order |
| `Users.FilteredUsersFlags` | src/api/components/users/users-service.js:70-71 | there is a previous page exactly when users were skipped, and a next page exactly when a user follows this page |
| `Users.FilteredUsersBeyondLast` | src/api/components/users/users-service.js:73-75 | a page past `total_pages` is empty and raises no error; every page up to `total_pages` is non-empty; from the last page on, `has_next_page` is false |
| `Users.UsersService.Listing` | src/api/components/users/users-service.js:6 | the repository lists every stored user exactly once, in repository order |
| `Users.UsersService.GetUsers` | src/api/components/users/users-service.js:5-19 | one entry per stored user, in repository order; each entry holds exactly that user's `id`, `name` and `email` and no password |
| `Users.UsersService.GetUser` | src/api/components/users/users-service.js:21-33 | null exactly when the id is unknown; otherwise that user's `id`/`name`/`email` |
| `Users.UsersService.CreateUser` | src/api/components/users/users-service.js:35-45 | the answer is null or `true`; on success the store gains one record holding `hash(password)` and looking it up gives back the given id, name and email; a failed insert answers null and changes nothing |
| `Users.UsersService.ChangeUserPassword` | src/api/components/users/users-service.js:90-111 | null for an unknown id; `false` with the store unchanged when the old password does not match; otherwise `true` with `hash(newPassword)` stored for that user only, or null with nothing changed if the update fails; after `true`, `compare(newPassword, stored)` holds for a sound hasher |
| `Marketplace.QueryInt` | app.js:54-55 | NaN (an absent or non-numeric parameter) and 0 give the default; any other parsed integer passes through unchanged; with a non-zero default the result is never 0 |
| `Marketplace.SearchTerm` | app.js:56 | the search pattern is empty exactly when the parameter is absent or empty; a present parameter is used unchanged |
| `Marketplace.ContainsIgnoreCaseAt` | app.js:59 | the literal matcher holds exactly when the pattern occurs, ignoring case, at some position of the product name |
| `Marketplace.LiteralMatcher` | app.js:59 | under the ASCII literal matcher an empty search pattern matches every product name |
| `Marketplace.ColaMatchesCocaCola` | app.js:59 | searching `cola` matches `Coca-Cola` |
| `Marketplace.Find` | app.js:63-65 | the find returns exactly the stored transactions that have a product name and whose name matches, and no more transactions than the store holds |
| `Marketplace.CountDocuments` | app.js:58-60 | the count never exceeds the number of stored transactions, and it is 0 exactly when no stored transaction matches |
| `Marketplace.FindKeepsOrder` | app.js:63-65 | the find keeps store order: the matches of two stretches of the store, one after the other, are the matches of the first followed by the matches of the second |
| `Marketplace.CountIsFindLength` | app.js:58-65 | `countDocuments` and `find` use one filter: the count is the number of transactions the find returns |
| `Marketplace.FindAll` | app.js:56-59 | when the empty pattern matches every name, an empty search finds exactly the transactions that have a product name, in store order |
| `Marketplace.NamedAll` | app.js:56-59 | when every stored transaction has a product name, the empty search leaves none out |
| `Marketplace.Skip` | app.js:66 | `skip(n)` drops the first `n` transactions and keeps the rest in order |
| `Marketplace.Limit` | app.js:67 | `limit(n)` keeps the first `min(n, length)` transactions in order; a limit of 0 keeps them all |
| `Marketplace.SkipLimitIsWindow` | app.js:63-67 | `skip((page - 1) * pageSize).limit(pageSize)` is the reference page |
| `Marketplace.ViewAll` | app.js:76-83 | one response item per fetched transaction, in order; each carries exactly that transaction's `id`, `productName`, `quantity`, `price`, `description` and `transactionDate` |
| `Marketplace.ListTransactions` | app.js:51-84 | `page_number` and `page_size` echo the effective values; `count` equals the length of `data` and is at most `page_size`; `total_pages` is the ceiling of the match count over `page_size`; `has_previous_page` iff `page > 1`; `has_next_page` iff `page < total_pages` |
| `Marketplace.ListedData` | app.js:63-83 | `data` is the public shape of the page of matching transactions that starts after `(page - 1) * pageSize` of them, in store order |
| `Marketplace.ListedItemsAreCounted` | app.js:58-65 | every listed item is the public shape of a stored transaction that the search matches, that is, of one that was counted |
| `Marketplace.ListedFlags` | app.js:74-75 | `has_previous_page` holds exactly when matches were skipped; `has_next_page` holds exactly when a match follows this page |
| `Marketplace.ListedBeyondLast` | app.js:66-72 | `count` is 0 exactly when `page` is past `total_pages`: there is no error, and every earlier page is non-empty |
| `Marketplace.EmptySearchListsAll` | app.js:56-67 | without a search term, every stored transaction that has a product name is counted and the pages run over exactly those transactions; one without a product name is neither counted nor listed |
| `Marketplace.TwentyFiveFirstPage` | app.js:54-75 | 25 named transactions in pages of 10 give 3 pages, and page 1 holds 10 with a next page and no previous one |
| `Marketplace.TwentyFiveLastPage` | app.js:54-75 | with the same store, page 3 holds 5 transactions and has no next page |
| `Marketplace.TwentyFiveBeyondLastPage` | app.js:54-75 | with the same store, page 4 is empty and has no next page |

## Left out

- Express routing, HTTP status codes, the JSON response writing, `app.listen` and the database connection (`app.js:1-29`, `app.js:86-89`, `app.js:121-125`): framework and I/O glue.
- The POST, PUT and DELETE transaction handlers (`app.js:33-48`, `app.js:93-119`), and `updateUser`, `deleteUser`, `isEmailTaken` and `emailIsRegistered` (`users-service.js:47-63`, `117-125`): each is one call to the store that returns whatever the store returns.
- `users-repository.js` and `utils/password.js` are not part of this model. The repository is the state of `UsersService`, and new users are listed after existing ones. The hasher is opaque.
- `Users.Hasher`: `hash` is a deterministic function. bcrypt's random salt, and its cost, are not modelled. Neither is the fact that `users-service.js:98` hashes the new password before the match is checked: with a pure hash this ordering is invisible.
- `Users.UsersService.ChangeUserPassword`: `bcrypt.compare` and `hashPassword` are called outside any `try` (`users-service.js:97-98`). A failure of either rejects the promise, even when the old password is wrong, because the new password is hashed before the match is checked. The model has no hasher failures, so it does not capture this error path.
- `Users.UsersService.CreateUser`: a failure of `hashPassword` itself rejects the promise in the source (it is outside the `try`); the model has no such path.
- Failures of the repository reads in `getUsers`, `getUser`, `getFilteredUsers` and `changeUserPassword` are not modelled. In the source they propagate to the caller as rejected promises. The model's reads always succeed.
- `Marketplace.Matcher`: `$regex` semantics with option `i` are opaque. `ContainsIgnoreCase` folds the case of ASCII letters only.
- `Marketplace.ListTransactions`: a `search` that is not a valid regular expression (`c++`, `(`) makes `countDocuments` reject, and the handler answers with status 500 (`app.js:58-60`, `app.js:87-88`). `Matcher` is a total function and cannot express this error path.
- `parseInt` itself is not modelled. `Marketplace.QueryInt` takes the integer it produced, or `None` for NaN.
- `Marketplace.ListTransactions`: requires an effective page and page size of at least 1. A negative parsed value passes through `|| default` in the source, and the store then rejects the negative skip or treats a negative limit specially. That behaviour is left out.
- `Users.FilteredUsers`: requires `page_number >= 1` and `page_size >= 1`. The JavaScript default arguments (1 and 10 when an argument is omitted) are not a separate path. A `page_size` of 0 divides by zero in the source.
- The count and the fetch of one request read the same store snapshot. Concurrent writes between the two, and the race between checking that an email is free and inserting the user, are concurrency concerns that are not modelled.
- Numbers: `quantity` is an optional integer, `price` an optional real, and dates are integer timestamps. JavaScript floating point is not modelled; `Math.ceil` of an integer ratio is exact for the counts here. Document ids are strings, and the `Date.now` default for `transactionDate` belongs to the POST handler.
