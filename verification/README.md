# Favourites store of the Food-Recipe backend, in Dafny

This project models the live request handling of the recipe backend's
Express server (`back/src/app.ts`). The server has one process-global,
in-memory array of favourites, `{recipeId, name}` records. It serves four
routes:

- `GET /api/recipes/search?q=` answers with a placeholder message quoting the term.
- `POST /api/recipes/favourite` appends a favourite.
- `GET /api/recipes/favourite` lists the array.
- `DELETE /api/recipes/favourite` removes the first entry with the given id.

The model is one pure function, `Router.Step(request, store) -> (response, store')`.
`Session.Run` applies a sequence of requests one at a time.

Modules:

- `Wrappers` (`wrappers.dfy`): `Option`, used for request fields that may be absent.
- `Favourites` (`favourites.dfy`): the store as `seq<Favourite>`, plus the three
  array operations the handlers use: `push`, `findIndex` and `splice(i, 1)`.
  `Count` and `HasId` are independent reference definitions for the contracts.
- `Router` (`router.dfy`): requests, response bodies (`{error}`, `{message}`,
  `{favourites}`), one handler per route, and `Step`.
- `Session` (`session.dfy`): `Run` over request sequences, and the properties
  that relate several steps.

JavaScript truthiness of a request field is modelled as `Truthy`. A field is
truthy when it is present (`Some`) and not the empty string.

Where the design description and the code disagree, the model follows the code:

- The design asks `add` to reject a duplicate id with 409 Conflict. The code
  appends with no check, so a second add of the same id stores a second entry
  (`Session.AddTwiceKeepsBoth`).
- The design asks `DELETE` to reject a missing `recipeId` with 400. The code
  has no such guard. An absent id matches no stored string id, so it is
  answered 404 (`Router.HandleRemove`, `Session.RemoveWithoutIdIsNotFound`).
- The design makes `name` optional in an add (`{ recipeId, name? }`, 400 only
  when `recipeId` is missing). The code answers 400 when either field is
  missing, so an add carrying only `recipeId` is rejected
  (`Router.HandleAdd`, `Session.AddWithoutNameIsRejected`).
- The design lists a summary route, and a lookup of favourites through the
  external provider. Those exist only in the commented-out variant of the
  file, so they are not modelled.

## Model

| member | source | states |
|---|---|---|
| Favourites.Push | back/src/app.ts:141 | Appending grows the store by one. Earlier entries stay as they were and the new record is last. The added id's count rises by one even if the id was already present, because there is no dedup. Every other id keeps its count. |
| Favourites.FindIndex | back/src/app.ts:159 | Returns -1 exactly when no entry has the id. Otherwise it returns the position of the first entry with that id. |
| Favourites.DeleteAt | back/src/app.ts:163 | `splice(i, 1)` removes exactly the entry at `i`. Entries before `i` keep their positions and later ones shift down by one. The multiset of entries loses exactly that one entry. |
| Favourites.CountDeleteAt | back/src/app.ts:163 | Deleting an entry lowers the count of its id by one. No other id's count changes. |
| Router.SearchMessage | back/src/app.ts:129 | The search reply is `Search results for "<term>"`. It has the fixed prefix, contains the term verbatim, and ends with a quote. |
| Router.HandleSearch | back/src/app.ts:125-129 | Status is 400 with "Search term is required" exactly when `q` is absent or empty. Otherwise it is 200 with a message containing the term. The store is never changed. |
| Router.HandleAdd | back/src/app.ts:137-142 | Status is 201 exactly when both `recipeId` and `name` are truthy. Otherwise the reply is 400 "recipeId and name are required" and the store is unchanged. On 201 the store is the old store plus `{recipeId, name}` at the end. |
| Router.HandleList | back/src/app.ts:150 | Status is 200, the body holds exactly the current store, and the store is unchanged. |
| Router.HandleRemove | back/src/app.ts:158-164 | Status is 404 "Recipe not found" exactly when the id is absent or matches no entry, and then the store is unchanged. Otherwise the status is 200, only the first matching entry is deleted, the length drops by one, and that id's count drops by one. |
| Router.Step | back/src/app.ts:122-166 | Each request is dispatched to its route. Statuses are always one of 200, 201, 400 or 404. Errors never change the store, and search and list are read-only. The store size moves by exactly what the response reports. A store with non-empty fields keeps them. |
| Session.Run | back/src/app.ts:119-166 | Requests are handled in order against the one shared store, with one response each. The final size equals the initial size plus the net change the responses report. Well-formedness is kept. |
| Session.RunConcatStore | back/src/app.ts:119 | Handling `a` and then `b` ends in the same store as handling `a + b`. |
| Session.RunConcatResponses | back/src/app.ts:119 | Handling `a` and then `b` gives the same responses, in order, as handling `a + b`. |
| Session.ReadOnlyRun | back/src/app.ts:122-152 | Any sequence of search and list requests leaves the store unchanged. |
| Session.AddAllAppends | back/src/app.ts:141 | Adding N favourites with non-empty fields, one request each, leaves the old store followed by exactly those N records, in request order. |
| Session.AddAllCreated | back/src/app.ts:138-142 | Each of those N add requests is answered 201. |
| Session.AddTwiceKeepsBoth | back/src/app.ts:138-141 | Two successful adds of the same id both succeed, and both records stay in the store. That id's count grows by two. |
| Session.AddRemoveRoundTrip | back/src/app.ts:141-163 | If the id was absent, a successful add of it followed by a remove of it answers 201 then 200, and gives back exactly the original store. |
| Session.RemoveWithoutIdIsNotFound | back/src/app.ts:158-161 | On a store built through the routes, a remove with an absent or empty id is answered 404 and changes nothing. |
| Session.AddWithoutNameIsRejected | back/src/app.ts:137-140 | An add that carries no `name` is answered 400 "recipeId and name are required" and leaves the store unchanged, whatever its `recipeId`. |
| Session.RemoveOnlyCopyLeavesNone | back/src/app.ts:159-164 | Removing an id that occurs exactly once is answered 200, and afterwards no entry carries that id. |
| Session.AddListRemoveScenario | back/src/app.ts:134-166 | Starting from the empty store: add {"42", "Pasta"} gives 201, and list returns exactly that record. Remove gives 200, a second remove gives 404, and the store ends empty. |

## Left out

- Express setup, CORS, JSON body parsing, `app.listen` and the `PORT` environment variable (back/src/app.ts:105-110, 175-178): transport and process plumbing. A request is modelled as its already-decoded fields.
- The `asyncHandler` wrapper and the global error middleware (back/src/app.ts:113-116, 169-172): no live handler throws on a decoded request, so the middleware's `500 {error: err.message}` is reachable only when decoding the request fails (malformed JSON, a body over the size limit, an unsupported charset, all passed to `next` by `express.json()`). Decoding is outside this decoded-request model, so that 500 is not modelled.
- Absent request body: a POST or DELETE without a body is read as all fields `None` (400 for add, 404 for remove). This assumes Express 4, whose body parser sets `req.body = {}`; under Express 5 `req.body` stays `undefined`, destructuring it at back/src/app.ts:137 and :158 throws, and the client gets 500.
- Console logging: no effect on responses or store.
- The commented-out Prisma/recipe-API variant (back/src/app.ts:1-102): dead code that depends on a database client and a `recipe-api` module that are not part of this model. Its summary route, its paging and its lookup of favourites by id are calls to those.
- Search results: the live route returns only a placeholder message, so there is no result content to model.
- Non-string JSON field values (numbers, objects, arrays, `req.query.q` given as an array): request fields are modelled as optional strings. A truthy non-string `recipeId` or `name` would be stored as-is by the code.
- Concurrency: Node handles each request to completion on one event loop and the handlers do not await anything, so requests are modelled as a sequence applied one at a time.
- String encoding: strings are sequences of Unicode scalar values, while the code compares UTF-16 strings with `===`. Equality and emptiness agree on every string the model can represent; only ids containing a lone surrogate (JSON `"\ud800"`) fall outside the model.
- Numeric limits: JavaScript array length and index limits are not modelled, because `int` is unbounded.
