/**
 The four live HTTP routes of the recipe backend, as one pure step function
 from a request and the current favourites store to a response and the next
 store. Transport (Express, CORS, JSON parsing) is abstracted away: a request
 is already the decoded query or body field it reads.
 */
module Router {
  import opened Wrappers
  import opened Favourites

  /**
   A decoded request. Each optional field is the JSON value the handler reads,
   `None` when the field is absent.
   */
  datatype Request =
    | Search(q: Option<string>)                                     // GET /api/recipes/search?q=
    | AddFavourite(recipeId: Option<string>, name: Option<string>)  // POST /api/recipes/favourite
    | ListFavourites                                                // GET /api/recipes/favourite
    | RemoveFavourite(recipeId: Option<string>)                     // DELETE /api/recipes/favourite

  /** The JSON body of a response: `{error}`, `{message}` or `{favourites}`. */
  datatype Body =
    | ErrorBody(error: string)
    | MessageBody(message: string)
    | FavouritesBody(favourites: seq<Favourite>)

  datatype Response = Response(status: nat, body: Body)

  /** The outcome of handling one request. */
  datatype Transition = Transition(response: Response, store: Store)

  const SearchTermRequired := "Search term is required"
  const FieldsRequired := "recipeId and name are required"
  const RecipeAdded := "Recipe added to favourites"
  const RecipeNotFound := "Recipe not found"
  const RecipeRemoved := "Recipe removed from favourites"
  const SearchPrefix := "Search results for \""

  /** JavaScript truthiness of a string field: present and not the empty string. */
  predicate Truthy(field: Option<string>) {
    field.Some? && field.value != ""
  }

  /** `term` occurs in `text` starting at position `k`. */
  predicate OccursAt(text: string, term: string, k: int) {
    0 <= k <= |text| - |term| && text[k..k + |term|] == term
  }

  /** `term` occurs as a contiguous piece of `text`. */
  ghost predicate Contains(text: string, term: string) {
    exists k :: OccursAt(text, term, k)
  }

  /**
   The placeholder search answer `Search results for "<term>"`: it begins
   with the fixed prefix, quotes the term verbatim and ends with a quote.
   */
  function SearchMessage(term: string): (m: string)
    ensures |m| == |SearchPrefix| + |term| + 1
    ensures m[..|SearchPrefix|] == SearchPrefix
    ensures m[|SearchPrefix|..|SearchPrefix| + |term|] == term
    ensures m[|m| - 1] == '"'
    ensures Contains(m, term)
  {
    var m := SearchPrefix + term + "\"";
    assert OccursAt(m, term, |SearchPrefix|);
    m
  }

  /**
   GET /api/recipes/search. A missing or empty `q` is rejected with 400;
   otherwise the answer is 200 with a message quoting the term. The store is
   never touched.
   */
  function HandleSearch(q: Option<string>, s: Store): (t: Transition)
    ensures t.store == s
    ensures t.response.status == 400 <==> !Truthy(q)
    ensures !Truthy(q) ==> t.response.body == ErrorBody(SearchTermRequired)
    ensures Truthy(q) ==>
      && t.response.status == 200
      && t.response.body.MessageBody?
      && Contains(t.response.body.message, q.value)
  {
    if !Truthy(q) then Transition(Response(400, ErrorBody(SearchTermRequired)), s)
    else Transition(Response(200, MessageBody(SearchMessage(q.value))), s)
  }

  /**
   POST /api/recipes/favourite. Both `recipeId` and `name` must be truthy,
   else 400 and no change. On success the record is appended at the end with
   no duplicate check: the earlier entries are untouched and the count of the
   added id grows by exactly one.
   */
  function HandleAdd(recipeId: Option<string>, name: Option<string>, s: Store): (t: Transition)
    ensures t.response.status == 201 <==> Truthy(recipeId) && Truthy(name)
    ensures t.response.status != 201 ==> t == Transition(Response(400, ErrorBody(FieldsRequired)), s)
    ensures t.response.status == 201 ==>
      && t.response.body == MessageBody(RecipeAdded)
      && |t.store| == |s| + 1
      && t.store[..|s|] == s
      && t.store[|s|] == Favourite(recipeId.value, name.value)
      && Count(t.store, recipeId.value) == Count(s, recipeId.value) + 1
  {
    if !Truthy(recipeId) || !Truthy(name) then
      Transition(Response(400, ErrorBody(FieldsRequired)), s)
    else
      Transition(Response(201, MessageBody(RecipeAdded)), Push(s, Favourite(recipeId.value, name.value)))
  }

  /** GET /api/recipes/favourite: the current store, unchanged. */
  function HandleList(s: Store): (t: Transition)
    ensures t.store == s
    ensures t.response.status == 200
    ensures t.response.body.FavouritesBody? && t.response.body.favourites == s
  {
    Transition(Response(200, FavouritesBody(s)), s)
  }

  /** The store `r` is `s` with its first entry of recipe id `id` deleted. */
  ghost predicate RemovedFirst(s: Store, r: Store, id: string) {
    exists i :: FirstMatch(s, id, i) && r == DeleteAt(s, i)
  }

  /**
   DELETE /api/recipes/favourite. There is no 400 guard: an absent id can
   match no stored (string) id, so it ends in 404 like any unknown id, and
   the store is unchanged. Otherwise only the first matching entry is
   removed, every other entry keeps its relative order, and the answer is 200.
   */
  function HandleRemove(recipeId: Option<string>, s: Store): (t: Transition)
    ensures t.response.status == 404 <==> recipeId.None? || !HasId(s, recipeId.value)
    ensures t.response.status == 404 ==> t == Transition(Response(404, ErrorBody(RecipeNotFound)), s)
    ensures t.response.status != 404 ==>
      && t.response == Response(200, MessageBody(RecipeRemoved))
      && RemovedFirst(s, t.store, recipeId.value)
      && |t.store| == |s| - 1
      && Count(t.store, recipeId.value) == Count(s, recipeId.value) - 1
  {
    var index := match recipeId
      case None => -1
      case Some(id) => FindIndex(s, id);
    if index == -1 then
      Transition(Response(404, ErrorBody(RecipeNotFound)), s)
    else
      CountDeleteAt(s, index, recipeId.value);
      Transition(Response(200, MessageBody(RecipeRemoved)), DeleteAt(s, index))
  }

  /**
   How the response accounts for the size of the store: +1 for a created
   favourite, -1 for a removal confirmation, 0 for anything else.
   */
  function Delta(r: Response): int {
    if r.status == 201 then 1
    else if r.body == MessageBody(RecipeRemoved) then -1
    else 0
  }

  /** Every stored favourite has a non-empty id and name, as the add guard ensures. */
  predicate WellFormed(s: Store) {
    forall j :: 0 <= j < |s| ==> s[j].recipeId != "" && s[j].name != ""
  }

  /**
   One request against the store. Errors (400, 404) never change the store,
   search and list are read-only, the size of the store moves exactly as the
   response reports, and well-formedness is preserved.
   */
  function Step(req: Request, s: Store): (t: Transition)
    ensures t.response.status in {200, 201, 400, 404}
    ensures t.response.status >= 400 ==> t.store == s
    ensures req.Search? || req.ListFavourites? ==> t.store == s
    ensures t.response.status == 201 ==> req.AddFavourite?
    ensures t.response.body == MessageBody(RecipeRemoved) ==> req.RemoveFavourite?
    ensures |t.store| == |s| + Delta(t.response)
    ensures WellFormed(s) ==> WellFormed(t.store)
  {
    match req
    case Search(q) => HandleSearch(q, s)
    case AddFavourite(recipeId, name) => HandleAdd(recipeId, name, s)
    case ListFavourites => HandleList(s)
    case RemoveFavourite(recipeId) => HandleRemove(recipeId, s)
  }
}
