/**
 Requests applied one at a time to the process-global favourites store,
 starting from a given store (the server starts from the empty one), and the
 properties that relate several steps.
 */
module Session {
  import opened Wrappers
  import opened Favourites
  import opened Router

  /** The responses to a sequence of requests, in order, and the final store. */
  datatype Trace = Trace(responses: seq<Response>, store: Store)

  /** The net change in store size that a sequence of responses reports. */
  function TotalDelta(rs: seq<Response>): int {
    if |rs| == 0 then 0 else Delta(rs[0]) + TotalDelta(rs[1..])
  }

  /**
   Handles `reqs` in order, each against the store left by the previous one.
   One response per request, every status is one the routes can produce, the
   final size is the initial size plus what the responses report, and a
   well-formed store stays well-formed.
   */
  function Run(reqs: seq<Request>, s: Store): (tr: Trace)
    ensures |tr.responses| == |reqs|
    ensures forall i :: 0 <= i < |reqs| ==> tr.responses[i].status in {200, 201, 400, 404}
    ensures |tr.store| == |s| + TotalDelta(tr.responses)
    ensures WellFormed(s) ==> WellFormed(tr.store)
  {
    if |reqs| == 0 then Trace([], s)
    else
      var t := Step(reqs[0], s);
      var rest := Run(reqs[1..], t.store);
      Trace([t.response] + rest.responses, rest.store)
  }

  /** Running `a` then `b` ends in the same store as running `a + b`. */
  lemma {:induction false} RunConcatStore(a: seq<Request>, b: seq<Request>, s: Store)
    ensures Run(a + b, s).store == Run(b, Run(a, s).store).store
  {
    if |a| == 0 {
      assert a + b == b;
    } else {
      var t := Step(a[0], s);
      assert (a + b)[1..] == a[1..] + b;
      RunConcatStore(a[1..], b, t.store);
    }
  }

  /** Running `a` then `b` gives the same responses, in order, as running `a + b`. */
  lemma {:induction false} RunConcatResponses(a: seq<Request>, b: seq<Request>, s: Store)
    ensures Run(a + b, s).responses == Run(a, s).responses + Run(b, Run(a, s).store).responses
  {
    if |a| == 0 {
      assert a + b == b;
    } else {
      var t := Step(a[0], s);
      assert (a + b)[1..] == a[1..] + b;
      RunConcatResponses(a[1..], b, t.store);
      RunConcatStore(a[1..], b, t.store);
      var x := Run(a[1..], t.store).responses;
      var y := Run(b, Run(a[1..], t.store).store).responses;
      assert [t.response] + (x + y) == ([t.response] + x) + y;
    }
  }

  /** A sequence of searches and listings never changes the store. */
  lemma {:induction false} ReadOnlyRun(reqs: seq<Request>, s: Store)
    requires forall i :: 0 <= i < |reqs| ==> reqs[i].Search? || reqs[i].ListFavourites?
    ensures Run(reqs, s).store == s
  {
    if |reqs| != 0 {
      ReadOnlyRun(reqs[1..], s);
    }
  }

  /** `reqs` adds the favourites `fs`, one request per entry, in order. */
  predicate AddsOf(reqs: seq<Request>, fs: seq<Favourite>) {
    && |reqs| == |fs|
    && forall i :: 0 <= i < |fs| ==> reqs[i] == AddFavourite(Some(fs[i].recipeId), Some(fs[i].name))
  }

  /** A single add of a favourite with non-empty fields is created and appended. */
  lemma AddStep(s: Store, f: Favourite)
    requires f.recipeId != "" && f.name != ""
    ensures Step(AddFavourite(Some(f.recipeId), Some(f.name)), s)
         == Transition(Response(201, MessageBody(RecipeAdded)), s + [f])
  {
  }

  /**
   Adding a list of favourites with non-empty fields, one request each,
   leaves the old store followed by exactly those favourites, in request order.
   */
  lemma {:induction false} AddAllAppends(reqs: seq<Request>, fs: seq<Favourite>, s: Store)
    requires WellFormed(fs) && AddsOf(reqs, fs)
    ensures Run(reqs, s).store == s + fs
  {
    if |fs| != 0 {
      var f := fs[0];
      AddStep(s, f);
      AddAllAppends(reqs[1..], fs[1..], s + [f]);
      assert s + [f] + fs[1..] == s + fs;
    }
  }

  /** Every one of those add requests is answered 201 Created. */
  lemma {:induction false} AddAllCreated(reqs: seq<Request>, fs: seq<Favourite>, s: Store)
    requires WellFormed(fs) && AddsOf(reqs, fs)
    ensures forall i :: 0 <= i < |reqs| ==> Run(reqs, s).responses[i].status == 201
  {
    if |fs| != 0 {
      var f := fs[0];
      AddStep(s, f);
      AddAllCreated(reqs[1..], fs[1..], s + [f]);
      var rest := Run(reqs[1..], s + [f]);
      assert Run(reqs, s).responses == [Response(201, MessageBody(RecipeAdded))] + rest.responses;
    }
  }

  /**
   Two successful adds of the same id both stay in the store: the id's count
   grows by two and the two records sit at the end in request order.
   */
  lemma AddTwiceKeepsBoth(s: Store, id: string, name1: string, name2: string)
    requires id != "" && name1 != "" && name2 != ""
    ensures var t1 := Step(AddFavourite(Some(id), Some(name1)), s);
            var t2 := Step(AddFavourite(Some(id), Some(name2)), t1.store);
            && t1.response.status == 201 && t2.response.status == 201
            && t2.store == s + [Favourite(id, name1), Favourite(id, name2)]
            && Count(t2.store, id) == Count(s, id) + 2
  {
  }

  /**
   A successful add of an id the store did not hold, followed by a removal of
   that id, gives back exactly the original store.
   */
  lemma AddRemoveRoundTrip(s: Store, id: string, name: string)
    requires id != "" && name != ""
    requires !HasId(s, id)
    ensures var t1 := Step(AddFavourite(Some(id), Some(name)), s);
            var t2 := Step(RemoveFavourite(Some(id)), t1.store);
            && t1.response.status == 201
            && t2.response == Response(200, MessageBody(RecipeRemoved))
            && t2.store == s
  {
  }

  /**
   The add route demands a name as well as an id: an add that carries only a
   `recipeId` is answered 400 and changes nothing.
   */
  lemma AddWithoutNameIsRejected(s: Store, recipeId: Option<string>)
    ensures Step(AddFavourite(recipeId, None), s) == Transition(Response(400, ErrorBody(FieldsRequired)), s)
  {
  }

  /**
   Removing the only entry with a given id leaves no entry with that id:
   the remove is answered 200 and the id is gone from the store.
   */
  lemma RemoveOnlyCopyLeavesNone(s: Store, id: string)
    requires Count(s, id) == 1
    ensures var t := Step(RemoveFavourite(Some(id)), s);
            t.response.status == 200 && !HasId(t.store, id)
  {
    CountPositiveIffHasId(s, id);
    var t := Step(RemoveFavourite(Some(id)), s);
    CountPositiveIffHasId(t.store, id);
  }

  /**
   On a store built only through the routes (well-formed), a removal with an
   absent or empty id matches nothing: 404 and the store is unchanged.
   */
  lemma RemoveWithoutIdIsNotFound(s: Store, recipeId: Option<string>)
    requires WellFormed(s)
    requires !Truthy(recipeId)
    ensures Step(RemoveFavourite(recipeId), s) == Transition(Response(404, ErrorBody(RecipeNotFound)), s)
  {
  }

  /**
   Starting from the empty store: add "42" (201), list it (200, exactly that
   record), remove it (200), remove it again (404), ending empty.
   */
  lemma AddListRemoveScenario()
    ensures var f := Favourite("42", "Pasta");
            var t1 := Step(AddFavourite(Some("42"), Some("Pasta")), []);
            var t2 := Step(ListFavourites, t1.store);
            var t3 := Step(RemoveFavourite(Some("42")), t2.store);
            var t4 := Step(RemoveFavourite(Some("42")), t3.store);
            && t1.response == Response(201, MessageBody(RecipeAdded))
            && t2.response == Response(200, FavouritesBody([f]))
            && t3.response == Response(200, MessageBody(RecipeRemoved))
            && t4.response == Response(404, ErrorBody(RecipeNotFound))
            && t4.store == []
  {
  }
}
