/**
 The in-memory favourites array of the recipe backend: an ordered list of
 `{recipeId, name}` records, appended to by `push`, searched by `findIndex`
 and shortened by `splice(index, 1)`.
 */
module Favourites {

  /** One stored favourite. Both fields are plain strings. */
  datatype Favourite = Favourite(recipeId: string, name: string)

  /** The whole store, in insertion order; duplicates are allowed. */
  type Store = seq<Favourite>

  /** Some entry of `s` carries the recipe id `id`. */
  predicate HasId(s: Store, id: string) {
    exists j :: 0 <= j < |s| && s[j].recipeId == id
  }

  /** `i` is the position of the first entry of `s` whose recipe id is `id`. */
  predicate FirstMatch(s: Store, id: string, i: int) {
    && 0 <= i < |s|
    && s[i].recipeId == id
    && forall j :: 0 <= j < i ==> s[j].recipeId != id
  }

  /** Number of entries of `s` whose recipe id is `id`. */
  function Count(s: Store, id: string): nat {
    if |s| == 0 then 0
    else (if s[0].recipeId == id then 1 else 0) + Count(s[1..], id)
  }

  /** Counting distributes over concatenation. */
  lemma {:induction false} CountConcat(a: Store, b: Store, id: string)
    ensures Count(a + b, id) == Count(a, id) + Count(b, id)
  {
    if |a| == 0 {
      assert a + b == b;
    } else {
      assert (a + b)[1..] == a[1..] + b;
      CountConcat(a[1..], b, id);
    }
  }

  /** An id occurs in the store exactly when its count is positive. */
  lemma {:induction false} CountPositiveIffHasId(s: Store, id: string)
    ensures Count(s, id) > 0 <==> HasId(s, id)
  {
    if |s| != 0 {
      CountPositiveIffHasId(s[1..], id);
      if HasId(s[1..], id) {
        var j :| 0 <= j < |s[1..]| && s[1..][j].recipeId == id;
        assert s[j + 1].recipeId == id;
      }
      if HasId(s, id) && s[0].recipeId != id {
        var j :| 0 <= j < |s| && s[j].recipeId == id;
        assert s[1..][j - 1].recipeId == id;
      }
    }
  }

  /**
   `favouriteRecipes.push(f)`: the new entry goes at the end, the earlier
   entries are untouched, and no duplicate check is made, so the count of
   `f.recipeId` always grows by one while every other id keeps its count.
   */
  function Push(s: Store, f: Favourite): (r: Store)
    ensures |r| == |s| + 1
    ensures r[..|s|] == s && r[|s|] == f
    ensures Count(r, f.recipeId) == Count(s, f.recipeId) + 1
    ensures forall id :: id != f.recipeId ==> Count(r, id) == Count(s, id)
  {
    CountPushed(s, f);
    s + [f]
  }

  /** How `Count` changes under appending one entry, for every id at once. */
  lemma CountPushed(s: Store, f: Favourite)
    ensures forall id :: Count(s + [f], id) == Count(s, id) + (if f.recipeId == id then 1 else 0)
  {
    forall id
      ensures Count(s + [f], id) == Count(s, id) + (if f.recipeId == id then 1 else 0)
    {
      CountConcat(s, [f], id);
      assert Count([f], id) == (if f.recipeId == id then 1 else 0) by {
        assert [f][1..] == [];
      }
    }
  }

  /**
   `favouriteRecipes.findIndex(r => r.recipeId === id)`: the index of the
   first entry with that id, or -1 when there is none.
   */
  function FindIndex(s: Store, id: string): (r: int)
    ensures -1 <= r < |s|
    ensures r == -1 <==> !HasId(s, id)
    ensures r != -1 ==> FirstMatch(s, id, r)
  {
    if |s| == 0 then -1
    else if s[0].recipeId == id then 0
    else
      var k := FindIndex(s[1..], id);
      assert HasId(s, id) ==> HasId(s[1..], id) by {
        if HasId(s, id) {
          var j :| 0 <= j < |s| && s[j].recipeId == id;
          assert s[1..][j - 1].recipeId == id;
        }
      }
      if k == -1 then -1 else k + 1
  }

  /**
   `favouriteRecipes.splice(i, 1)`: drops exactly the entry at `i`; the
   entries before it keep their positions, those after it move down by one,
   and the multiset of entries loses exactly `s[i]`.
   */
  function DeleteAt(s: Store, i: nat): (r: Store)
    requires i < |s|
    ensures |r| == |s| - 1
    ensures forall j :: 0 <= j < i ==> r[j] == s[j]
    ensures forall j :: i <= j < |r| ==> r[j] == s[j + 1]
    ensures multiset(r) + multiset{s[i]} == multiset(s)
  {
    assert s == s[..i] + [s[i]] + s[i + 1..];
    s[..i] + s[i + 1..]
  }

  /** Deleting an entry lowers the count of its id by one and leaves every other id's count alone. */
  lemma {:induction false} CountDeleteAt(s: Store, i: nat, id: string)
    requires i < |s|
    ensures Count(DeleteAt(s, i), id) == Count(s, id) - (if s[i].recipeId == id then 1 else 0)
  {
    assert s == s[..i] + ([s[i]] + s[i + 1..]);
    assert DeleteAt(s, i) == s[..i] + s[i + 1..];
    CountConcat(s[..i], [s[i]] + s[i + 1..], id);
    CountConcat([s[i]], s[i + 1..], id);
    CountConcat(s[..i], s[i + 1..], id);
    assert [s[i]][1..] == [];
  }
}
