/**
 `produce(initialState, recipe)`: run the recipe against a fresh draft, revoke
 the draft, and reconcile what the recipe returned with what it recorded.
 */
module Producer {
  import opened Values
  import opened Recorder

  /** A recipe, seen from outside: the accesses it makes through the draft, in
      order, and the value it returns (`Undefined` when it returns nothing). */
  datatype Recipe = Recipe(ops: seq<Op>, returned: Value)

  /** What `produce` does with the result: throws the "modify and return"
      error, returns the recipe's value, returns the very same original
      object, or returns a fresh object built by spreading. */
  datatype Outcome = Conflict | Replaced(value: Value) | Original | Merged(record: Record)

  /** The four-way reconciliation after the handle is revoked. Returned values
      are tested by truthiness; the fresh object is `{...initialState, ...changes}`,
      so a deleted key stays, holding `undefined`. */
  function Reconcile(initial: Record, rec: Recording, returned: Value): (r: Outcome)
    ensures r.Conflict? <==> Truthy(returned) && rec.mutated
    ensures r.Replaced? <==> Truthy(returned) && !rec.mutated
    ensures r.Replaced? ==> r.value == returned
    ensures r.Original? <==> !Truthy(returned) && !rec.mutated
    ensures r.Merged? ==> r.record.Keys == initial.Keys + rec.changes.Keys
    ensures r.Merged? ==> forall k :: k in r.record ==>
      r.record[k] == if k in rec.changes then rec.changes[k] else initial[k]
  {
    if Truthy(returned) && rec.mutated then Conflict
    else if Truthy(returned) then Replaced(returned)
    else if !rec.mutated then Original
    else Merged(initial + rec.changes)
  }

  /** The outcome `produce` gives for a recipe. */
  function Produced(initial: Record, recipe: Recipe): Outcome
  {
    Reconcile(initial, Replay(initial, recipe.ops), recipe.returned)
  }

  /** `produce` itself. The recipe's accesses run through a fresh draft; the
      draft is then revoked, and `later` are accesses a recipe may make through
      a reference to the draft it kept, after `produce` has returned. Returns the
      outcome, the values the recipe's reads saw, and what the later accesses got. */
  method Produce(initial: Record, recipe: Recipe, later: seq<Op>)
    returns (result: Outcome, observed: seq<Value>, afterwards: seq<Access>)
    ensures result == Produced(initial, recipe)
    ensures observed == Observed(initial, recipe.ops)
    ensures |afterwards| == |later|
    ensures forall i :: 0 <= i < |afterwards| ==> afterwards[i] == RevokedError
  {
    var draft := new Draft(initial);
    var ops := recipe.ops;
    observed := [];
    var i := 0;
    while i < |ops|
      invariant 0 <= i <= |ops|
      invariant draft.Valid() && !draft.revoked && draft.original == initial
      invariant draft.State() == Replay(initial, ops[..i])
      invariant observed == Observed(initial, ops[..i])
    {
      assert ops[..i + 1][..i] == ops[..i];
      var access;
      match ops[i] {
        case Get(k) =>
          access := draft.Get(k);
          observed := observed + [access.value];
        case Set(k, v) =>
          access := draft.Set(k, v);
        case Delete(k) =>
          access := draft.Delete(k);
      }
      i := i + 1;
    }
    assert ops[..i] == ops;
    draft.Revoke();
    result := Reconcile(initial, draft.State(), recipe.returned);

    afterwards := [];
    var j := 0;
    while j < |later|
      invariant 0 <= j <= |later|
      invariant draft.Valid() && draft.revoked
      invariant |afterwards| == j
      invariant forall n :: 0 <= n < j ==> afterwards[n] == RevokedError
    {
      var access;
      match later[j] {
        case Get(k) =>
          access := draft.Get(k);
        case Set(k, v) =>
          access := draft.Set(k, v);
        case Delete(k) =>
          access := draft.Delete(k);
      }
      afterwards := afterwards + [access];
      j := j + 1;
    }
  }

  /** Whether no access of the trace is effective. */
  predicate NoEffect(initial: Record, ops: seq<Op>)
  {
    forall i :: 0 <= i < |ops| ==> !Effective(initial, ops[i])
  }

  /** The four outcomes, characterised by the recipe alone: a truthy return
      conflicts with any effective write or delete, and is otherwise returned;
      without one, the original object comes back exactly when nothing
      effective happened, and otherwise the spread of the original with the
      last effective value of each touched key. */
  lemma ProducedCases(initial: Record, recipe: Recipe)
    ensures Produced(initial, recipe) == Conflict <==>
      Truthy(recipe.returned) && !NoEffect(initial, recipe.ops)
    ensures Produced(initial, recipe) == Replaced(recipe.returned) <==>
      Truthy(recipe.returned) && NoEffect(initial, recipe.ops)
    ensures Produced(initial, recipe) == Original <==>
      !Truthy(recipe.returned) && NoEffect(initial, recipe.ops)
    ensures Produced(initial, recipe).Merged? <==>
      !Truthy(recipe.returned) && !NoEffect(initial, recipe.ops)
    ensures Produced(initial, recipe).Merged? ==> forall k ::
      Lookup(Produced(initial, recipe).record, k) ==
        match LastEffective(initial, recipe.ops, k)
        case Some(v) => v
        case None => Lookup(initial, k)
  {
    MutatedIffSomeEffective(initial, recipe.ops);
    if Produced(initial, recipe).Merged? {
      forall k ensures Lookup(Produced(initial, recipe).record, k) ==
        match LastEffective(initial, recipe.ops, k)
        case Some(v) => v
        case None => Lookup(initial, k)
      {
        ChangesAreLastEffective(initial, recipe.ops, k);
      }
    }
  }

  /** A fresh object is never equal to the original, not even under the
      equality that ignores `undefined` keys (nested objects compared by
      identity): every recorded change is visible in it. So `produce` hands
      back something equal to the original only by returning the original
      itself. */
  lemma MergedDiffersFromOriginal(initial: Record, recipe: Recipe)
    requires Produced(initial, recipe).Merged?
    ensures !LooselyEqual(Produced(initial, recipe).record, initial)
    ensures Produced(initial, recipe).record != initial
  {
    var rec := Replay(initial, recipe.ops);
    ReplayConsistent(initial, recipe.ops);
    var k :| k in rec.changes;
    var m := Produced(initial, recipe).record;
    assert Lookup(m, k) == rec.changes[k] != Lookup(initial, k);
    LooselyEqualIffSameLookups(m, initial);
  }

  /** A recipe whose only effective access deletes a present key gets back the
      original with that key holding `undefined`: not the original minus the key
      under map equality (`toStrictEqual`), but equal to it loosely (`toEqual`). */
  lemma DeletePresentKey(initial: Record, key: string, prefix: seq<Op>)
    requires key in initial && initial[key] != Undefined
    requires NoEffect(initial, prefix)
    ensures Produced(initial, Recipe(prefix + [Delete(key)], Undefined)) == Merged(initial[key := Undefined])
    ensures initial[key := Undefined] != initial - {key}
    ensures LooselyEqual(initial[key := Undefined], initial - {key})
  {
    var ops := prefix + [Delete(key)];
    assert ops[..|ops| - 1] == prefix;
    MutatedIffSomeEffective(initial, prefix);
    assert Replay(initial, prefix) == Fresh;
    assert key in initial[key := Undefined];
    var m, d := initial[key := Undefined], initial - {key};
    forall k ensures Lookup(m, k) == Lookup(d, k) { }
    LooselyEqualIffSameLookups(m, d);
  }
}
