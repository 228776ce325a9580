/**
 Concrete cases of `produce`: the cases of src/produce.spec.ts at the top level of
 the record, and the corners of the traps that those cases do not reach.
 */
module Scenarios {
  import opened Values
  import opened Recorder
  import opened Producer

  /** `{ a: 1, b: "some str", c: <nested object> }`; the nested object is known
      only by its identity. */
  const Sample: Record := map["a" := Int(1), "b" := Str("some str"), "c" := Ref(0)]

  /** `{ a: 1, b: "some str" }`. */
  const Flat: Record := map["a" := Int(1), "b" := Str("some str")]

  /** An empty recipe, and one that writes a property's own value, give back
      the original object itself. */
  lemma UnmodifiedGivesOriginal()
    ensures Produced(Sample, Recipe([], Undefined)) == Original
    ensures Produced(Sample, Recipe([Set("a", Int(1))], Undefined)) == Original
  {
  }

  /** Changing a property gives a new object, different from the original and
      holding the new value. */
  lemma ChangeGivesNewObject()
    ensures Produced(Sample, Recipe([Set("a", Int(2))], Undefined)) == Merged(Sample["a" := Int(2)])
    ensures Sample["a" := Int(2)] != Sample
  {
  }

  /** Deleting `a` keeps the key with `undefined`: the result differs from the
      original strictly and loosely, and equals `{ b: "some str" }` loosely only. */
  lemma DeleteGivesRecordWithoutKey()
    ensures Produced(Flat, Recipe([Delete("a")], Undefined)) == Merged(map["a" := Undefined, "b" := Str("some str")])
    ensures !LooselyEqual(map["a" := Undefined, "b" := Str("some str")], Flat)
    ensures LooselyEqual(map["a" := Undefined, "b" := Str("some str")], map["b" := Str("some str")])
    ensures map["a" := Undefined, "b" := Str("some str")] != map["b" := Str("some str")]
  {
    assert "a" in DefinedPart(Flat);
  }

  /** Writing through the draft and returning a new object throws. */
  lemma ModifyAndReturnConflicts()
    ensures Produced(Flat, Recipe([Set("a", Int(2))], Ref(1))) == Conflict
  {
  }

  /** A value read back right after a truthy write is the written one, and it
      is also the result's value at that key. */
  lemma ReadBackAfterWrite()
    ensures Observed(Flat, [Set("a", Int(2)), Get("a")]) == [Int(2)]
    ensures Produced(Flat, Recipe([Set("a", Int(2)), Get("a")], Undefined)) == Merged(Flat["a" := Int(2)])
  {
    var ops := [Set("a", Int(2)), Get("a")];
    assert ops[..1] == [Set("a", Int(2))];
    assert ops[..1][..0] == [];
    assert Replay(Flat, ops) == Recording(map["a" := Int(2)], true);
    assert Flat + map["a" := Int(2)] == Flat["a" := Int(2)];
  }

  /** "a = 2, then a = 1" against an original `a: 1`: the second write is
      compared with the original, ignored, and the stale `2` is both read back
      and kept in the result. */
  lemma ResetToOriginalKeepsStaleWrite()
    ensures Observed(Flat, [Set("a", Int(2)), Set("a", Int(1)), Get("a")]) == [Int(2)]
    ensures Produced(Flat, Recipe([Set("a", Int(2)), Set("a", Int(1))], Undefined)) == Merged(Flat["a" := Int(2)])
  {
    var ops := [Set("a", Int(2)), Set("a", Int(1)), Get("a")];
    assert ops[..2] == [Set("a", Int(2)), Set("a", Int(1))];
    assert ops[..2][..1] == [Set("a", Int(2))];
    assert ops[..2][..1][..0] == [];
    assert Replay(Flat, ops[..2][..1]) == Recording(map["a" := Int(2)], true);
    assert Replay(Flat, ops[..2]) == Recording(map["a" := Int(2)], true);
    assert Observed(Flat, ops[..2][..1]) == [];
    assert Observed(Flat, ops[..2]) == [];
    assert Flat + map["a" := Int(2)] == Flat["a" := Int(2)];
  }

  /** A falsy write is recorded, so the result holds it, but a read through
      the draft sees the original value instead. */
  lemma FalsyWriteIsNotReadBack()
    ensures Observed(Flat, [Set("a", Int(0)), Get("a")]) == [Int(1)]
    ensures Produced(Flat, Recipe([Set("a", Int(0)), Get("a")], Undefined)) == Merged(Flat["a" := Int(0)])
  {
    var ops := [Set("a", Int(0)), Get("a")];
    assert ops[..1] == [Set("a", Int(0))];
    assert ops[..1][..0] == [];
    assert Replay(Flat, ops) == Recording(map["a" := Int(0)], true);
    assert Flat + map["a" := Int(0)] == Flat["a" := Int(0)];
  }

  /** A key the original lacks cannot be deleted through the draft, not even
      after the draft wrote it: the written value survives into the result. */
  lemma DeleteOfNewKeyIsIgnored()
    ensures Produced(Flat, Recipe([Set("c", Int(5)), Delete("c")], Undefined)) == Merged(Flat["c" := Int(5)])
  {
    var ops := [Set("c", Int(5)), Delete("c")];
    assert ops[..1] == [Set("c", Int(5))];
    assert ops[..1][..0] == [];
    assert Replay(Flat, ops) == Recording(map["c" := Int(5)], true);
    assert Flat + map["c" := Int(5)] == Flat["c" := Int(5)];
  }

  /** A falsy returned value counts as "returned nothing". */
  lemma FalsyReturnIsIgnored()
    ensures Produced(Flat, Recipe([], Int(0))) == Original
    ensures Produced(Flat, Recipe([Set("a", Int(2))], Str(""))) == Merged(Flat["a" := Int(2)])
  {
  }

  /** Through `Produce` itself: the read inside the recipe matches the
      result's value at that key, and a kept reference to the draft is refused
      afterwards. */
  method ReadInsideRecipeMatchesResult() returns (result: Outcome, seen: Value, late: Access)
    ensures result == Merged(Flat["a" := Int(2)])
    ensures seen == Int(2) && seen == result.record["a"]
    ensures late == RevokedError
  {
    var observed, afterwards;
    result, observed, afterwards := Produce(Flat, Recipe([Set("a", Int(2)), Get("a")], Undefined), [Set("a", Int(3))]);
    ReadBackAfterWrite();
    seen := observed[0];
    late := afterwards[0];
  }
}
