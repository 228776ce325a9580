/**
 The draft handed to a recipe: a revocable handle over the original record whose
 `get`, `set` and `deleteProperty` traps record intended changes in a separate
 change map and a "mutated" flag, and never write to the original.
 */
module Recorder {
  import opened Values

  /** One access a recipe makes through its draft: `draft[key]`,
      `draft[key] = value` or `delete draft[key]`. */
  datatype Op = Get(key: string) | Set(key: string, value: Value) | Delete(key: string)

  /** The state the traps close over: the change map and the mutated flag. */
  datatype Recording = Recording(changes: Record, mutated: bool)

  /** The state before the recipe runs. */
  const Fresh := Recording(map[], false)

  /** The `get` trap, `changes[key] || original[key]`: a recorded change is seen
      only when it is truthy. */
  function Read(original: Record, changes: Record, key: string): Value
  {
    var recorded := Lookup(changes, key);
    if Truthy(recorded) then recorded else Lookup(original, key)
  }

  /** The effect of one access on the recording: a write of the value the
      ORIGINAL already holds is ignored, as is a delete of a key whose original
      value is `undefined`; any other write or delete sets the flag and records
      the new value (`undefined` for a delete). */
  function Step(original: Record, rec: Recording, op: Op): Recording
  {
    match op
    case Get(_) => rec
    case Set(k, v) =>
      if Lookup(original, k) == v then rec
      else Recording(rec.changes[k := v], true)
    case Delete(k) =>
      if Lookup(original, k) == Undefined then rec
      else Recording(rec.changes[k := Undefined], true)
  }

  /** The recording after a whole trace of accesses, starting from `Fresh`. */
  function Replay(original: Record, ops: seq<Op>): Recording
  {
    if ops == [] then Fresh
    else Step(original, Replay(original, ops[..|ops| - 1]), ops[|ops| - 1])
  }

  /** Whether an access changes the recording (is "effective"). */
  predicate Effective(original: Record, op: Op)
  {
    match op
    case Get(_) => false
    case Set(k, v) => Lookup(original, k) != v
    case Delete(k) => Lookup(original, k) != Undefined
  }

  /** What an effective access records for its key. */
  function Recorded(op: Op): Value
  {
    match op
    case Get(_) => Undefined
    case Set(_, v) => v
    case Delete(_) => Undefined
  }

  /** Reference definition, key by key: what the last effective access to
      `key` recorded, if there was one. */
  function LastEffective(original: Record, ops: seq<Op>, key: string): Option<Value>
  {
    if ops == [] then None
    else
      var last := ops[|ops| - 1];
      if last.key == key && Effective(original, last) then Some(Recorded(last))
      else LastEffective(original, ops[..|ops| - 1], key)
  }

  datatype Option<T> = None | Some(value: T)

  /** The values the recipe's reads returned, in order. */
  function Observed(original: Record, ops: seq<Op>): seq<Value>
  {
    if ops == [] then []
    else
      var before := ops[..|ops| - 1];
      var last := ops[|ops| - 1];
      if last.Get? then Observed(original, before) + [Read(original, Replay(original, before).changes, last.key)]
      else Observed(original, before)
  }

  /** The invariant the traps keep: the flag is set exactly when something was
      recorded, and every recorded value differs from the original's. */
  predicate Consistent(original: Record, rec: Recording)
  {
    && (rec.mutated <==> rec.changes != map[])
    && forall k :: k in rec.changes ==> rec.changes[k] != Lookup(original, k)
  }

  /** One access keeps the invariant. */
  lemma StepConsistent(original: Record, rec: Recording, op: Op)
    requires Consistent(original, rec)
    ensures Consistent(original, Step(original, rec, op))
  {
  }

  /** Every reachable recording satisfies the invariant. */
  lemma {:induction false} ReplayConsistent(original: Record, ops: seq<Op>)
    ensures Consistent(original, Replay(original, ops))
  {
    if ops != [] {
      ReplayConsistent(original, ops[..|ops| - 1]);
      StepConsistent(original, Replay(original, ops[..|ops| - 1]), ops[|ops| - 1]);
    }
  }

  /** Within one invocation the flag never goes back to false and the set of
      recorded keys only grows. */
  lemma {:induction false} ReplayMonotone(original: Record, ops: seq<Op>, i: nat)
    requires i <= |ops|
    ensures Replay(original, ops[..i]).changes.Keys <= Replay(original, ops).changes.Keys
    ensures Replay(original, ops[..i]).mutated ==> Replay(original, ops).mutated
  {
    if i < |ops| {
      var before := ops[..|ops| - 1];
      assert before[..i] == ops[..i];
      ReplayMonotone(original, before, i);
    } else {
      assert ops[..i] == ops;
    }
  }

  /** The recording is unchanged exactly when no access was effective: writes
      of the original's own values and deletes of `undefined` keys leave the
      flag down, any other write or delete raises it. */
  lemma {:induction false} MutatedIffSomeEffective(original: Record, ops: seq<Op>)
    ensures Replay(original, ops).mutated <==> exists i :: 0 <= i < |ops| && Effective(original, ops[i])
    ensures !Replay(original, ops).mutated ==> Replay(original, ops) == Fresh
  {
    if ops != [] {
      var before := ops[..|ops| - 1];
      MutatedIffSomeEffective(original, before);
      ReplayConsistent(original, before);
      if exists i :: 0 <= i < |before| && Effective(original, before[i]) {
        var i :| 0 <= i < |before| && Effective(original, before[i]);
        assert ops[i] == before[i];
      }
      if exists i :: 0 <= i < |ops| && Effective(original, ops[i]) {
        var i :| 0 <= i < |ops| && Effective(original, ops[i]);
        if i < |before| {
          assert before[i] == ops[i];
        }
      }
    }
  }

  /** The change map, key by key, is what the last effective access to that
      key recorded; keys never touched effectively are absent. */
  lemma {:induction false} ChangesAreLastEffective(original: Record, ops: seq<Op>, key: string)
    ensures key in Replay(original, ops).changes <==> LastEffective(original, ops, key).Some?
    ensures key in Replay(original, ops).changes ==>
      Replay(original, ops).changes[key] == LastEffective(original, ops, key).value
  {
    if ops != [] {
      ChangesAreLastEffective(original, ops[..|ops| - 1], key);
    }
  }

  /** Read-your-writes, as far as it goes: right after an effective write a
      read sees the written value when it is truthy, and the original's value
      when it is falsy, whatever the recipe did before. */
  lemma ReadAfterSet(original: Record, ops: seq<Op>, key: string, v: Value)
    requires Lookup(original, key) != v
    ensures Observed(original, ops + [Set(key, v), Get(key)]) ==
      Observed(original, ops) + [if Truthy(v) then v else Lookup(original, key)]
  {
    var t := ops + [Set(key, v), Get(key)];
    assert t[..|t| - 1] == ops + [Set(key, v)];
    assert (ops + [Set(key, v)])[..|ops|] == ops;
  }

  /** Right after an effective delete a read sees the key's original value,
      not `undefined`, whatever the recipe did before. */
  lemma ReadAfterDelete(original: Record, ops: seq<Op>, key: string)
    requires Lookup(original, key) != Undefined
    ensures Observed(original, ops + [Delete(key), Get(key)]) ==
      Observed(original, ops) + [Lookup(original, key)]
  {
    var t := ops + [Delete(key), Get(key)];
    assert t[..|t| - 1] == ops + [Delete(key)];
    assert (ops + [Delete(key)])[..|ops|] == ops;
  }

  /** The result of one access made through the draft: the trap's answer, or
      the TypeError a revoked proxy throws. */
  datatype Access = Ok(value: Value) | RevokedError

  /** The revocable proxy with its traps and the state they close over. */
  class Draft {
    var original: Record
    var changes: Record
    var mutated: bool
    var revoked: bool

    /** The recording the traps have built so far. */
    function State(): Recording
      reads this
    {
      Recording(changes, mutated)
    }

    /** The object invariant: the fields satisfy `Consistent`, the same
        invariant `ReplayConsistent` proves of every replayed trace, here kept
        by each trap on the live object. */
    ghost predicate Valid()
      reads this
    {
      Consistent(original, State())
    }

    /** `Proxy.revocable(initialState, handler)` with `stateMutated = false`
        and `changes = {}`. */
    constructor (initial: Record)
      ensures Valid()
      ensures original == initial && State() == Fresh && !revoked
    {
      original := initial;
      changes := map[];
      mutated := false;
      revoked := false;
    }

    /** `draft[key]`: through a live handle, the recorded change when it is
        truthy and the original's value otherwise. */
    method Get(key: string) returns (r: Access)
      ensures r.RevokedError? <==> revoked
      ensures !revoked && Truthy(Lookup(changes, key)) ==> r.value == changes[key]
      ensures !revoked && !Truthy(Lookup(changes, key)) ==> r.value == Lookup(original, key)
    {
      if revoked {
        return RevokedError;
      }
      r := Ok(Read(original, changes, key));
    }

    /** `draft[key] = v`: ignored when the original already holds `v`
        (even if an earlier write recorded something else); otherwise records
        exactly `key -> v` and sets the flag. */
    method Set(key: string, v: Value) returns (r: Access)
      requires Valid()
      modifies this
      ensures Valid()
      ensures original == old(original) && revoked == old(revoked)
      ensures r.RevokedError? <==> revoked
      ensures revoked || Lookup(original, key) == v ==> State() == old(State())
      ensures !revoked && Lookup(original, key) != v ==>
        r == Ok(Bool(true)) && mutated && changes == old(changes)[key := v]
    {
      if revoked {
        return RevokedError;
      }
      StepConsistent(original, State(), Op.Set(key, v));
      if Lookup(original, key) != v {
        mutated := true;
        changes := changes[key := v];
      }
      r := Ok(Bool(true));
    }

    /** `delete draft[key]`: ignored when the original value is `undefined`
        (even for a key the draft wrote); otherwise records `key -> undefined`
        (the key is kept) and sets the flag. */
    method Delete(key: string) returns (r: Access)
      requires Valid()
      modifies this
      ensures Valid()
      ensures original == old(original) && revoked == old(revoked)
      ensures r.RevokedError? <==> revoked
      ensures revoked || Lookup(original, key) == Undefined ==> State() == old(State())
      ensures !revoked && Lookup(original, key) != Undefined ==>
        r == Ok(Bool(true)) && mutated && changes == old(changes)[key := Undefined]
    {
      if revoked {
        return RevokedError;
      }
      StepConsistent(original, State(), Op.Delete(key));
      if Lookup(original, key) != Undefined {
        mutated := true;
        changes := changes[key := Undefined];
      }
      r := Ok(Bool(true));
    }

    /** `revoke()`: every later access through the handle fails; the recording
        is kept for reconciliation. */
    method Revoke()
      modifies this
      ensures revoked
      ensures original == old(original) && State() == old(State())
    {
      revoked := true;
    }
  }
}
