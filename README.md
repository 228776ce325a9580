# micro-immer `produce`: the draft recorder

`produce(initialState, recipe)` hands the recipe a revocable proxy (the
*draft*) over the original record. The proxy's `get`, `set` and
`deleteProperty` traps never touch the original: writes and deletes land in a
`changes` map and raise a `stateMutated` flag. When the recipe returns, the
proxy is revoked. The result is then one of four things: the "modify and
return" error, the recipe's own returned value, the original object itself,
or a fresh object `{...initialState, ...changes}`.

The model has four modules:

- `Values` (values.dfy): JavaScript values as the traps see them (`undefined`,
  `null`, booleans, integers, strings, object references by identity),
  truthiness, records as `map<string, Value>` where a missing key reads as
  `undefined`, and a loose equality that ignores `undefined`-valued keys
  and compares nested objects by identity (jest's `toEqual`, short of its
  deep comparison of nested objects).
- `Recorder` (recorder.dfy): the traps. `Draft` is a class holding
  `original`, `changes`, `mutated` and `revoked`. Its methods `Set`,
  `Delete` and `Revoke` update these fields in place; `Get` only reads them. Beside it are pure
  functions over a recipe's trace of accesses: `Read` (the `get` trap),
  `Step`, `Replay` and `Observed`. Lemmas about these functions state the
  invariants the traps keep.
- `Producer` (produce.dfy): `Reconcile` is the four-way rule. `Produced` is
  the specification of the whole call. The method `Produce` runs a recipe
  through a real `Draft`, revokes it, reconciles, and then shows that every
  access through a kept reference fails.
- `Scenarios` (scenarios.dfy): the top-level cases of the jest suite, and
  the corners of the traps that the suite does not reach.

A recipe is modelled as the finite sequence of accesses it makes through the
draft, plus the value it returns (`Undefined` when it returns nothing).

The code has these corners, and the model follows them:

- A delete records `undefined` in `changes`. The spread then KEEPS the key
  with value `undefined`; the key is not removed. So the result equals "the
  original minus the key" only under `toEqual`, not under `toStrictEqual`.
- The write and delete traps compare against the ORIGINAL value, not the
  draft's current value. So "a = 2, then a = 1" on an original `a: 1` keeps
  `a: 2` recorded. Deleting a key that the original lacks is ignored, even
  after the draft wrote that key.
- The read trap is `changes[key] || original[key]`. A recorded falsy value
  (`0`, `""`, `false`), and a recorded delete, are therefore not seen through
  the draft.
- `revoke()` is called only when the recipe returns normally. There is no
  `try`/`finally`, so nothing is revoked when the recipe throws.
- Nested records are not wrapped: `deepProxify` is never called.

## Model

| member | source | states |
|---|---|---|
| `Values.LooselyEqualIffSameLookups` | src/produce.spec.ts:98-100 | loose equality (ignoring `undefined`-valued keys, nested objects compared by identity) holds exactly when the two records give the same `obj[key]` for every key |
| `Recorder.StepConsistent` | src/produce.ts:29-42 | one `set` or `deleteProperty` keeps the invariant: the flag is up iff something is recorded, and every recorded value differs from the original's value at that key |
| `Recorder.ReplayConsistent` | src/produce.ts:22-42 | every state reachable from `stateMutated = false`, `changes = {}` satisfies that invariant |
| `Recorder.ReplayMonotone` | src/produce.ts:22-42 | within one invocation the flag never goes from true back to false, and the set of recorded keys only grows |
| `Recorder.MutatedIffSomeEffective` | src/produce.ts:30-40 | the flag is raised iff some write of a value `!==` the original's, or some delete of a key whose original value is not `undefined`, occurred; otherwise nothing at all is recorded |
| `Recorder.ChangesAreLastEffective` | src/produce.ts:29-42 | a key is in `changes` iff some effective write or delete touched it, and its entry is what the last such access recorded (`undefined` for a delete) |
| `Recorder.ReadAfterSet` | src/produce.ts:27-34 | right after an effective write, a read returns the written value if it is truthy and the original's value if it is falsy |
| `Recorder.ReadAfterDelete` | src/produce.ts:27-41 | right after an effective delete, a read returns the key's original value, not `undefined` |
| `Recorder.Draft.constructor` | src/produce.ts:22-45 | a new handle over the original starts live, with nothing recorded and the flag down |
| `Recorder.Draft.Get` | src/produce.ts:26-28 | a read through a revoked handle fails; otherwise it returns the recorded change when that is truthy, else the original's value |
| `Recorder.Draft.Set` | src/produce.ts:29-35 | a write of the value the original holds changes nothing, even over an earlier different write; any other write records exactly `key -> value` and raises the flag; the original is never written; a revoked handle refuses and changes nothing |
| `Recorder.Draft.Delete` | src/produce.ts:36-42 | a delete of a key whose original value is `undefined` changes nothing; otherwise it records `key -> undefined` and raises the flag; the original is never written; a revoked handle refuses |
| `Recorder.Draft.Revoke` | src/produce.ts:45-47 | the handle becomes revoked and keeps its recording and its original |
| `Producer.Reconcile` | src/produce.ts:49-58 | a truthy returned value with the flag up is the error; a truthy one with the flag down comes back verbatim; a falsy one with the flag down gives the original itself; otherwise a record with the original's keys plus the recorded keys, each value taken from `changes` when recorded and from the original elsewhere |
| `Producer.Produce` | src/produce.ts:18-60 | running the recipe through a draft, revoking it and reconciling gives exactly the specified outcome and the specified read results, and every access through the kept draft afterwards fails |
| `Producer.ProducedCases` | src/produce.ts:49-58 | the outcome in terms of the recipe alone: the error iff a truthy return and some effective access; the returned value iff a truthy return and none; the original iff a falsy return and none; otherwise a fresh record whose `obj[key]` is the last effective access's value, or the original's |
| `Producer.MergedDiffersFromOriginal` | src/produce.ts:58 | a fresh result is neither equal to the original nor equal to it under the equality that ignores `undefined` keys and compares nested objects by identity |
| `Producer.DeletePresentKey` | src/produce.ts:36-58 | after any prefix of accesses with no effect, deleting a key the original holds gives the original with that key set to `undefined`, which is `toEqual`-equal but not strictly equal to the original without the key |
| `Scenarios.UnmodifiedGivesOriginal` | src/produce.spec.ts:4-32 | an empty recipe, and a write of `a`'s own value, give back the original object |
| `Scenarios.ChangeGivesNewObject` | src/produce.spec.ts:50-64 | writing `a = 2` gives a new record, different from the original, with `a: 2` |
| `Scenarios.DeleteGivesRecordWithoutKey` | src/produce.spec.ts:83-101 | deleting `a` gives a record that differs from the original both strictly and loosely, and is loosely equal to `{ b: "some str" }` |
| `Scenarios.ModifyAndReturnConflicts` | src/produce.spec.ts:103-117 | writing `a = 2` and returning a new object is the error |
| `Scenarios.ReadBackAfterWrite` | src/produce.spec.ts:119-131 | after `a = 2` the draft reads `2`, and the result's `a` is `2` |
| `Scenarios.ResetToOriginalKeepsStaleWrite` | src/produce.ts:30 | "a = 2, then a = 1" against `a: 1` reads back `2` and yields `a: 2` |
| `Scenarios.FalsyWriteIsNotReadBack` | src/produce.ts:27 | after `a = 0` the draft reads the original `1`, while the result holds `0` |
| `Scenarios.DeleteOfNewKeyIsIgnored` | src/produce.ts:37 | writing a key the original lacks and then deleting it keeps the written value in the result |
| `Scenarios.FalsyReturnIsIgnored` | src/produce.ts:49-56 | returning `0` or `""` counts as returning nothing |
| `Scenarios.ReadInsideRecipeMatchesResult` | src/produce.spec.ts:119-131 | through `Produce` itself, the read inside the recipe sees `2`, the result is the original with `a: 2` and its `a` equals the value read, and a write through the kept draft afterwards fails |

## Left out

- `deepProxify` (src/produce.ts:5-15): `produce` never calls it, and its recursive result is discarded.
- Nested records: the draft does not wrap them, so `draft.c.x = …` writes straight into the original nested object. References are opaque `Ref(id)` values, and the nested tests (src/produce.spec.ts:34-48, 66-81) describe behaviour the code does not have.
- The recipe as an arbitrary function: it is a finite trace of accesses plus a returned value. Exceptions thrown by the recipe are not modelled. The code would not revoke the handle in that case.
- A recipe returning the draft itself, or any other proxy: a returned value is an opaque `Value`.
- Proxy traps the handler does not define (`has`, `ownKeys`, …), which pass straight through to the original, are not modelled. Neither are prototype properties: the real `changes` object inherits from `Object.prototype`, so e.g. reading `toString` through the draft would see the inherited function.
- Floating-point numbers (`NaN`, `-0` under `===`), symbol keys, property order in the spread, and the TypeScript types `Draft<T>` and `Recipe<T>`.
- Producer.MergedDiffersFromOriginal: compares nested objects by identity (`Ref`), not by jest's deep structural comparison. So it does not cover a write of a distinct but structurally equal object (`draft.c = {...draft.c}`): the code records it, and the fresh result is then deep-equal to the original.
- The jest harness itself: its cases appear only as the `Scenarios` lemmas.
