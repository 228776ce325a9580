/**
 JavaScript values as far as the draft recorder sees them: the scalars a record
 property may hold, references to nested objects (compared by identity), the
 truthiness test behind `||` and `if (x)`, and plain records as string-keyed maps.
 */
module Values {

  /** A JavaScript value. Numbers are modelled by integers only; an object is
      known only by its identity. */
  datatype Value =
    | Undefined
    | Null
    | Bool(b: bool)
    | Int(n: int)
    | Str(s: string)
    | Ref(id: nat)

  /** JavaScript truthiness: `undefined`, `null`, `false`, `0` and `""` are falsy. */
  predicate Truthy(v: Value)
  {
    match v
    case Undefined => false
    case Null => false
    case Bool(b) => b
    case Int(n) => n != 0
    case Str(s) => s != ""
    case Ref(_) => true
  }

  /** A plain record: its own enumerable properties. A key may be present with
      the value `undefined`, which is not the same record as one without the key. */
  type Record = map<string, Value>

  /** `obj[key]`: a missing key reads as `undefined`. */
  function Lookup(m: Record, key: string): Value
  {
    if key in m then m[key] else Undefined
  }

  /** The properties whose value is not `undefined`. */
  function DefinedPart(m: Record): Record
  {
    map k | k in m && m[k] != Undefined :: m[k]
  }

  /** Equality that ignores `undefined`-valued properties and compares nested
      objects by identity. This is jest's `toEqual` on records whose nested
      objects are compared as references, not deeply. */
  predicate LooselyEqual(a: Record, b: Record)
  {
    DefinedPart(a) == DefinedPart(b)
  }

  /** Loose equality is exactly agreement of `obj[key]` on every key. */
  lemma LooselyEqualIffSameLookups(a: Record, b: Record)
    ensures LooselyEqual(a, b) <==> forall k :: Lookup(a, k) == Lookup(b, k)
  {
    if LooselyEqual(a, b) {
      forall k ensures Lookup(a, k) == Lookup(b, k) {
        assert k in DefinedPart(a) <==> k in DefinedPart(b);
      }
    }
    if forall k :: Lookup(a, k) == Lookup(b, k) {
      var da, db := DefinedPart(a), DefinedPart(b);
      forall k ensures k in da <==> k in db {
        assert Lookup(a, k) == Lookup(b, k);
      }
      assert da.Keys == db.Keys;
      forall k | k in da ensures da[k] == db[k] {
        assert Lookup(a, k) == Lookup(b, k);
      }
    }
  }
}
