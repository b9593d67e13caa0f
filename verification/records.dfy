/** The record store's value types: identifiers, stored values and distance observations. */
module Records {

  /** An unsigned 32-bit integer (`boost::uint32_t`). */
  newtype uint32 = x: int | 0 <= x < 0x1_0000_0000

  const UINT32_LIMIT: nat := 0x1_0000_0000

  /** A record identifier; interning is not modelled, identifiers are plain values. */
  type Id = uint32

  /** A stored record: the raw sequence and its compressed length (0 until the pre-pass). */
  datatype Val = Val(sequence: string, clen: uint32)

  /** The value `operator[]` default-constructs for an identifier that is not in the store. */
  const DefaultVal: Val := Val("", 0)

  /** One emitted line `a,b,distance`. */
  datatype Observation = Observation(a: Id, b: Id, distance: real)

  datatype Option<+T> = None | Some(value: T)

  /** The value the store holds for `id`, or the default one `operator[]` would insert. */
  function ValueOrDefault(m: map<Id, Val>, id: Id): Val
  {
    if id in m then m[id] else DefaultVal
  }

  /** The identifiers listed in a sequence. */
  function Elements(s: seq<Id>): set<Id> {
    set x | x in s
  }

  /** A subset is no larger than its superset, and a proper subset is smaller. */
  lemma {:induction false} SubsetCardinality(a: set<Id>, b: set<Id>)
    requires a <= b
    ensures |a| <= |b|
    ensures a < b ==> |a| < |b|
    decreases b
  {
    if b != {} {
      var x :| x in b;
      SubsetCardinality(a - {x}, b - {x});
      if x in a {
        assert a == (a - {x}) + {x} && b == (b - {x}) + {x};
      }
    }
  }
}
