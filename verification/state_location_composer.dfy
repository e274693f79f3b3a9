/** The keyed-state location composer: it stores one named value in a
    location's state and extracts it again, refusing values its validator
    does not recognise. */
module StateLocationComposer {
  import opened Values

  /** `isLeaf`: nothing usable is stored under `key`. */
  function IsLeaf(key: string, loc: Location): (b: bool)
    ensures b <==> key !in loc.state || loc.state[key] == Undef
  {
    Lookup(loc.state, key) == Undef
  }

  /** `compose`: store `v` under `key`; the path and every other key are kept. */
  function Compose(key: string, base: Location, v: Value): (r: Location)
    ensures r.path == base.path
    ensures r.state.Keys == base.state.Keys + {key}
    ensures r.state[key] == v
    ensures forall k :: k in base.state && k != key ==> r.state[k] == base.state[k]
  {
    base.(state := base.state[key := v])
  }

  /** The location with `key` taken out of its state. */
  function Without(key: string, loc: Location): (r: Location)
    ensures r.path == loc.path
    ensures r.state.Keys == loc.state.Keys - {key}
    ensures forall k :: k in r.state ==> r.state[k] == loc.state[k]
  {
    loc.(state := loc.state - {key})
  }

  /** `decompose`: no candidate when the key holds `undefined` or a value the
      validator refuses; otherwise exactly one, the stored value paired with
      the location stripped of `key`. */
  function Decompose(key: string, validator: Value -> bool, loc: Location): (r: seq<(Value, Location)>)
    ensures |r| <= 1
    ensures r == [] <==> Lookup(loc.state, key) == Undef || !validator(loc.state[key])
    ensures r != [] ==> key in loc.state && r[0].0 == loc.state[key]
    ensures r != [] ==> r[0].1.path == loc.path
    ensures r != [] ==> r[0].1.state.Keys == loc.state.Keys - {key}
    ensures r != [] ==> forall k :: k in r[0].1.state ==> r[0].1.state[k] == loc.state[k]
  {
    var value := Lookup(loc.state, key);
    if value == Undef || !validator(value) then []
    else [(value, Without(key, loc))]
  }

  /** A later `compose` under the same key overwrites an earlier one. */
  lemma ComposeLastWriteWins(key: string, base: Location, v1: Value, v2: Value)
    ensures Compose(key, Compose(key, base, v1), v2) == Compose(key, base, v2)
  {
    assert Compose(key, Compose(key, base, v1), v2).state == Compose(key, base, v2).state;
  }

  /** Composing the same value twice is the same as composing it once. */
  lemma ComposeIdempotent(key: string, base: Location, v: Value)
    ensures Compose(key, Compose(key, base, v), v) == Compose(key, base, v)
  {
    ComposeLastWriteWins(key, base, v, v);
  }

  /** Round trip: a defined, accepted value comes back out of `compose`,
      paired with the base location minus whatever it held under `key`. */
  lemma RoundTrip(key: string, validator: Value -> bool, base: Location, v: Value)
    requires v != Undef && validator(v)
    ensures Decompose(key, validator, Compose(key, base, v)) == [(v, Without(key, base))]
  {
    assert Without(key, Compose(key, base, v)).state == Without(key, base).state;
  }

  /** Round trip from a base that does not use `key`: the residual is the base itself. */
  lemma RoundTripFresh(key: string, validator: Value -> bool, base: Location, v: Value)
    requires v != Undef && validator(v)
    requires key !in base.state
    ensures Decompose(key, validator, Compose(key, base, v)) == [(v, base)]
  {
    RoundTrip(key, validator, base, v);
    assert Without(key, base).state == base.state;
  }

  /** The other direction: composing a decomposed value back onto its residual
      rebuilds the location it came from. */
  lemma DecomposeThenCompose(key: string, validator: Value -> bool, loc: Location)
    requires Decompose(key, validator, loc) != []
    ensures Compose(key, Decompose(key, validator, loc)[0].1, Decompose(key, validator, loc)[0].0) == loc
  {
    var d := Decompose(key, validator, loc);
    assert Compose(key, d[0].1, d[0].0).state == loc.state;
  }

  /** Every residual is a leaf for this composer, and so can never be
      decomposed again. */
  lemma ResidualIsLeaf(key: string, validator: Value -> bool, loc: Location)
    requires Decompose(key, validator, loc) != []
    ensures IsLeaf(key, Decompose(key, validator, loc)[0].1)
    ensures Decompose(key, validator, Decompose(key, validator, loc)[0].1) == []
  {
  }

  /** A leaf location yields no candidate, whatever the validator. */
  lemma LeafDecomposesToNothing(key: string, validator: Value -> bool, loc: Location)
    requires IsLeaf(key, loc)
    ensures Decompose(key, validator, loc) == []
  {
  }
}
