/** `getLocation` of the route-record variants: read the route's own value
    from the match object, check it, and compose it onto the location of the
    parent route (or the root location when there is no parent route).

    `resolveLinkLocation` itself is not part of this model. It is assumed to
    take as base the root location of the record's link when the link has no
    parent route, otherwise the parent route's `getLocation` of the same
    match, and to apply the route's composing callback to that base, reading
    the link through `getParentRoute` and `getRootLocation`.

    `GetLocation` is the reference: it reads every chain without rewriting it
    and leaves the store alone. `GetLocationCompressing` is the walk as the
    source performs it, compressing each chain it follows and handing the
    rewritten store on; it answers what `GetLocation` answers on the store it
    started from. The rewritten store gives every read, and every route's
    location, as before (CompressionPreservesLocations), but later mutations
    can tell the two apart (CompressionVisibility). Each step up to a parent
    route costs one unit of `fuel`: the source places no bound on that walk,
    and a route attached beneath its own builder makes it recurse until the
    stack overflows, which is `DepthExhausted` here. */
module RouteLocation {
  import opened Values
  import opened LocationComposer
  import opened RouteGraph
  import StateLocationComposer
  import BuilderLink
  import LinkInheritance

  /** A match object: match key to bound value. */
  type Match = map<string, Value>

  /** The location the composing callback is applied to. */
  function ParentLocation(s: Store, l: LinkId, m: Match, fuel: nat): Result<Location>
    requires Valid(s) && l in s.links
    decreases fuel, 0
  {
    match ParentRouteOf(s, l)
    case None => Success(RootLocationOf(s, l))
    case Some(p) =>
      ParentRouteInStore(s, l);
      if fuel == 0 then Failure(DepthExhausted) else GetLocation(s, p, m, fuel - 1)
  }

  /** `resolveLinkLocation(link, match, compose)`. */
  function ResolveLinkLocation(s: Store, l: LinkId, m: Match, compose: Location -> Location, fuel: nat): Result<Location>
    requires Valid(s) && l in s.links
    decreases fuel, 1
  {
    var base :- ParentLocation(s, l, m, fuel);
    Success(compose(base))
  }

  /** `getLocation(match)` of a normal, wildcard or matching route record. */
  function GetLocation(s: Store, r: RecordId, m: Match, fuel: nat): (res: Result<Location>)
    requires Valid(s) && r in s.records
    ensures !Accepts(s.records[r].kind, m) ==>
              res == Failure(if s.records[r].kind.Wildcard? then NotAString else InvariantFailure)
    ensures res.Success? ==> Accepts(s.records[r].kind, m)
    ensures res.Success? && s.links[s.records[r].parentLink].composer.StateComposer? ==>
              Lookup(res.value.state, s.links[s.records[r].parentLink].composer.key) == ComposedValue(s.records[r].kind, m)
    decreases fuel, 2
  {
    var rec := s.records[r];
    var composer := s.links[rec.parentLink].composer;
    match rec.kind
    case Normal(segment) =>
      ResolveLinkLocation(s, rec.parentLink, m, loc => Compose(composer, loc, Str(segment)), fuel)
    case Wildcard(matchKey) =>
      var v := Lookup(m, matchKey);
      if !v.Str? then Failure(NotAString)
      else ResolveLinkLocation(s, rec.parentLink, m, loc => Compose(composer, loc, v), fuel)
    case Matching(key, validator) =>
      var v := Lookup(m, key);
      if !validator(v) then Failure(InvariantFailure)
      else ResolveLinkLocation(s, rec.parentLink, m, loc => Compose(composer, loc, v), fuel)
  }

  /** The value a record composes for a match: its literal segment, or the
      match entry under its key. */
  function ComposedValue(kind: RecordKind, m: Match): Value
  {
    match kind
    case Normal(segment) => Str(segment)
    case Wildcard(matchKey) => Lookup(m, matchKey)
    case Matching(key, _) => Lookup(m, key)
  }

  /** Whether the record's own check accepts the match. */
  predicate Accepts(kind: RecordKind, m: Match)
  {
    match kind
    case Normal(_) => true
    case Wildcard(matchKey) => Lookup(m, matchKey).Str?
    case Matching(key, validator) => validator(Lookup(m, key))
  }

  /** A wildcard route fails with a type error exactly when its match entry
      is not a string, before anything else is looked at; otherwise its
      location is that string composed, with its link's composer, onto the
      parent location. */
  lemma WildcardLocation(s: Store, r: RecordId, m: Match, fuel: nat)
    requires Valid(s) && r in s.records && s.records[r].kind.Wildcard?
    ensures !Lookup(m, s.records[r].kind.matchKey).Str? ==> GetLocation(s, r, m, fuel) == Failure(NotAString)
    ensures Lookup(m, s.records[r].kind.matchKey).Str? ==>
              GetLocation(s, r, m, fuel) ==
                match ParentLocation(s, s.records[r].parentLink, m, fuel)
                case Success(base) =>
                  Success(Compose(s.links[s.records[r].parentLink].composer, base, m[s.records[r].kind.matchKey]))
                case Failure(e) => Failure(e)
  {
  }

  /** A matching route fails with an invariant error exactly when its
      validator rejects the match entry, whatever the link and its parents
      would give; otherwise its location is the accepted value composed onto
      the parent location. */
  lemma MatchingLocation(s: Store, r: RecordId, m: Match, fuel: nat)
    requires Valid(s) && r in s.records && s.records[r].kind.Matching?
    ensures !s.records[r].kind.validator(Lookup(m, s.records[r].kind.key)) ==>
              GetLocation(s, r, m, fuel) == Failure(InvariantFailure)
    ensures s.records[r].kind.validator(Lookup(m, s.records[r].kind.key)) ==>
              GetLocation(s, r, m, fuel) ==
                match ParentLocation(s, s.records[r].parentLink, m, fuel)
                case Success(base) =>
                  Success(Compose(s.links[s.records[r].parentLink].composer, base, Lookup(m, s.records[r].kind.key)))
                case Failure(e) => Failure(e)
  {
  }

  /** Only the record's own entry of the match decides what it composes: two
      matches that agree on it, and whose parent locations agree, give the
      same location. */
  lemma OnlyOwnEntryComposed(s: Store, r: RecordId, m1: Match, m2: Match, fuel: nat)
    requires Valid(s) && r in s.records
    requires ComposedValue(s.records[r].kind, m1) == ComposedValue(s.records[r].kind, m2)
    requires ParentLocation(s, s.records[r].parentLink, m1, fuel) == ParentLocation(s, s.records[r].parentLink, m2, fuel)
    ensures GetLocation(s, r, m1, fuel) == GetLocation(s, r, m2, fuel)
  {
  }

  /** The round trip through a record: when the record's link composes into
      the state under `key`, decomposing the record's location with that key
      gives back exactly the composed value and the parent location, less
      what the parent held under `key`. */
  lemma LocationDecomposes(s: Store, r: RecordId, m: Match, fuel: nat, key: string, validator: Value -> bool)
    requires Valid(s) && r in s.records
    requires s.links[s.records[r].parentLink].composer == StateComposer(key, validator)
    requires GetLocation(s, r, m, fuel).Success?
    requires ComposedValue(s.records[r].kind, m) != Undef && validator(ComposedValue(s.records[r].kind, m))
    ensures Accepts(s.records[r].kind, m)
    ensures ParentLocation(s, s.records[r].parentLink, m, fuel).Success?
    ensures StateLocationComposer.Decompose(key, validator, GetLocation(s, r, m, fuel).value) ==
              [(ComposedValue(s.records[r].kind, m),
                StateLocationComposer.Without(key, ParentLocation(s, s.records[r].parentLink, m, fuel).value))]
  {
    var base := ParentLocation(s, s.records[r].parentLink, m, fuel).value;
    var v := ComposedValue(s.records[r].kind, m);
    assert GetLocation(s, r, m, fuel).value == StateLocationComposer.Compose(key, base, v);
    StateLocationComposer.RoundTrip(key, validator, base, v);
  }

  /** More fuel never changes an answer other than `DepthExhausted`: a
      location found, or an error thrown by a route on the way, stays the same
      however deep the walk is allowed to go. */
  lemma {:induction false} FuelMonotone(s: Store, r: RecordId, m: Match, fuel: nat)
    requires Valid(s) && r in s.records
    ensures GetLocation(s, r, m, fuel) != Failure(DepthExhausted) ==>
              GetLocation(s, r, m, fuel + 1) == GetLocation(s, r, m, fuel)
    decreases fuel, 1
  {
    ParentFuelMonotone(s, s.records[r].parentLink, m, fuel);
  }

  lemma {:induction false} ParentFuelMonotone(s: Store, l: LinkId, m: Match, fuel: nat)
    requires Valid(s) && l in s.links
    ensures ParentLocation(s, l, m, fuel) != Failure(DepthExhausted) ==>
              ParentLocation(s, l, m, fuel + 1) == ParentLocation(s, l, m, fuel)
    decreases fuel, 0
  {
    if ParentRouteOf(s, l).Some? && fuel > 0 {
      ParentRouteInStore(s, l);
      FuelMonotone(s, ParentRouteOf(s, l).value, m, fuel - 1);
    }
  }

  /** The same for any larger fuel. */
  lemma {:induction false} FuelMonotoneAll(s: Store, r: RecordId, m: Match, fuel: nat, more: nat)
    requires Valid(s) && r in s.records && fuel <= more
    ensures GetLocation(s, r, m, fuel) != Failure(DepthExhausted) ==>
              GetLocation(s, r, m, more) == GetLocation(s, r, m, fuel)
    decreases more - fuel
  {
    if fuel < more {
      FuelMonotone(s, r, m, fuel);
      FuelMonotoneAll(s, r, m, fuel + 1, more);
    }
  }

  /** Two stores that agree on everything `getLocation` reads: the records'
      variants and links, the links' composers, and every chain-following read. */
  ghost predicate SameLocationInputs(s: Store, s': Store)
  {
    && Valid(s) && Valid(s')
    && (forall r :: r in s.records ==>
          && r in s'.records
          && s'.records[r].kind == s.records[r].kind
          && s'.records[r].parentLink == s.records[r].parentLink)
    && (forall l :: l in s.links ==>
          && l in s'.links
          && s'.links[l].composer == s.links[l].composer
          && ParentRouteOf(s', l) == ParentRouteOf(s, l)
          && RootLocationOf(s', l) == RootLocationOf(s, l))
  }

  /** Such stores give every existing record the same location for every match. */
  lemma {:induction false} LocationStable(s: Store, s': Store, r: RecordId, m: Match, fuel: nat)
    requires SameLocationInputs(s, s') && r in s.records
    ensures GetLocation(s', r, m, fuel) == GetLocation(s, r, m, fuel)
    decreases fuel
  {
    var l := s.records[r].parentLink;
    if ParentRouteOf(s, l).Some? {
      ParentRouteInStore(s, l);
      if fuel > 0 {
        LocationStable(s, s', ParentRouteOf(s, l).value, m, fuel - 1);
      }
    }
    assert ParentLocation(s', l, m, fuel) == ParentLocation(s, l, m, fuel);
    SameParentSameLocation(s, s', r, m, fuel);
  }

  /** A record with the same variant, link and composer, over the same parent
      location, has the same location. */
  lemma SameParentSameLocation(s: Store, s': Store, r: RecordId, m: Match, fuel: nat)
    requires Valid(s) && Valid(s') && r in s.records && r in s'.records
    requires s'.records[r].kind == s.records[r].kind && s'.records[r].parentLink == s.records[r].parentLink
    requires s'.links[s.records[r].parentLink].composer == s.links[s.records[r].parentLink].composer
    requires ParentLocation(s', s.records[r].parentLink, m, fuel) == ParentLocation(s, s.records[r].parentLink, m, fuel)
    ensures GetLocation(s', r, m, fuel) == GetLocation(s, r, m, fuel)
  {
  }

  /** Path compression changes no route's location. */
  lemma CompressionPreservesLocations(s: Store, s': Store, r: RecordId, m: Match, fuel: nat)
    requires BuilderLink.Compressed(s, s') && r in s.records
    ensures GetLocation(s', r, m, fuel) == GetLocation(s, r, m, fuel)
  {
    BuilderLink.CompressionPreservesReads(s, s');
    LocationStable(s, s', r, m, fuel);
  }

  /** The parent location as the source reads it: `getParentRoute` and, when
      there is no parent route, `getRootLocation`, each compressing the chain
      it walks, the store threaded from one read to the next. */
  function ParentLocationCompressing(s: Store, l: LinkId, m: Match, fuel: nat): (r: (Result<Location>, Store))
    requires Valid(s) && l in s.links
    ensures r.0 == ParentLocation(s, l, m, fuel)
    ensures BuilderLink.ShortCut(s, r.1)
    ensures s.links[l].state.Inherited? ==> r.1.links[l].state == Inherited(Last(s, l))
    decreases fuel, 1
  {
    var walk := BuilderLink.GetParentRoute(s, l);
    if walk.0.None? then
      RootStep(s, l, m, fuel);
      var root := BuilderLink.GetRootLocation(walk.1, l);
      (Success(root.0), root.1)
    else if fuel == 0 then
      (Failure(DepthExhausted), walk.1)
    else
      ParentLocationVia(s, walk.1, l, walk.0.value, m, fuel, fuel - 1)
  }

  /** `ParentLocationCompressing` once the walk found parent route `p`: the
      parent's own compressing `getLocation`, one unit of fuel spent. */
  function ParentLocationVia(s: Store, s1: Store, l: LinkId, p: RecordId, m: Match, fuel: nat, rest: nat): (r: (Result<Location>, Store))
    requires Valid(s) && l in s.links && ParentRouteOf(s, l) == Some(p) && fuel == rest + 1
    requires BuilderLink.ShortCut(s, s1)
    requires s.links[l].state.Inherited? ==> s1.links[l].state == Inherited(Last(s, l))
    ensures r.0 == ParentLocation(s, l, m, fuel)
    ensures BuilderLink.ShortCut(s, r.1)
    ensures s.links[l].state.Inherited? ==> r.1.links[l].state == Inherited(Last(s, l))
    decreases fuel, 0
  {
    ParentRouteInStore(s, l);
    ParentStep(s, s1, l, p, m, fuel, rest);
    var res := GetLocationCompressing(s1, p, m, rest);
    BuilderLink.ShortCutThen(s, s1, res.1, l);
    res
  }

  /** The root branch of `ParentLocationCompressing`. */
  lemma RootStep(s: Store, l: LinkId, m: Match, fuel: nat)
    requires Valid(s) && l in s.links && ParentRouteOf(s, l).None?
    ensures var s1 := BuilderLink.GetParentRoute(s, l).1;
      && BuilderLink.GetRootLocation(s1, l).0 == ParentLocation(s, l, m, fuel).value
      && ParentLocation(s, l, m, fuel).Success?
      && BuilderLink.ShortCut(s, BuilderLink.GetRootLocation(s1, l).1)
      && (s.links[l].state.Inherited? ==>
            BuilderLink.GetRootLocation(s1, l).1.links[l].state == Inherited(Last(s, l)))
  {
    var s1 := BuilderLink.GetParentRoute(s, l).1;
    BuilderLink.CompressionPreservesReads(s, s1);
    BuilderLink.ShortCutThen(s, s1, BuilderLink.GetRootLocation(s1, l).1, l);
  }

  /** The parent-route branch of `ParentLocationCompressing`: its answer, read
      on the compressed store with one unit of fuel spent, is the reference
      parent location. */
  lemma ParentStep(s: Store, s1: Store, l: LinkId, p: RecordId, m: Match, fuel: nat, rest: nat)
    requires Valid(s) && l in s.links && ParentRouteOf(s, l) == Some(p) && p in s.records && fuel == rest + 1
    requires BuilderLink.Compressed(s, s1)
    ensures p in s1.records && GetLocation(s1, p, m, rest) == ParentLocation(s, l, m, fuel)
  {
    ParentLocationUnfolds(s, l, p, m, fuel, rest);
    CompressionPreservesLocations(s, s1, p, m, rest);
  }

  lemma ParentLocationUnfolds(s: Store, l: LinkId, p: RecordId, m: Match, fuel: nat, rest: nat)
    requires Valid(s) && l in s.links && ParentRouteOf(s, l) == Some(p) && p in s.records && fuel == rest + 1
    ensures ParentLocation(s, l, m, fuel) == GetLocation(s, p, m, rest)
  {
  }

  /** `getLocation(match)` as the source performs it, compressions included:
      it answers what the reference `GetLocation` answers on the store it
      started from, and leaves behind a store in which only short-cuts were
      taken, the record's own link now pointing straight at its chain's end. */
  function GetLocationCompressing(s: Store, r: RecordId, m: Match, fuel: nat): (res: (Result<Location>, Store))
    requires Valid(s) && r in s.records
    ensures res.0 == GetLocation(s, r, m, fuel)
    ensures BuilderLink.ShortCut(s, res.1)
    ensures !Accepts(s.records[r].kind, m) ==> res.1 == s
    ensures Accepts(s.records[r].kind, m) && s.links[s.records[r].parentLink].state.Inherited? ==>
              res.1.links[s.records[r].parentLink].state == Inherited(Last(s, s.records[r].parentLink))
    decreases fuel, 2
  {
    var rec := s.records[r];
    if !Accepts(rec.kind, m) then
      (Failure(if rec.kind.Wildcard? then NotAString else InvariantFailure), s)
    else
      var (base, s1) := ParentLocationCompressing(s, rec.parentLink, m, fuel);
      match base
      case Failure(e) => (Failure(e), s1)
      case Success(b) => (Success(Compose(s.links[rec.parentLink].composer, b, ComposedValue(rec.kind, m))), s1)
  }

  /** Compression stays invisible across an attach as long as the attached
      link is not inherited. The evidently intended guard of `attachToParent`,
      refusing any link whose lifecycle state is not `unattached`, would
      ensure this; the commented-out line compares the whole state object
      with the string "unattached" and so, restored as written, would refuse
      every attach, the first one included. */
  lemma AttachKeepsCompressionInvisible(s: Store, s1: Store, l: LinkId, route: RecordId, r: RecordId, m: Match, fuel: nat)
    requires BuilderLink.Compressed(s, s1) && l in s.links && route in s.records && r in s.records
    requires !s.links[l].state.Inherited?
    ensures GetLocation(BuilderLink.AttachToParent(s1, l, route), r, m, fuel)
         == GetLocation(BuilderLink.AttachToParent(s, l, route), r, m, fuel)
  {
    BuilderLink.AttachAfterCompression(s, s1, l, route);
    CompressionPreservesLocations(BuilderLink.AttachToParent(s, l, route), BuilderLink.AttachToParent(s1, l, route), r, m, fuel);
  }

  /** Forking a link leaves the location of every existing route as it was:
      routes handed out before the fork keep resolving the same way. */
  lemma InheritPreservesLocations(s: Store, l: LinkId, r: RecordId, m: Match, fuel: nat)
    requires Valid(s) && l in s.links && !s.links[l].state.Inherited? && r in s.records
    ensures LinkInheritance.Inherit(s, l).Success?
    ensures GetLocation(LinkInheritance.Inherit(s, l).value.0, r, m, fuel) == GetLocation(s, r, m, fuel)
  {
    var s' := LinkInheritance.Inherit(s, l).value.0;
    LinkInheritance.InheritPreservesReads(s, l);
    assert RecordsFixed(s, s');
    forall k | k in s.links
      ensures k in s'.links && s'.links[k].composer == s.links[k].composer
    {
    }
    LocationStable(s, s', r, m, fuel);
  }
}
