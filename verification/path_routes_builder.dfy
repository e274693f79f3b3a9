/** The path routes builder: a table of normal routes keyed by path segment
    plus an optional wildcard slot. Every declaring operation forks the
    builder's link and returns a new builder; the old one stays usable only
    when its link was not attached. */
module PathRoutesBuilder {
  import opened Values
  import opened LocationComposer
  import opened RouteGraph
  import BuilderLink
  import RouteRecordBase
  import LinkInheritance
  import RouteLocation

  /** One entry of a routes definition object: a key and its optional action. */
  datatype RouteDef = RouteDef(key: string, action: Option<ActionRef>)

  /** The keys of a routes definition. */
  function DefKeys(defs: seq<RouteDef>): (ks: set<string>)
    ensures forall i :: 0 <= i < |defs| ==> defs[i].key in ks
    ensures forall k :: k in ks ==> exists i :: 0 <= i < |defs| && defs[i].key == k
  {
    set i | 0 <= i < |defs| :: defs[i].key
  }

  /** The action the definition gives `key`: its last entry for `key` wins,
      as with duplicate keys in an object literal. */
  function DefAction(defs: seq<RouteDef>, key: string): Option<ActionRef>
    requires key in DefKeys(defs)
  {
    if defs[|defs| - 1].key == key then defs[|defs| - 1].action
    else
      assert key in DefKeys(defs[..|defs| - 1]) by {
        var i :| 0 <= i < |defs| && defs[i].key == key;
        assert defs[..|defs| - 1][i] == defs[i];
      }
      DefAction(defs[..|defs| - 1], key)
  }

  /** The private constructor: the builder registers itself with its link.
      Its fields are filled in before it is handed out, so the registered
      builder is the finished one. */
  function NewBuilder(s: Store, b: Builder): (s': Store)
    requires Valid(s) && ValidBuilder(s, b)
    ensures Valid(s') && Grows(s, s') && RecordsFixed(s, s') && BuilderLink.SameStates(s, s')
    ensures s'.links[b.link].childBuilder == Some(b)
    ensures s'.links.Keys == s.links.Keys && s'.records == s.records
    ensures forall k :: k in s.links ==> s'.links[k].composer == s.links[k].composer
    ensures forall k :: k in s.links && k != b.link ==> s'.links[k] == s.links[k]
  {
    BuilderLink.Register(s, b.link, b)
  }

  /** `PathRoutesBuilder.init`: a fresh unattached link with the path composer
      and the given root location, owned by an empty builder. The path
      composer's body is not part of this model; it enters as `pathCompose`. */
  function Init(s: Store, pathCompose: (Location, Value) -> Location, root: Location): (r: (Store, Builder))
    requires Valid(s)
    ensures Valid(r.0) && Grows(s, r.0) && RecordsFixed(s, r.0)
    ensures ValidBuilder(r.0, r.1) && r.1.link !in s.links
    ensures r.1.routes == map[] && r.1.wildcard == None
    ensures r.0.links[r.1.link].state == Unattached
    ensures r.0.links[r.1.link].composer == ExternalComposer(pathCompose)
    ensures r.0.links[r.1.link].root == root
    ensures r.0.links[r.1.link].childBuilder == Some(r.1)
  {
    var (s1, l) := BuilderLink.Init(s, ExternalComposer(pathCompose), root);
    var b := PathBuilder(l, map[], None);
    (NewBuilder(s1, b), b)
  }

  /** `PathRoutesBuilder.attachTo(route)`: a new builder attached below `route`. */
  function AttachTo(s: Store, route: RecordId, pathCompose: (Location, Value) -> Location, root: Location): (r: (Store, Builder))
    requires Valid(s) && route in s.records
    ensures Valid(r.0) && Grows(s, r.0) && RecordsFixed(s, r.0)
    ensures ValidBuilder(r.0, r.1) && r.1.link !in s.links
    ensures r.1.routes == map[] && r.1.wildcard == None
    ensures r.0.links[r.1.link].state == Attached(route)
    ensures ParentRouteOf(r.0, r.1.link) == Some(route)
    ensures RouteRecordBase.GetAttachedBuilder(r.0, route) == Some(BuilderObject(r.1))
  {
    var (s1, b) := Init(s, pathCompose, root);
    var (s2, a) := RouteRecordBase.Attach(s1, route, BuilderObject(b));
    ValidBuilderGrows(s1, s2, b);
    (s2, b)
  }

  /** Create one normal record per definition, in order, into `table`. */
  function AddRoutes(s: Store, parentLink: LinkId, defs: seq<RouteDef>, table: map<string, RecordId>): (r: (Store, map<string, RecordId>))
    requires Valid(s) && parentLink in s.links
    requires forall k :: k in table ==> table[k] in s.records
    ensures Valid(r.0) && Grows(s, r.0) && RecordsFixed(s, r.0)
    ensures r.0.links == s.links
    ensures forall q :: q in s.records ==> r.0.records[q] == s.records[q]
    ensures r.1.Keys == table.Keys + DefKeys(defs)
    ensures forall k :: k in r.1 ==> r.1[k] in r.0.records
    ensures forall k :: k in table && k !in DefKeys(defs) ==> r.1[k] == table[k]
    ensures forall k :: k in DefKeys(defs) ==>
              && r.1[k] !in s.records
              && r.0.records[r.1[k]] == Record(Normal(k), DefAction(defs, k), parentLink, None)
    decreases |defs|
  {
    if defs == [] then (s, table)
    else
      var init := defs[..|defs| - 1];
      var d := defs[|defs| - 1];
      var (s1, t1) := AddRoutes(s, parentLink, init, table);
      var (s2, id) := RouteRecordBase.NewRecord(s1, Normal(d.key), d.action, parentLink);
      var t2 := t1[d.key := id];
      DefKeysSnoc(defs);
      GrowsTrans(s, s1, s2);
      RecordsFixedTrans(s, s1, s2);
      AddRoutesKeptRecords(s, s1, s2);
      AddRoutesTable(defs, table, t1, t2, id);
      AddRoutesNewRecords(s, s1, s2, parentLink, defs, t1, t2, id);
      (s2, t2)
  }

  lemma AddRoutesKeptRecords(s: Store, s1: Store, s2: Store)
    requires s.records.Keys <= s1.records.Keys <= s2.records.Keys
    requires forall q :: q in s.records ==> s1.records[q] == s.records[q]
    requires forall q :: q in s1.records ==> s2.records[q] == s1.records[q]
    ensures forall q :: q in s.records ==> q in s2.records && s2.records[q] == s.records[q]
  {
    forall q | q in s.records
      ensures q in s2.records && s2.records[q] == s.records[q]
    {
      assert q in s1.records;
    }
  }

  lemma AddRoutesTable(defs: seq<RouteDef>, table: map<string, RecordId>, t1: map<string, RecordId>, t2: map<string, RecordId>, id: RecordId)
    requires defs != []
    requires DefKeys(defs) == DefKeys(defs[..|defs| - 1]) + {defs[|defs| - 1].key}
    requires t1.Keys == table.Keys + DefKeys(defs[..|defs| - 1])
    requires forall k :: k in table && k !in DefKeys(defs[..|defs| - 1]) ==> t1[k] == table[k]
    requires t2 == t1[defs[|defs| - 1].key := id]
    ensures t2.Keys == table.Keys + DefKeys(defs)
    ensures forall k :: k in table && k !in DefKeys(defs) ==> t2[k] == table[k]
  {
  }

  lemma AddRoutesNewRecords(s: Store, s1: Store, s2: Store, parentLink: LinkId, defs: seq<RouteDef>,
                            t1: map<string, RecordId>, t2: map<string, RecordId>, id: RecordId)
    requires defs != []
    requires DefKeys(defs) == DefKeys(defs[..|defs| - 1]) + {defs[|defs| - 1].key}
    requires s.records.Keys <= s1.records.Keys
    requires forall q :: q in s1.records ==> q in s2.records && s2.records[q] == s1.records[q]
    requires forall k :: k in DefKeys(defs[..|defs| - 1]) ==>
               && k in t1 && t1[k] !in s.records && t1[k] in s1.records
               && s1.records[t1[k]] == Record(Normal(k), DefAction(defs[..|defs| - 1], k), parentLink, None)
    requires id !in s1.records && id in s2.records
    requires s2.records[id] == Record(Normal(defs[|defs| - 1].key), defs[|defs| - 1].action, parentLink, None)
    requires t2 == t1[defs[|defs| - 1].key := id]
    ensures forall k :: k in DefKeys(defs) ==>
              && k in t2 && t2[k] !in s.records
              && s2.records[t2[k]] == Record(Normal(k), DefAction(defs, k), parentLink, None)
  {
    var init := defs[..|defs| - 1];
    var d := defs[|defs| - 1];
    forall k | k in DefKeys(defs)
      ensures k in t2 && t2[k] !in s.records && s2.records[t2[k]] == Record(Normal(k), DefAction(defs, k), parentLink, None)
    {
      if k != d.key {
        assert k in DefKeys(init);
        assert t2[k] == t1[k];
        assert DefAction(defs, k) == DefAction(init, k);
      } else {
        assert DefAction(defs, k) == d.action;
      }
    }
  }

  lemma DefKeysSnoc(defs: seq<RouteDef>)
    requires defs != []
    ensures DefKeys(defs) == DefKeys(defs[..|defs| - 1]) + {defs[|defs| - 1].key}
  {
    var init := defs[..|defs| - 1];
    forall k | k in DefKeys(defs)
      ensures k in DefKeys(init) + {defs[|defs| - 1].key}
    {
      var i :| 0 <= i < |defs| && defs[i].key == k;
      if i < |defs| - 1 {
        assert init[i] == defs[i];
      }
    }
  }

  /** The common start of `routes` and `any`: `checkInvalidation`, then
      `inherit` on the builder's link. The fork always succeeds once the check
      has passed; afterwards the old link is invalidated exactly when it was
      attached, and the new link is usable. */
  function Fork(s: Store, b: Builder): (r: Result<(Store, LinkId)>)
    requires Valid(s) && ValidBuilder(s, b)
    ensures r.Failure? <==> s.links[b.link].state.Inherited?
    ensures r.Failure? ==> r.error == Invalidated
    ensures r.Success? ==> Valid(r.value.0) && Grows(s, r.value.0) && RecordsFixed(s, r.value.0)
    ensures r.Success? ==> ValidBuilder(r.value.0, b)
    ensures r.Success? ==> r.value.1 !in s.links && r.value.1 in r.value.0.links
    ensures r.Success? ==> r.value.0.links[r.value.1].composer == s.links[b.link].composer
    ensures r.Success? ==> !r.value.0.links[r.value.1].state.Inherited?
    ensures r.Success? ==> (r.value.0.links[b.link].state.Inherited? <==> s.links[b.link].state.Attached?)
  {
    match BuilderLink.CheckInvalidation(s, b.link)
    case Fail(e) => Failure(e)
    case Pass =>
      var (s1, l) := LinkInheritance.Inherit(s, b.link).value;
      ValidBuilderGrows(s, s1, b);
      Success((s1, l))
  }

  /** `routes(defs)`: refuse an invalidated builder; otherwise fork the link
      and return a builder whose table is the old one overridden by a new
      normal record per defined key, created by (and parented at the link of)
      this builder, with the wildcard slot carried over. */
  function Routes(s: Store, b: Builder, defs: seq<RouteDef>): (r: Result<(Store, Builder)>)
    requires Valid(s) && ValidBuilder(s, b)
    ensures r.Failure? <==> s.links[b.link].state.Inherited?
    ensures r.Failure? ==> r.error == Invalidated
    ensures r.Success? ==>
              var (s', b') := r.value;
              && Valid(s') && Grows(s, s') && RecordsFixed(s, s')
              && ValidBuilder(s', b') && b'.link !in s.links
    ensures r.Success? ==>
              var (s', b') := r.value;
              && b'.routes.Keys == b.routes.Keys + DefKeys(defs)
              && (forall k :: k in b.routes && k !in DefKeys(defs) ==> b'.routes[k] == b.routes[k])
              && (forall k :: k in DefKeys(defs) ==>
                    && b'.routes[k] !in s.records
                    && s'.records[b'.routes[k]].kind == Normal(k)
                    && s'.records[b'.routes[k]].action == DefAction(defs, k)
                    && s'.records[b'.routes[k]].parentLink == b.link
                    && s'.records[b'.routes[k]].attached == None)
              && b'.wildcard == b.wildcard
    ensures r.Success? ==>
              var (s', b') := r.value;
              && s'.links[b'.link].childBuilder == Some(b')
              && s'.links[b'.link].composer == s.links[b.link].composer
              && (BuilderLink.CheckInvalidation(s', b.link).Fail? <==> s.links[b.link].state.Attached?)
              && BuilderLink.CheckInvalidation(s', b'.link).Pass?
  {
    var (s1, l) :- Fork(s, b);
    var (s2, table) := AddRoutes(s1, b.link, defs, b.routes);
    var result := PathBuilder(l, table, b.wildcard);
    ValidBuilderGrows(s1, s2, b);
    var s3 := NewBuilder(s2, result);
    GrowsTrans(s, s1, s2);
    GrowsTrans(s, s2, s3);
    RecordsFixedTrans(s, s1, s2);
    RecordsFixedTrans(s, s2, s3);
    Success((s3, result))
  }

  /** `any(key, def)`: refuse an invalidated builder; otherwise fork the link
      and return a builder with the same table and a new wildcard record,
      binding `key`, in the wildcard slot. */
  function Any(s: Store, b: Builder, key: string, action: Option<ActionRef>): (r: Result<(Store, Builder)>)
    requires Valid(s) && ValidBuilder(s, b)
    ensures r.Failure? <==> s.links[b.link].state.Inherited?
    ensures r.Failure? ==> r.error == Invalidated
    ensures r.Success? ==>
              var (s', b') := r.value;
              && Valid(s') && Grows(s, s') && RecordsFixed(s, s')
              && ValidBuilder(s', b') && b'.link !in s.links
    ensures r.Success? ==>
              var (s', b') := r.value;
              && b'.routes == b.routes
              && b'.wildcard.Some? && b'.wildcard.value.matchKey == key
              && b'.wildcard.value.route !in s.records
              && s'.records[b'.wildcard.value.route] == Record(Wildcard(key), action, b.link, None)
    ensures r.Success? ==>
              var (s', b') := r.value;
              && s'.links[b'.link].childBuilder == Some(b')
              && (BuilderLink.CheckInvalidation(s', b.link).Fail? <==> s.links[b.link].state.Attached?)
              && BuilderLink.CheckInvalidation(s', b'.link).Pass?
  {
    var (s1, l) :- Fork(s, b);
    var (s2, w) := RouteRecordBase.NewRecord(s1, Wildcard(key), action, b.link);
    ValidBuilderGrows(s1, s2, b);
    var result := PathBuilder(l, b.routes, Some(WildcardSlot(key, w)));
    var s3 := NewBuilder(s2, result);
    GrowsTrans(s, s1, s2);
    GrowsTrans(s, s2, s3);
    RecordsFixedTrans(s, s1, s2);
    RecordsFixedTrans(s, s2, s3);
    Success((s3, result))
  }

  /** The keys of the object `getRoutes` returns: the route names, plus the
      wildcard symbol. */
  datatype RouteKey = Named(name: string) | WildcardKey

  datatype RouteEntry = RouteEntry(route: RecordId) | WildcardEntry(slot: WildcardSlot)

  /** `getRoutes`: refuse an invalidated builder; otherwise the table, with the
      wildcard slot under the wildcard symbol when it is set. */
  function GetRoutes(s: Store, b: Builder): (r: Result<map<RouteKey, RouteEntry>>)
    requires b.link in s.links
    ensures r.Failure? <==> s.links[b.link].state.Inherited?
    ensures r.Failure? ==> r.error == Invalidated
    ensures r.Success? ==> forall name :: Named(name) in r.value <==> name in b.routes
    ensures r.Success? ==> forall name :: name in b.routes ==> r.value[Named(name)] == RouteEntry(b.routes[name])
    ensures r.Success? ==> (WildcardKey in r.value <==> b.wildcard.Some?)
    ensures r.Success? && b.wildcard.Some? ==> r.value[WildcardKey] == WildcardEntry(b.wildcard.value)
  {
    match BuilderLink.CheckInvalidation(s, b.link)
    case Fail(e) => Failure(e)
    case Pass =>
      var named := map k | k in b.routes :: Named(k) := RouteEntry(b.routes[k]);
      match b.wildcard
      case Some(w) => Success(named[WildcardKey := WildcardEntry(w)])
      case None => Success(named)
  }

  /** The segment resolver `getResolver` builds: an exact route first, then
      the wildcard route, else nothing. */
  function ResolveSegment(b: Builder, segment: string): (res: Option<SegmentMatch>)
    ensures res.Some? && res.value.NormalMatch? ==> segment in b.routes && res.value.route == b.routes[segment]
    ensures res.Some? && res.value.WildcardMatch? ==>
              segment !in b.routes && b.wildcard.Some? && res.value.route == b.wildcard.value.route
    ensures res.None? ==> segment !in b.routes && b.wildcard.None?
  {
    if segment in b.routes then Some(NormalMatch(b.routes[segment]))
    else match b.wildcard
      case Some(w) => Some(WildcardMatch(w.route))
      case None => None
  }

  /** Precedence of the segment resolver: a defined segment always resolves to
      its own route, even when a wildcard is set; any other segment resolves
      to the wildcard route if there is one; nothing else resolves; and a
      segment resolves to a normal route only if it is defined. */
  lemma ResolveSegmentPrecedence(b: Builder, segment: string)
    ensures segment in b.routes ==> ResolveSegment(b, segment) == Some(NormalMatch(b.routes[segment]))
    ensures segment !in b.routes && b.wildcard.Some? ==>
              ResolveSegment(b, segment) == Some(WildcardMatch(b.wildcard.value.route))
    ensures ResolveSegment(b, segment) == None <==> segment !in b.routes && b.wildcard.None?
    ensures ResolveSegment(b, segment).Some? && ResolveSegment(b, segment).value.NormalMatch? <==> segment in b.routes
  {
  }

  /** `getResolver` of the builder: refuse an invalidated builder; otherwise a
      resolver over the link's composer and this builder's segment resolver. */
  function GetResolver(s: Store, b: Builder): (r: Result<Resolver>)
    requires b.link in s.links
    ensures r.Failure? <==> s.links[b.link].state.Inherited?
    ensures r.Success? ==> r.value.composer == s.links[b.link].composer
    ensures r.Success? ==> forall seg :: r.value.resolveSegment(seg) == ResolveSegment(b, seg)
  {
    BuilderLink.GetResolver(s, b.link, seg => ResolveSegment(b, seg))
  }

  /** After `routes`, the new builder resolves every defined segment to the
      route just created for it, and every other segment as the old builder did. */
  lemma RoutesResolution(s: Store, b: Builder, defs: seq<RouteDef>, segment: string)
    requires Valid(s) && ValidBuilder(s, b) && Routes(s, b, defs).Success?
    ensures segment in DefKeys(defs) ==>
              ResolveSegment(Routes(s, b, defs).value.1, segment) == Some(NormalMatch(Routes(s, b, defs).value.1.routes[segment]))
    ensures segment !in DefKeys(defs) ==>
              ResolveSegment(Routes(s, b, defs).value.1, segment) == ResolveSegment(b, segment)
  {
  }

  /** After `any`, the new builder resolves every segment that has a normal
      route as before, and every other segment to the wildcard record just
      created. */
  lemma AnyResolution(s: Store, b: Builder, key: string, action: Option<ActionRef>, segment: string)
    requires Valid(s) && ValidBuilder(s, b) && Any(s, b, key, action).Success?
    ensures segment in b.routes ==>
              ResolveSegment(Any(s, b, key, action).value.1, segment) == ResolveSegment(b, segment)
    ensures segment !in b.routes ==>
              ResolveSegment(Any(s, b, key, action).value.1, segment) ==
                Some(WildcardMatch(Any(s, b, key, action).value.1.wildcard.value.route))
  {
  }

  /** `getRoutes` and the segment resolver agree: a name is listed exactly
      when it resolves to a normal route, and then to the listed route; the
      wildcard entry is listed exactly when an unlisted name resolves to it. */
  lemma GetRoutesAgreesWithResolver(s: Store, b: Builder, name: string)
    requires b.link in s.links && GetRoutes(s, b).Success?
    ensures Named(name) in GetRoutes(s, b).value <==>
              ResolveSegment(b, name).Some? && ResolveSegment(b, name).value.NormalMatch?
    ensures Named(name) in GetRoutes(s, b).value ==>
              ResolveSegment(b, name) == Some(NormalMatch(GetRoutes(s, b).value[Named(name)].route))
    ensures Named(name) !in GetRoutes(s, b).value ==>
              (ResolveSegment(b, name).Some? <==> WildcardKey in GetRoutes(s, b).value)
    ensures Named(name) !in GetRoutes(s, b).value && WildcardKey in GetRoutes(s, b).value ==>
              ResolveSegment(b, name) == Some(WildcardMatch(GetRoutes(s, b).value[WildcardKey].slot.route))
  {
  }

  /** Fork independence: `routes` and `any` leave the location of every route
      that existed before unchanged, so routes handed out by the old builder
      stay valid. */
  lemma RoutesPreservesLocations(s: Store, b: Builder, defs: seq<RouteDef>, r: RecordId, m: RouteLocation.Match, fuel: nat)
    requires Valid(s) && ValidBuilder(s, b) && Routes(s, b, defs).Success? && r in s.records
    ensures RouteLocation.GetLocation(Routes(s, b, defs).value.0, r, m, fuel) == RouteLocation.GetLocation(s, r, m, fuel)
  {
    var (s1, l) := LinkInheritance.Inherit(s, b.link).value;
    RouteLocation.InheritPreservesLocations(s, b.link, r, m, fuel);
    ValidBuilderGrows(s, s1, b);
    var (s2, table) := AddRoutes(s1, b.link, defs, b.routes);
    LocationStableUnderSameStates(s1, s2, r, m, fuel);
    LocationStableUnderSameStates(s2, Routes(s, b, defs).value.0, r, m, fuel);
  }

  lemma AnyPreservesLocations(s: Store, b: Builder, key: string, action: Option<ActionRef>, r: RecordId, m: RouteLocation.Match, fuel: nat)
    requires Valid(s) && ValidBuilder(s, b) && Any(s, b, key, action).Success? && r in s.records
    ensures RouteLocation.GetLocation(Any(s, b, key, action).value.0, r, m, fuel) == RouteLocation.GetLocation(s, r, m, fuel)
  {
    var (s1, l) := LinkInheritance.Inherit(s, b.link).value;
    RouteLocation.InheritPreservesLocations(s, b.link, r, m, fuel);
    var (s2, w) := RouteRecordBase.NewRecord(s1, Wildcard(key), action, b.link);
    LocationStableUnderSameStates(s1, s2, r, m, fuel);
    LocationStableUnderSameStates(s2, Any(s, b, key, action).value.0, r, m, fuel);
  }

  /** A step that keeps every link's lifecycle state, root and composer, and
      every record's variant and link, keeps every location. */
  lemma LocationStableUnderSameStates(s: Store, s': Store, r: RecordId, m: RouteLocation.Match, fuel: nat)
    requires Valid(s) && Valid(s') && BuilderLink.SameStates(s, s') && RecordsFixed(s, s') && r in s.records
    requires forall k :: k in s.links ==> s'.links[k].composer == s.links[k].composer
    ensures RouteLocation.GetLocation(s', r, m, fuel) == RouteLocation.GetLocation(s, r, m, fuel)
  {
    BuilderLink.ReadsStable(s, s');
    assert RouteLocation.SameLocationInputs(s, s');
    RouteLocation.LocationStable(s, s', r, m, fuel);
  }
}
