# rocon routes-builder core, modelled in Dafny

This project models the core of the rocon router's route builders. It covers
five parts:

- **Builder links.** A builder link is the lifecycle node behind every routes
  builder. It starts `unattached`. It becomes `attached` to a parent route,
  and it becomes `inherited` once it has been forked into a new link.
- **Route records.** A route record holds an action and the builder attached
  below it. Its `getLocation` builds the location of a wildcard or matching
  route from a match object.
- **The keyed-state location composer.** It composes a value into a location's
  state and decomposes it out again.
- **The path routes builder.** `routes`, `any`, `getRoutes`, `getResolver`,
  `init` and `attachTo` create the builder and declare its routes. Every
  declaring operation returns a new builder over a forked link.
- **The invalidation discipline.** Operations on a builder whose link was
  forked while attached are refused.

## Store and values

The object graph is mutable and shared, so it is kept in one immutable
`RouteGraph.Store`. The store holds links and records by identity, plus
counters for fresh identities. Every operation is a pure function from a
store to a new store. A path routes builder never changes after it is
handed out, so it is a plain value: its link, its route table and its
wildcard slot.

Chain-following reads (`getParentRoute`, `getRootLocation`) compress the
inheritance chain as they walk it. `RouteGraph.Last` is the non-compressing
reference. On the store a compression leaves behind, every read and every
route's location is what it was on the store before. `RouteLocation.GetLocation`
is the non-compressing reference for a route's location.
`RouteLocation.GetLocationCompressing` is the walk as the source performs
it. It threads the rewritten store through every read and is proved to
answer what the reference answers.

Compression is not invisible to what comes after it. `attachToParent`
accepts a link that was already inherited, which makes that link a chain end
again. A link that an earlier walk pointed past it no longer reaches it.
`CompressionVisibility.CompressionVisibleAfterReattach` gives a store on
which the same attach leaves a route at two different locations, depending
on whether that route's location was read before. The evidently intended
guard of `attachToParent`, refusing a link whose lifecycle state is not
`unattached`, would rule this out. The commented-out line
(src/RoutesBuilder/index.ts:52) compares the state object itself with the
string `"unattached"`. Restored as written, it would refuse every attach,
the first one included.
`RouteLocation.AttachKeepsCompressionInvisible` proves that attaching a link
that is not inherited keeps compression invisible.

After an attached link is forked, its parent route reports the new bare
link as its attached object, not a builder. `inherit` passes the link itself
to `attach` (src/RoutesBuilder/index.ts:137). `LinkInheritance.Inherit`
states this as `LinkObject` in the route's `attached` field.

Thrown errors are `Failure` values of `Values.Result`, or `Fail` outcomes of
a check.

## Model

| member | source | states |
|---|---|---|
| StateLocationComposer.IsLeaf | src/LocationComposer/StateLocationComposer/index.ts:13-16 | a location is a leaf exactly when its state has nothing, or `undefined`, under the composer's key |
| StateLocationComposer.Compose | src/LocationComposer/StateLocationComposer/index.ts:17-31 | the path is kept; the state gains exactly the key, which holds the new value; every other entry is kept |
| StateLocationComposer.Without | src/LocationComposer/StateLocationComposer/index.ts:43-50 | the residual location keeps the path and every state entry except the key |
| StateLocationComposer.Decompose | src/LocationComposer/StateLocationComposer/index.ts:32-53 | at most one candidate; none exactly when the key holds `undefined` or a value the validator refuses; otherwise the stored value paired with the location without the key |
| StateLocationComposer.ComposeLastWriteWins | src/LocationComposer/StateLocationComposer/index.ts:22-25 | a second compose under the same key overwrites the first |
| StateLocationComposer.ComposeIdempotent | src/LocationComposer/StateLocationComposer/index.ts:17-31 | composing the same value twice equals composing it once |
| StateLocationComposer.RoundTrip | src/LocationComposer/StateLocationComposer/index.ts:17-53 | decompose after compose returns the composed value, with the base location less the key |
| StateLocationComposer.RoundTripFresh | src/LocationComposer/StateLocationComposer/index.ts:17-53 | when the base does not use the key, the residual is the base itself |
| StateLocationComposer.DecomposeThenCompose | src/LocationComposer/StateLocationComposer/index.ts:17-53 | composing a decomposed value back onto its residual rebuilds the original location |
| StateLocationComposer.ResidualIsLeaf | src/LocationComposer/StateLocationComposer/index.ts:13-53 | every residual is a leaf and yields no further candidate |
| StateLocationComposer.LeafDecomposesToNothing | src/LocationComposer/StateLocationComposer/index.ts:13-40 | a leaf location yields no candidate, whatever the validator |
| RouteRecordBase.NewRecord | src/RouteBuilder/RouteRecord/RouteRecordBase.ts:24-28 | a fresh record with the given action and no attached builder; nothing else changes |
| RouteRecordBase.Attach | src/RouteBuilder/RouteRecord/RouteRecordBase.ts:33-41 | returns its argument; the record now reports it as attached; its link is attached to the record; no other link or record changes |
| RouteRecordBase.GetAttachedBuilder | src/RouteBuilder/RouteRecord/RouteRecordBase.ts:50-52 | an attached object is a builder or link of the store |
| RouteRecordBase.AttachLastWins | src/RouteBuilder/RouteRecord/RouteRecordBase.ts:33-41 | attaching twice is allowed and the second builder is the one reported |
| RouteRecordBase.AttachKeepsAction | src/RouteBuilder/RouteRecord/RouteRecordBase.ts:24-28 | attach leaves every record's action and variant unchanged |
| RouteLocation.GetLocation | src/RouteRecord/WildcardRouteRecord.ts:38-46 | the wildcard `getLocation` and the matching one (src/RouteBuilder/RouteRecord/MatchingRouteRecord.ts:48-58) as one reference: a route whose own check refuses the match fails with that route's error (a wildcard's string assertion, a matching route's invariant failure); a location is found only when the check passes, and under a keyed-state composer it holds the route's composed value under the key |
| RouteLocation.GetLocationCompressing | src/RouteBuilder/RouteRecord/MatchingRouteRecord.ts:48-58 | the location read as the source reads it, compressing as it goes, equals the reference location on the starting store; a match the route's own check refuses leaves the store untouched, since the check throws before any link is read; the store it leaves is a short-cut of the old one, with the route's own link pointing straight at its chain end |
| RouteLocation.ParentLocationCompressing | src/RoutesBuilder/index.ts:90-97 | the parent location read through the compressing `getParentRoute` and `getRootLocation` equals the reference parent location; the store left is a short-cut, with the link pointing straight at its chain end |
| RouteLocation.AttachKeepsCompressionInvisible | src/RoutesBuilder/index.ts:50-59 | once the attached link is not an inherited one, attaching after a compression gives every route the location it gets from attaching without it |
| CompressionVisibility.CompressionVisibleAfterReattach | src/RoutesBuilder/index.ts:50-74 | attaching an inherited link gives a route one location when nothing was walked before and another after a compressing read of that route |
| RouteLocation.FuelMonotone | src/RouteBuilder/RouteRecord/MatchingRouteRecord.ts:48-58 | one more unit of fuel changes no answer other than `DepthExhausted` |
| RouteLocation.FuelMonotoneAll | src/RouteBuilder/RouteRecord/MatchingRouteRecord.ts:48-58 | any larger fuel changes no answer other than `DepthExhausted` |
| RouteLocation.WildcardLocation | src/RouteRecord/WildcardRouteRecord.ts:38-46 | a non-string match value fails the string assertion before anything else; otherwise the string is composed, with the link's composer, onto the parent location |
| RouteLocation.MatchingLocation | src/RouteBuilder/RouteRecord/MatchingRouteRecord.ts:48-58 | a value the validator rejects is an invariant failure, whatever the parents give; otherwise the value is composed onto the parent location |
| RouteLocation.OnlyOwnEntryComposed | src/RouteRecord/WildcardRouteRecord.ts:38-46 | two matches that agree on the record's own entry and on the parent location give the same location |
| RouteLocation.LocationDecomposes | src/RouteBuilder/RouteRecord/MatchingRouteRecord.ts:48-58 | with a keyed-state composer, decomposing a route's location gives back the matched value and the parent location less the key |
| RouteLocation.LocationStable | src/RouteRecord/WildcardRouteRecord.ts:42-45 | two stores that agree on record variants, composers and chain reads give every route the same location |
| RouteLocation.CompressionPreservesLocations | src/RoutesBuilder/index.ts:70-74 | the short-cut rewrite of inheritor pointers changes no route's location |
| RouteLocation.InheritPreservesLocations | src/RoutesBuilder/index.ts:126-149 | forking a link changes no existing route's location |
| RouteGraph.Last | src/RoutesBuilder/index.ts:64-82 | the end of a chain is in the store, is not inherited, is ranked at least as high, and is the link itself when that is not inherited |
| RouteGraph.InheritedReadsForward | src/RoutesBuilder/index.ts:70-74 | an inherited link reads exactly like its inheritor |
| RouteGraph.ParentRouteInStore | src/RoutesBuilder/index.ts:90-93 | a parent route found at a chain's end is a record of the store |
| BuilderLink.Init | src/RoutesBuilder/index.ts:23-44 | a fresh unattached link with the given composer and root, ranked above every existing link; nothing else changes |
| BuilderLink.AttachToParent | src/RoutesBuilder/index.ts:50-59 | the link becomes attached to the route whatever its state; its parent route now reads as that route; nothing else changes |
| BuilderLink.FollowInheritanceChain | src/RoutesBuilder/index.ts:64-82 | returns the chain end of the reference walk; the new store is a compression of the old; every inherited link on the walked chain now points straight at the end, and every other link is exactly as it was |
| BuilderLink.Redirect | src/RoutesBuilder/index.ts:73 | the short-cut assignment: only the one link's inheritor changes; its other fields, every other link, and the records are kept |
| BuilderLink.LastStable | src/RoutesBuilder/index.ts:64-82 | chain ends depend only on the lifecycle states along the chain |
| BuilderLink.RedirectToLastCompresses | src/RoutesBuilder/index.ts:72-73 | pointing an inherited link at its chain end is a compression |
| BuilderLink.CompressionPreservesReads | src/RoutesBuilder/index.ts:64-97 | after compression every link reads the same parent route and root location |
| BuilderLink.FollowShortCuts | src/RoutesBuilder/index.ts:70-74 | one walk only short-cuts: every link keeps its record or now points at its own chain end |
| BuilderLink.ShortCutTrans | src/RoutesBuilder/index.ts:70-74 | short-cuts compose: a short-cut of a short-cut is a short-cut of the first store |
| BuilderLink.AttachAfterCompression | src/RoutesBuilder/index.ts:50-59 | attaching a link that is not inherited after a compression gives a compression of attaching without it |
| BuilderLink.AttachKeepsLast | src/RoutesBuilder/index.ts:50-59 | attaching a link that is not inherited moves no chain end |
| BuilderLink.CheckInvalidation | src/RoutesBuilder/index.ts:84-88 | fails, with the invalidation error, exactly when the link is inherited |
| BuilderLink.GetParentRoute | src/RoutesBuilder/index.ts:90-93 | the parent route at the chain's end, as the reference walk gives it, with a compressed store |
| BuilderLink.GetRootLocation | src/RoutesBuilder/index.ts:95-97 | the root location at the chain's end, as the reference walk gives it, with a compressed store |
| BuilderLink.ReadTwice | src/RoutesBuilder/index.ts:90-97 | a second read after a compressing read answers the same |
| BuilderLink.Clone | src/RoutesBuilder/index.ts:106-114 | a new link with the same composer, root, state and child builder; every existing link and record is untouched |
| BuilderLink.CloneReadsLikeOriginal | src/RoutesBuilder/index.ts:106-114 | a clone reads like its original, and no existing link's reads change |
| BuilderLink.Register | src/RoutesBuilder/index.ts:119-121 | the link's child builder becomes the given builder; lifecycle states and everything else are kept |
| BuilderLink.GetResolver | src/RoutesBuilder/index.ts:182-187 | fails exactly when the link is inherited; otherwise a resolver over the link's composer and the given segment resolver |
| LinkInheritance.Inherit | src/RoutesBuilder/index.ts:126-149 | inheriting an inherited link fails. An unattached link is cloned and left as is. An attached link hands its route to a fresh link through `attach`, becomes inherited by it, and keeps its composer and child builder |
| LinkInheritance.SupersedeLast | src/RoutesBuilder/index.ts:137-142 | after an attached link is superseded, every chain that ended at it ends at the new link; other chain ends are kept |
| LinkInheritance.InheritPreservesReads | src/RoutesBuilder/index.ts:126-149 | after a fork every existing link reads as before, and the new link reads as the forked one did |
| LinkInheritance.ForkedLinkReadsLikeInheritor | src/RoutesBuilder/index.ts:131-143 | after forking an attached link, the old and new links read the same; only the old one fails the invalidation check |
| LinkInheritance.ForkTimes | src/RoutesBuilder/index.ts:126-149 | after any number of successive forks, every earlier link reads as it did, and the newest link is attached where the first was |
| LinkInheritance.OldestReadsLikeNewest | src/RoutesBuilder/index.ts:64-97 | after any number of forks, the oldest link reads the same parent route and root location as the newest |
| PathRoutesBuilder.DefKeys | src/RoutesBuilder/PathRoutesBuilder/index.ts:89-90 | the keys of a definition are exactly the keys of its entries |
| PathRoutesBuilder.NewBuilder | src/RoutesBuilder/PathRoutesBuilder/index.ts:66-69 | the builder registers itself with its link; lifecycle states and records are kept |
| PathRoutesBuilder.Init | src/RoutesBuilder/PathRoutesBuilder/index.ts:40-49 | an empty builder over a fresh unattached link with the path composer and the given root, registered with that link |
| PathRoutesBuilder.AttachTo | src/RoutesBuilder/PathRoutesBuilder/index.ts:54-58 | an empty builder whose link is attached to the route, and the route reports it as attached |
| PathRoutesBuilder.AddRoutes | src/RoutesBuilder/PathRoutesBuilder/index.ts:87-92 | the table is the old one overridden by one fresh normal record per defined key, with the key's last action and the creating builder's link |
| PathRoutesBuilder.Fork | src/RoutesBuilder/PathRoutesBuilder/index.ts:79-86 | the invalidation check, then a fork that cannot fail; the old link is invalidated exactly when it was attached |
| PathRoutesBuilder.Routes | src/RoutesBuilder/PathRoutesBuilder/index.ts:71-96 | refused exactly for an invalidated builder. Otherwise the new table overrides the old with fresh records, the wildcard slot is carried over, and the old builder is invalidated exactly when its link was attached |
| PathRoutesBuilder.Any | src/RoutesBuilder/PathRoutesBuilder/index.ts:98-142 | refused exactly for an invalidated builder. Otherwise the table is kept and the wildcard slot holds a fresh wildcard record for the key, created by the old builder |
| PathRoutesBuilder.GetRoutes | src/RoutesBuilder/PathRoutesBuilder/index.ts:144-164 | refused exactly for an invalidated builder; otherwise lists every route name with its record, plus the wildcard slot exactly when it is set |
| PathRoutesBuilder.ResolveSegment | src/RoutesBuilder/PathRoutesBuilder/index.ts:171-187 | a normal answer is the table's route for a defined segment; a wildcard answer comes only for an undefined segment when the slot is set; no answer only when neither applies |
| PathRoutesBuilder.ResolveSegmentPrecedence | src/RoutesBuilder/PathRoutesBuilder/index.ts:171-186 | a defined segment resolves to its own route even when a wildcard is set; any other segment resolves to the wildcard or to nothing |
| PathRoutesBuilder.GetResolver | src/RoutesBuilder/PathRoutesBuilder/index.ts:170-188 | refused exactly for an invalidated builder; otherwise the link's composer and a segment resolver that agrees with the reference resolution on every segment |
| PathRoutesBuilder.GetRoutesAgreesWithResolver | src/RoutesBuilder/PathRoutesBuilder/index.ts:144-188 | a name is listed by `getRoutes` exactly when it resolves to a normal route, and to the listed one; unlisted names resolve exactly when the wildcard is listed |
| PathRoutesBuilder.RoutesResolution | src/RoutesBuilder/PathRoutesBuilder/index.ts:87-93 | after `routes`, defined segments resolve to their new routes and every other segment as before |
| PathRoutesBuilder.AnyResolution | src/RoutesBuilder/PathRoutesBuilder/index.ts:130-139 | after `any`, segments with a normal route resolve as before and all others to the new wildcard record |
| PathRoutesBuilder.RoutesPreservesLocations | src/RoutesBuilder/PathRoutesBuilder/index.ts:71-96 | `routes` changes the location of no route that existed before |
| PathRoutesBuilder.AnyPreservesLocations | src/RoutesBuilder/PathRoutesBuilder/index.ts:98-142 | `any` changes the location of no route that existed before |

## Left out

- `resolveLinkLocation` is not part of this model. `RouteLocation.ParentLocation` and `RouteLocation.ResolveLinkLocation` rest on an assumption about it. When the link has no parent route, the base location is assumed to be the link's root location. Otherwise the base is assumed to be the parent route's location for the same match. The route's compose callback is assumed to be applied to that base.
- The parent-route walk carries a `fuel` bound. The source walk has no bound. A builder attached under one of its own routes makes it recurse until the stack overflows. A single `DepthExhausted` may only mean that the fuel was too small for a deep route tree. `DepthExhausted` at every fuel stands for the overflow. `RouteLocation.FuelMonotoneAll` proves that more fuel never changes any other answer.
- The normal `RouteRecord` class is not part of this model. A normal record's location is modelled as its segment string composed onto the parent location. No row above cites that behaviour.
- `PathLocationComposer` is not part of this model. It enters `PathRoutesBuilder.Init` as a `compose` function.
- `RouteResolver` is not part of this model. `getResolver` returns the composer and segment resolver it would be built from.
- `inheritTo` is deprecated and is never called by the modelled code, so it is not modelled.
- `fillOptions` and the other defaults of `BuilderLink.init` are not modelled. The root location is a parameter.
- Thrown errors are told apart by cause only; their messages are not modelled.
- Numbers are modelled as integers.
- Location states and match objects are read as own properties only. A JavaScript read such as `state?.[key]` or `match[key]` also finds properties inherited from the object's prototype. With key `"constructor"`, for example, `isLeaf` of an empty state is false in the source and true here, and `decompose` could offer the inherited value. The route table is created with `Object.create(null)` (src/RoutesBuilder/PathRoutesBuilder/index.ts:61). It has no prototype, so the segment resolver is exact.
- Object identity of actions and the bodies of actions and validators are not modelled. Validators are total boolean functions.
- An `undefined` location state is modelled as an empty state. The only visible difference: the residual of a round trip over such a location has the state `{}`.
- `Object.defineProperty`, `getBuilderLink` and the TypeScript type-level machinery are not modelled. `getBuilderLink` is the identity on links and the `#rawBuilder` field on builders.
- Attaching a link twice is not refused: attaching accepts a link in any state. The guard against attaching twice is commented out in the source (src/RoutesBuilder/index.ts:51-54). As written, that line compares the state object with a string and would refuse every attach. The evidently intended test is on the object's `state` field. Attaching an inherited link is where earlier compressions become visible (see "Store and values").
- BuilderLink.Clone: copies the lifecycle state by value, while the source's clone shares the `#state` object with its original (src/RoutesBuilder/index.ts:111). A compressing walk assigns the inheritor through that shared object (src/RoutesBuilder/index.ts:73), so in the source it moves the clone's pointer too. The two differ only for a clone of an inherited link. Both pointers lead to the same chain end until an attach of an inherited link makes earlier compressions visible (see "Store and values").
