/** The object graph the builders create: builder links and route records,
    kept in one store and referred to by identity, since both are mutated
    after creation (a link's lifecycle state, a record's attached builder). */
module RouteGraph {
  import opened Values
  import opened LocationComposer

  type LinkId = nat
  type RecordId = nat

  /** An action supplied by the caller; its body is not part of this model. */
  datatype ActionRef = ActionRef(id: nat)

  /** The lifecycle of a builder link. */
  datatype LinkState =
    | Unattached
    | Attached(parentRoute: RecordId)
    | Inherited(inheritor: LinkId)

  /** The wildcard slot of a path builder: the match key it binds and its record. */
  datatype WildcardSlot = WildcardSlot(matchKey: string, route: RecordId)

  /** A path routes builder. It is never changed once returned to the caller:
      every operation that adds routes returns a new one. */
  datatype Builder = PathBuilder(link: LinkId, routes: map<string, RecordId>, wildcard: Option<WildcardSlot>)

  /** A builder link. `rank` orders links for termination: a freshly created
      link is ranked above every existing link and a clone shares the rank of
      its original, so inheritor pointers always lead to a higher rank. */
  datatype Link = Link(composer: Composer, root: Location, state: LinkState, childBuilder: Option<Builder>, rank: nat)

  /** What a route record can have attached: a builder, or (from `inherit`) a
      bare link. Both answer `getBuilderLink()`. */
  datatype Attachable = BuilderObject(builder: Builder) | LinkObject(id: LinkId)

  /** The three route-record variants. */
  datatype RecordKind =
    | Normal(segment: string)
    | Wildcard(matchKey: string)
    | Matching(key: string, validator: Value -> bool)

  /** A route record: its variant, its action, the link of the builder that
      created it, and the builder attached below it. */
  datatype Record = Record(kind: RecordKind, action: Option<ActionRef>, parentLink: LinkId, attached: Option<Attachable>)

  datatype Store = Store(links: map<LinkId, Link>, records: map<RecordId, Record>, nextLink: nat, nextRecord: nat)

  /** A segment resolver's answer: an exact route or the wildcard route. */
  datatype SegmentMatch = NormalMatch(route: RecordId) | WildcardMatch(route: RecordId)

  /** What `getResolver` hands to the route resolver: the link's composer and
      the segment-resolution function. */
  datatype Resolver = Resolver(composer: Composer, resolveSegment: string -> Option<SegmentMatch>)

  /** `getBuilderLink()` of an attachable object. */
  function LinkOf(a: Attachable): LinkId
  {
    match a
    case BuilderObject(b) => b.link
    case LinkObject(l) => l
  }

  ghost predicate ValidBuilder(s: Store, b: Builder)
  {
    && b.link in s.links
    && (forall k :: k in b.routes ==> b.routes[k] in s.records)
    && (b.wildcard.Some? ==> b.wildcard.value.route in s.records)
  }

  ghost predicate ValidAttachable(s: Store, a: Attachable)
  {
    match a
    case BuilderObject(b) => ValidBuilder(s, b)
    case LinkObject(l) => l in s.links
  }

  /** Every reference a link holds points into the store, and an inheritor
      is ranked above the link it supersedes. */
  ghost predicate ValidLink(s: Store, link: Link)
  {
    && link.rank < s.nextLink
    && (link.state.Attached? ==> link.state.parentRoute in s.records)
    && (link.state.Inherited? ==>
          link.state.inheritor in s.links && link.rank < s.links[link.state.inheritor].rank)
    && (link.childBuilder.Some? ==> ValidBuilder(s, link.childBuilder.value))
  }

  ghost predicate ValidRecord(s: Store, rec: Record)
  {
    && rec.parentLink in s.links
    && (rec.attached.Some? ==> ValidAttachable(s, rec.attached.value))
  }

  /** The store invariant every operation preserves. */
  ghost predicate Valid(s: Store)
  {
    && (forall l :: l in s.links ==> l < s.nextLink && ValidLink(s, s.links[l]))
    && (forall r :: r in s.records ==> r < s.nextRecord && ValidRecord(s, s.records[r]))
  }

  /** `s'` only adds to `s`: every link and record is still there and every
      link keeps its rank. */
  ghost predicate Grows(s: Store, s': Store)
  {
    && s.nextLink <= s'.nextLink
    && s.nextRecord <= s'.nextRecord
    && (forall l :: l in s.links ==> l in s'.links && s'.links[l].rank == s.links[l].rank)
    && (forall r :: r in s.records ==> r in s'.records)
  }

  lemma ValidBuilderGrows(s: Store, s': Store, b: Builder)
    requires Grows(s, s') && ValidBuilder(s, b)
    ensures ValidBuilder(s', b)
  {
  }

  lemma ValidLinkGrows(s: Store, s': Store, link: Link)
    requires Grows(s, s') && ValidLink(s, link)
    ensures ValidLink(s', link)
  {
    if link.childBuilder.Some? {
      ValidBuilderGrows(s, s', link.childBuilder.value);
    }
  }

  lemma ValidRecordGrows(s: Store, s': Store, rec: Record)
    requires Grows(s, s') && ValidRecord(s, rec)
    ensures ValidRecord(s', rec)
  {
    if rec.attached.Some? && rec.attached.value.BuilderObject? {
      ValidBuilderGrows(s, s', rec.attached.value.builder);
    }
  }

  /** The route records keep their variant, action and creating link: these
      are fixed at construction. */
  ghost predicate RecordsFixed(s: Store, s': Store)
  {
    forall r :: r in s.records ==>
      && r in s'.records
      && s'.records[r].kind == s.records[r].kind
      && s'.records[r].action == s.records[r].action
      && s'.records[r].parentLink == s.records[r].parentLink
  }

  lemma GrowsTrans(s1: Store, s2: Store, s3: Store)
    requires Grows(s1, s2) && Grows(s2, s3)
    ensures Grows(s1, s3)
  {
  }

  lemma RecordsFixedTrans(s1: Store, s2: Store, s3: Store)
    requires RecordsFixed(s1, s2) && RecordsFixed(s2, s3)
    ensures RecordsFixed(s1, s3)
  {
  }

  /** The end of the inheritance chain starting at `l`, followed without
      rewriting anything: the reference definition of what the chain-following
      reads return. */
  function Last(s: Store, l: LinkId): (t: LinkId)
    requires Valid(s) && l in s.links
    ensures t in s.links && !s.links[t].state.Inherited?
    ensures s.links[t].rank >= s.links[l].rank
    ensures !s.links[l].state.Inherited? ==> t == l
    decreases s.nextLink - s.links[l].rank
  {
    match s.links[l].state
    case Inherited(j) => Last(s, j)
    case _ => l
  }

  /** `k` is visited when the chain is followed from `l`: it is `l` itself or
      lies on the chain of `l`'s inheritor. */
  ghost predicate OnChain(s: Store, l: LinkId, k: LinkId)
    requires Valid(s) && l in s.links
    decreases s.nextLink - s.links[l].rank
  {
    k == l || (s.links[l].state.Inherited? && OnChain(s, s.links[l].state.inheritor, k))
  }

  /** Ranks only grow along a chain, so a chain never comes back to its start. */
  lemma {:induction false} OnChainRank(s: Store, l: LinkId, k: LinkId)
    requires Valid(s) && l in s.links && OnChain(s, l, k)
    ensures k in s.links && s.links[k].rank >= s.links[l].rank
    ensures k != l ==> s.links[k].rank > s.links[l].rank
    decreases s.nextLink - s.links[l].rank
  {
    if k != l {
      OnChainRank(s, s.links[l].state.inheritor, k);
    }
  }

  /** Every link on `l`'s chain leads to the same end as `l`. */
  lemma {:induction false} OnChainLast(s: Store, l: LinkId, k: LinkId)
    requires Valid(s) && l in s.links && OnChain(s, l, k)
    ensures k in s.links && Last(s, k) == Last(s, l)
    decreases s.nextLink - s.links[l].rank
  {
    if k != l {
      OnChainLast(s, s.links[l].state.inheritor, k);
    }
  }

  /** The parent route recorded at the end of `l`'s inheritance chain. */
  function ParentRouteOf(s: Store, l: LinkId): Option<RecordId>
    requires Valid(s) && l in s.links
  {
    match s.links[Last(s, l)].state
    case Attached(r) => Some(r)
    case _ => None
  }

  /** The root location stored at the end of `l`'s inheritance chain. */
  function RootLocationOf(s: Store, l: LinkId): Location
    requires Valid(s) && l in s.links
  {
    s.links[Last(s, l)].root
  }

  /** A link that was inherited answers every read exactly as its inheritor does. */
  lemma InheritedReadsForward(s: Store, l: LinkId)
    requires Valid(s) && l in s.links && s.links[l].state.Inherited?
    ensures ParentRouteOf(s, l) == ParentRouteOf(s, s.links[l].state.inheritor)
    ensures RootLocationOf(s, l) == RootLocationOf(s, s.links[l].state.inheritor)
  {
  }

  /** A parent route found at the end of a chain is a record of the store. */
  lemma ParentRouteInStore(s: Store, l: LinkId)
    requires Valid(s) && l in s.links && ParentRouteOf(s, l).Some?
    ensures ParentRouteOf(s, l).value in s.records
  {
  }
}
