/** The builder link: the lifecycle node tracking a builder's attachment to
    the route above it (`unattached`, `attached(route)`, `inherited(link)`),
    with reads that follow inheritance chains and compress them on the way.
    `inherit` also calls a route record's `attach`, so it lives in module
    LinkInheritance, after RouteRecordBase. */
module BuilderLink {
  import opened Values
  import opened LocationComposer
  import opened RouteGraph

  /** Two stores whose links have the same lifecycle states (and ranks, and
      roots), and nothing removed. */
  ghost predicate SameStates(s: Store, s': Store)
  {
    forall k :: k in s.links ==>
      && k in s'.links
      && s'.links[k].state == s.links[k].state
      && s'.links[k].rank == s.links[k].rank
      && s'.links[k].root == s.links[k].root
  }

  /** Chain ends only depend on the lifecycle states along the chain. */
  lemma {:induction false} LastStable(s: Store, s': Store, k: LinkId)
    requires Valid(s) && Valid(s') && SameStates(s, s') && k in s.links
    ensures Last(s', k) == Last(s, k)
    decreases s.nextLink - s.links[k].rank
  {
    match s.links[k].state
    case Inherited(j) =>
      LastStable(s, s', j);
    case _ =>
  }

  /** Consequently every chain-following read agrees on the two stores. */
  lemma ReadsStable(s: Store, s': Store)
    requires Valid(s) && Valid(s') && SameStates(s, s')
    ensures forall k :: k in s.links ==> ParentRouteOf(s', k) == ParentRouteOf(s, k)
    ensures forall k :: k in s.links ==> RootLocationOf(s', k) == RootLocationOf(s, k)
  {
    forall k | k in s.links
      ensures ParentRouteOf(s', k) == ParentRouteOf(s, k)
      ensures RootLocationOf(s', k) == RootLocationOf(s, k)
    {
      LastStable(s, s', k);
    }
  }

  /** `s'` is `s` after path compression: only inheritor pointers of inherited
      links moved, the store is still valid, and every chain ends where it did. */
  ghost predicate Compressed(s: Store, s': Store)
  {
    && Valid(s) && Valid(s')
    && s'.records == s.records
    && s'.nextLink == s.nextLink && s'.nextRecord == s.nextRecord
    && s'.links.Keys == s.links.Keys
    && (forall k :: k in s.links ==>
          && s'.links[k].composer == s.links[k].composer
          && s'.links[k].root == s.links[k].root
          && s'.links[k].childBuilder == s.links[k].childBuilder
          && s'.links[k].rank == s.links[k].rank
          && (s.links[k].state.Inherited? <==> s'.links[k].state.Inherited?)
          && (!s.links[k].state.Inherited? ==> s'.links[k].state == s.links[k].state))
    && (forall k :: k in s.links ==> Last(s', k) == Last(s, k))
  }

  lemma CompressedTrans(s1: Store, s2: Store, s3: Store)
    requires Compressed(s1, s2) && Compressed(s2, s3)
    ensures Compressed(s1, s3)
  {
  }

  /** Compression changes no read: every parent route and root location seen
      through any link is what it was. */
  lemma CompressionPreservesReads(s: Store, s': Store)
    requires Compressed(s, s')
    ensures forall k :: k in s.links ==> ParentRouteOf(s', k) == ParentRouteOf(s, k)
    ensures forall k :: k in s.links ==> RootLocationOf(s', k) == RootLocationOf(s, k)
  {
  }

  /** Point inherited link `l` at `t`. */
  function Redirect(s: Store, l: LinkId, t: LinkId): (s': Store)
    requires l in s.links
    ensures s'.links.Keys == s.links.Keys && s'.records == s.records
    ensures s'.nextLink == s.nextLink && s'.nextRecord == s.nextRecord
    ensures s'.links[l].state == Inherited(t)
    ensures s'.links[l].composer == s.links[l].composer && s'.links[l].root == s.links[l].root
    ensures s'.links[l].childBuilder == s.links[l].childBuilder && s'.links[l].rank == s.links[l].rank
    ensures forall k :: k in s.links && k != l ==> s'.links[k] == s.links[k]
  {
    s.(links := s.links[l := s.links[l].(state := Inherited(t))])
  }

  lemma {:induction false} RedirectKeepsLast(s: Store, l: LinkId, k: LinkId)
    requires Valid(s) && l in s.links && s.links[l].state.Inherited?
    requires Valid(Redirect(s, l, Last(s, l)))
    requires k in s.links
    ensures Last(Redirect(s, l, Last(s, l)), k) == Last(s, k)
    decreases s.nextLink - s.links[k].rank
  {
    var s' := Redirect(s, l, Last(s, l));
    if k == l {
      assert Last(s', l) == Last(s', Last(s, l));
    } else {
      match s.links[k].state
      case Inherited(j) =>
        RedirectKeepsLast(s, l, j);
      case _ =>
    }
  }

  /** Pointing an inherited link at a link ranked above it keeps the store valid. */
  lemma RedirectValid(s: Store, l: LinkId, t: LinkId)
    requires Valid(s) && l in s.links && t in s.links && s.links[l].rank < s.links[t].rank
    ensures Valid(Redirect(s, l, t))
  {
    var s' := Redirect(s, l, t);
    assert Grows(s, s');
    forall k | k in s'.links
      ensures k < s'.nextLink && ValidLink(s', s'.links[k])
    {
      if k != l {
        ValidLinkGrows(s, s', s.links[k]);
      } else if s.links[l].childBuilder.Some? {
        ValidBuilderGrows(s, s', s.links[l].childBuilder.value);
      }
    }
    forall r | r in s'.records
      ensures r < s'.nextRecord && ValidRecord(s', s'.records[r])
    {
      ValidRecordGrows(s, s', s.records[r]);
    }
  }

  /** Redirecting an inherited link moves only its inheritor pointer. */
  lemma RedirectKeepsFields(s: Store, l: LinkId, t: LinkId)
    requires l in s.links && s.links[l].state.Inherited?
    ensures Redirect(s, l, t).records == s.records && Redirect(s, l, t).links.Keys == s.links.Keys
    ensures Redirect(s, l, t).nextLink == s.nextLink && Redirect(s, l, t).nextRecord == s.nextRecord
    ensures forall k :: k in s.links ==>
              && Redirect(s, l, t).links[k].composer == s.links[k].composer
              && Redirect(s, l, t).links[k].root == s.links[k].root
              && Redirect(s, l, t).links[k].childBuilder == s.links[k].childBuilder
              && Redirect(s, l, t).links[k].rank == s.links[k].rank
              && (s.links[k].state.Inherited? <==> Redirect(s, l, t).links[k].state.Inherited?)
              && (!s.links[k].state.Inherited? ==> Redirect(s, l, t).links[k].state == s.links[k].state)
  {
  }

  /** Pointing an inherited link at its chain end moves no chain end. */
  lemma RedirectKeepsAllLast(s: Store, l: LinkId)
    requires Valid(s) && l in s.links && s.links[l].state.Inherited?
    requires Valid(Redirect(s, l, Last(s, l)))
    ensures forall k :: k in s.links ==> Last(Redirect(s, l, Last(s, l)), k) == Last(s, k)
  {
    forall k | k in s.links
      ensures Last(Redirect(s, l, Last(s, l)), k) == Last(s, k)
    {
      RedirectKeepsLast(s, l, k);
    }
  }

  /** Pointing an inherited link straight at the end of its chain is a compression. */
  lemma RedirectToLastCompresses(s: Store, l: LinkId)
    requires Valid(s) && l in s.links && s.links[l].state.Inherited?
    ensures Compressed(s, Redirect(s, l, Last(s, l)))
  {
    var t := Last(s, l);
    assert t == Last(s, s.links[l].state.inheritor);
    RedirectValid(s, l, t);
    RedirectKeepsFields(s, l, t);
    RedirectKeepsAllLast(s, l);
  }

  /** The recursive step of `followInheritanceChain`, given what the walk from
      the inheritor promised. */
  lemma FollowStep(s: Store, l: LinkId, last: LinkId, s1: Store)
    requires Valid(s) && l in s.links && s.links[l].state.Inherited?
    requires last == Last(s, s.links[l].state.inheritor) && Compressed(s, s1)
    requires forall k :: k in s.links ==>
               s1.links[k] == if OnChain(s, s.links[l].state.inheritor, k) && s.links[k].state.Inherited?
                              then s.links[k].(state := Inherited(last))
                              else s.links[k]
    ensures last == Last(s, l)
    ensures Compressed(s, Redirect(s1, l, last))
    ensures forall k :: k in s.links ==>
              Redirect(s1, l, last).links[k] == if OnChain(s, l, k) && s.links[k].state.Inherited?
                                                then s.links[k].(state := Inherited(last))
                                                else s.links[k]
  {
    assert Last(s1, l) == last;
    RedirectToLastCompresses(s1, l);
    CompressedTrans(s, s1, Redirect(s1, l, last));
    RedirectFrame(s, s1, l, last);
  }

  /** A fresh, unattached link (`BuilderLink.init` with its options filled). */
  function Init(s: Store, composer: Composer, root: Location): (r: (Store, LinkId))
    requires Valid(s)
    ensures Valid(r.0) && Grows(s, r.0) && RecordsFixed(s, r.0)
    ensures r.1 !in s.links && r.1 in r.0.links
    ensures r.0.links[r.1].state == Unattached
    ensures forall k :: k in s.links ==> s.links[k].rank < r.0.links[r.1].rank
    ensures r.0.links[r.1].composer == composer && r.0.links[r.1].root == root
    ensures r.0.links[r.1].childBuilder == None
    ensures forall k :: k in s.links ==> r.0.links[k] == s.links[k]
    ensures r.0.records == s.records
  {
    var n := s.nextLink;
    var s' := s.(links := s.links[n := Link(composer, root, Unattached, None, n)], nextLink := n + 1);
    assert Grows(s, s');
    ValidAfterGrowth(s, s');
    (s', n)
  }

  /** Valid survives a growth that only adds fresh links whose own references
      are valid, and keeps every old link and record as it was. */
  lemma ValidAfterGrowth(s: Store, s': Store)
    requires Valid(s) && Grows(s, s')
    requires forall k :: k in s.links ==> s'.links[k] == s.links[k]
    requires forall r :: r in s.records ==> s'.records[r] == s.records[r]
    requires forall k :: k in s'.links && k !in s.links ==> k < s'.nextLink && ValidLink(s', s'.links[k])
    requires forall r :: r in s'.records && r !in s.records ==> r < s'.nextRecord && ValidRecord(s', s'.records[r])
    ensures Valid(s')
  {
    forall k | k in s.links
      ensures ValidLink(s', s'.links[k])
    {
      ValidLinkGrows(s, s', s.links[k]);
    }
    forall r | r in s.records
      ensures ValidRecord(s', s'.records[r])
    {
      ValidRecordGrows(s, s', s.records[r]);
    }
  }

  /** `attachToParent`: any state becomes `attached(route)`. There is no guard
      against attaching twice. */
  function AttachToParent(s: Store, l: LinkId, route: RecordId): (s': Store)
    requires Valid(s) && l in s.links && route in s.records
    ensures Valid(s') && Grows(s, s') && RecordsFixed(s, s')
    ensures s'.links.Keys == s.links.Keys && s'.records == s.records
    ensures s'.links[l].state == Attached(route)
    ensures s'.links[l].composer == s.links[l].composer && s'.links[l].root == s.links[l].root
    ensures s'.links[l].childBuilder == s.links[l].childBuilder
    ensures forall k :: k in s.links && k != l ==> s'.links[k] == s.links[k]
    ensures ParentRouteOf(s', l) == Some(route)
  {
    var s' := s.(links := s.links[l := s.links[l].(state := Attached(route))]);
    assert Grows(s, s');
    forall k | k in s'.links
      ensures k < s'.nextLink && ValidLink(s', s'.links[k])
    {
      if k != l {
        ValidLinkGrows(s, s', s.links[k]);
      }
    }
    forall r | r in s'.records
      ensures ValidRecord(s', s'.records[r])
    {
      ValidRecordGrows(s, s', s.records[r]);
    }
    s'
  }

  /** Attaching a link that is not inherited moves no chain end: the link was
      an end before and still is. */
  lemma {:induction false} AttachKeepsLast(s: Store, l: LinkId, route: RecordId, k: LinkId)
    requires Valid(s) && l in s.links && route in s.records && k in s.links
    requires !s.links[l].state.Inherited?
    ensures Last(AttachToParent(s, l, route), k) == Last(s, k)
    decreases s.nextLink - s.links[k].rank
  {
    if k != l && s.links[k].state.Inherited? {
      AttachKeepsLast(s, l, route, s.links[k].state.inheritor);
    }
  }

  /** Compression and attaching a link that is not inherited commute up to
      compression: attaching after a compressing walk gives a compression of
      attaching without it. */
  lemma AttachAfterCompression(s: Store, s1: Store, l: LinkId, route: RecordId)
    requires Compressed(s, s1) && l in s.links && route in s.records
    requires !s.links[l].state.Inherited?
    ensures Compressed(AttachToParent(s, l, route), AttachToParent(s1, l, route))
  {
    var a := AttachToParent(s, l, route);
    var a1 := AttachToParent(s1, l, route);
    AttachAfterCompressionFields(s, s1, l, route);
    forall k | k in a.links
      ensures Last(a1, k) == Last(a, k)
    {
      AttachKeepsLast(s, l, route, k);
      AttachKeepsLast(s1, l, route, k);
    }
  }

  lemma AttachAfterCompressionFields(s: Store, s1: Store, l: LinkId, route: RecordId)
    requires Compressed(s, s1) && l in s.links && route in s.records
    requires !s.links[l].state.Inherited?
    ensures var a, a1 := AttachToParent(s, l, route), AttachToParent(s1, l, route);
      && a1.links.Keys == a.links.Keys && a1.records == a.records
      && a1.nextLink == a.nextLink && a1.nextRecord == a.nextRecord
      && forall k :: k in a.links ==>
           && a1.links[k].composer == a.links[k].composer
           && a1.links[k].root == a.links[k].root
           && a1.links[k].childBuilder == a.links[k].childBuilder
           && a1.links[k].rank == a.links[k].rank
           && (a.links[k].state.Inherited? <==> a1.links[k].state.Inherited?)
           && (!a.links[k].state.Inherited? ==> a1.links[k].state == a.links[k].state)
  {
    var a, a1 := AttachToParent(s, l, route), AttachToParent(s1, l, route);
    forall k | k in a.links
      ensures && a1.links[k].composer == a.links[k].composer
              && a1.links[k].root == a.links[k].root
              && a1.links[k].childBuilder == a.links[k].childBuilder
              && a1.links[k].rank == a.links[k].rank
              && (a.links[k].state.Inherited? <==> a1.links[k].state.Inherited?)
              && (!a.links[k].state.Inherited? ==> a1.links[k].state == a.links[k].state)
    {
      if k != l {
        assert a.links[k] == s.links[k] && a1.links[k] == s1.links[k];
      }
    }
  }

  /** `followInheritanceChain`: the end of the chain, and the store with every
      link visited on the way pointed straight at it (path compression). */
  function FollowInheritanceChain(s: Store, l: LinkId): (r: (LinkId, Store))
    requires Valid(s) && l in s.links
    ensures r.0 == Last(s, l)
    ensures Compressed(s, r.1)
    ensures s.links[l].state.Inherited? ==> r.1.links[l].state == Inherited(r.0)
    ensures forall k :: k in s.links ==>
              r.1.links[k] == if OnChain(s, l, k) && s.links[k].state.Inherited?
                              then s.links[k].(state := Inherited(r.0))
                              else s.links[k]
    decreases s.nextLink - s.links[l].rank
  {
    match s.links[l].state
    case Inherited(j) =>
      var (last, s1) := FollowInheritanceChain(s, j);
      FollowStep(s, l, last, s1);
      (last, Redirect(s1, l, last))
    case _ =>
      (l, s)
  }

  /** The recursive step of `followInheritanceChain`: once the chain after `l`
      points at `last`, redirecting `l` too leaves exactly the links on `l`'s
      chain pointing at `last`, and every other link as it was. */
  lemma RedirectFrame(s: Store, s1: Store, l: LinkId, last: LinkId)
    requires Valid(s) && l in s.links && s.links[l].state.Inherited?
    requires s1.links.Keys == s.links.Keys
    requires forall k :: k in s.links ==>
               s1.links[k] == if OnChain(s, s.links[l].state.inheritor, k) && s.links[k].state.Inherited?
                              then s.links[k].(state := Inherited(last))
                              else s.links[k]
    ensures forall k :: k in s.links ==>
              Redirect(s1, l, last).links[k] == if OnChain(s, l, k) && s.links[k].state.Inherited?
                                                then s.links[k].(state := Inherited(last))
                                                else s.links[k]
  {
    var j := s.links[l].state.inheritor;
    if OnChain(s, j, l) {
      OnChainRank(s, j, l);
      assert false;
    }
    forall k | k in s.links
      ensures Redirect(s1, l, last).links[k] == if OnChain(s, l, k) && s.links[k].state.Inherited?
                                                then s.links[k].(state := Inherited(last))
                                                else s.links[k]
    {
      if k != l {
        assert OnChain(s, l, k) == OnChain(s, j, k);
      }
    }
  }

  /** `checkInvalidation`: throws exactly when the link has been inherited. */
  function CheckInvalidation(s: Store, l: LinkId): (o: Outcome)
    requires l in s.links
    ensures o.Fail? <==> s.links[l].state.Inherited?
    ensures o.Fail? ==> o.error == Invalidated
  {
    if s.links[l].state.Inherited? then Fail(Invalidated) else Pass
  }

  /** What a sequence of compressing walks leaves behind: a compression in
      which every link either keeps its record or now points straight at the
      end of its chain. */
  ghost predicate ShortCut(s: Store, s': Store)
  {
    && Compressed(s, s')
    && (forall k :: k in s.links ==>
          s'.links[k] == s.links[k] || s'.links[k] == s.links[k].(state := Inherited(Last(s, k))))
  }

  lemma ShortCutTrans(s1: Store, s2: Store, s3: Store)
    requires ShortCut(s1, s2) && ShortCut(s2, s3)
    ensures ShortCut(s1, s3)
  {
    CompressedTrans(s1, s2, s3);
  }

  /** A second short-cut keeps the first one's: a link already pointing at its
      chain's end still does. */
  lemma ShortCutThen(s1: Store, s2: Store, s3: Store, l: LinkId)
    requires ShortCut(s1, s2) && ShortCut(s2, s3) && l in s1.links
    requires s1.links[l].state.Inherited? ==> s2.links[l].state == Inherited(Last(s1, l))
    ensures ShortCut(s1, s3)
    ensures s1.links[l].state.Inherited? ==> s3.links[l].state == Inherited(Last(s1, l))
  {
    ShortCutTrans(s1, s2, s3);
  }

  /** One walk is a short-cut: the links it rewrites all lie on the walked
      chain, whose end is theirs too. */
  lemma FollowShortCuts(s: Store, l: LinkId)
    requires Valid(s) && l in s.links
    ensures ShortCut(s, FollowInheritanceChain(s, l).1)
  {
    var (last, s') := FollowInheritanceChain(s, l);
    forall k | k in s.links
      ensures s'.links[k] == s.links[k] || s'.links[k] == s.links[k].(state := Inherited(Last(s, k)))
    {
      if OnChain(s, l, k) {
        OnChainLast(s, l, k);
      }
    }
  }

  /** `getParentRoute`: the parent route stored at the end of the chain, read
      through a compressing walk. */
  function GetParentRoute(s: Store, l: LinkId): (r: (Option<RecordId>, Store))
    requires Valid(s) && l in s.links
    ensures r.0 == ParentRouteOf(s, l)
    ensures ShortCut(s, r.1)
    ensures s.links[l].state.Inherited? ==> r.1.links[l].state == Inherited(Last(s, l))
  {
    FollowShortCuts(s, l);
    var (last, s') := FollowInheritanceChain(s, l);
    var route := match s'.links[last].state
      case Attached(p) => Some(p)
      case _ => None;
    (route, s')
  }

  /** `getRootLocation`: the root location stored at the end of the chain. */
  function GetRootLocation(s: Store, l: LinkId): (r: (Location, Store))
    requires Valid(s) && l in s.links
    ensures r.0 == RootLocationOf(s, l)
    ensures ShortCut(s, r.1)
    ensures s.links[l].state.Inherited? ==> r.1.links[l].state == Inherited(Last(s, l))
  {
    FollowShortCuts(s, l);
    var (last, s') := FollowInheritanceChain(s, l);
    (s'.links[last].root, s')
  }

  /** After a compressing read, asking again answers the same, now in one step. */
  lemma ReadTwice(s: Store, l: LinkId)
    requires Valid(s) && l in s.links
    ensures GetParentRoute(GetParentRoute(s, l).1, l).0 == GetParentRoute(s, l).0
    ensures GetRootLocation(GetParentRoute(s, l).1, l).0 == RootLocationOf(s, l)
  {
    var s' := GetParentRoute(s, l).1;
    CompressionPreservesReads(s, s');
  }

  /** `clone`: a new link with the same composer, root, state and child builder;
      the original is untouched. */
  function Clone(s: Store, l: LinkId): (r: (Store, LinkId))
    requires Valid(s) && l in s.links
    ensures Valid(r.0) && Grows(s, r.0) && RecordsFixed(s, r.0)
    ensures r.1 !in s.links && r.1 in r.0.links
    ensures r.0.links[r.1].composer == s.links[l].composer
    ensures r.0.links[r.1].root == s.links[l].root
    ensures r.0.links[r.1].state == s.links[l].state
    ensures r.0.links[r.1].childBuilder == s.links[l].childBuilder
    ensures forall k :: k in s.links ==> r.0.links[k] == s.links[k]
    ensures r.0.records == s.records
  {
    var link := s.links[l];
    var n := s.nextLink;
    var s' := s.(links := s.links[n := link], nextLink := n + 1);
    assert Grows(s, s');
    ValidLinkGrows(s, s', link);
    ValidAfterGrowth(s, s');
    (s', n)
  }

  /** A clone reads exactly like its original, and the original's reads do
      not change. */
  lemma CloneReadsLikeOriginal(s: Store, l: LinkId)
    requires Valid(s) && l in s.links
    ensures ParentRouteOf(Clone(s, l).0, Clone(s, l).1) == ParentRouteOf(s, l)
    ensures RootLocationOf(Clone(s, l).0, Clone(s, l).1) == RootLocationOf(s, l)
    ensures forall k :: k in s.links ==> ParentRouteOf(Clone(s, l).0, k) == ParentRouteOf(s, k)
    ensures forall k :: k in s.links ==> RootLocationOf(Clone(s, l).0, k) == RootLocationOf(s, k)
  {
    var (s', n) := Clone(s, l);
    ReadsStable(s, s');
    match s.links[l].state
    case Inherited(j) =>
      assert Last(s', n) == Last(s', j);
    case _ =>
  }

  /** `register`: remember the builder that owns this link. */
  function Register(s: Store, l: LinkId, b: Builder): (s': Store)
    requires Valid(s) && l in s.links && ValidBuilder(s, b)
    ensures Valid(s') && Grows(s, s') && RecordsFixed(s, s') && SameStates(s, s')
    ensures s'.links.Keys == s.links.Keys && s'.records == s.records
    ensures s'.links[l].childBuilder == Some(b)
    ensures s'.links[l].composer == s.links[l].composer && s'.links[l].state == s.links[l].state
    ensures forall k :: k in s.links && k != l ==> s'.links[k] == s.links[k]
  {
    var s' := s.(links := s.links[l := s.links[l].(childBuilder := Some(b))]);
    assert Grows(s, s');
    forall k | k in s'.links
      ensures k < s'.nextLink && ValidLink(s', s'.links[k])
    {
      if k == l {
        ValidBuilderGrows(s, s', b);
      }
      ValidLinkGrows(s, s', s.links[k]);
    }
    forall r | r in s'.records
      ensures ValidRecord(s', s'.records[r])
    {
      ValidRecordGrows(s, s', s.records[r]);
    }
    s'
  }

  /** `getResolver`: refuses an invalidated link; otherwise hands the link's
      composer and the given segment resolver to the route resolver. */
  function GetResolver(s: Store, l: LinkId, resolveSegment: string -> Option<SegmentMatch>): (r: Result<Resolver>)
    requires l in s.links
    ensures r.Failure? <==> s.links[l].state.Inherited?
    ensures r.Failure? ==> r.error == Invalidated
    ensures r.Success? ==> r.value.composer == s.links[l].composer && r.value.resolveSegment == resolveSegment
  {
    match CheckInvalidation(s, l)
    case Fail(e) => Failure(e)
    case Pass => Success(Resolver(s.links[l].composer, resolveSegment))
  }
}
