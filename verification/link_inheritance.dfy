/** `BuilderLink.inherit`: forking a builder link into a fresh continuation. */
module LinkInheritance {
  import opened Values
  import opened RouteGraph
  import BuilderLink
  import RouteRecordBase

  /** Rewire the chain ends after `l` is superseded by the fresh terminal
      link `n`: chains that ended at `l` now end at `n`, the rest are as before. */
  lemma {:induction false} SupersedeLast(s: Store, s': Store, l: LinkId, n: LinkId, k: LinkId)
    requires Valid(s) && Valid(s') && l in s.links && !s.links[l].state.Inherited?
    requires n !in s.links && n in s'.links && !s'.links[n].state.Inherited?
    requires l in s'.links && s'.links[l].state == Inherited(n)
    requires forall q :: q in s.links && q != l ==>
               q in s'.links && s'.links[q].state == s.links[q].state && s'.links[q].rank == s.links[q].rank
    requires k in s.links
    ensures Last(s', k) == if Last(s, k) == l then n else Last(s, k)
    decreases s.nextLink - s.links[k].rank
  {
    if k != l {
      match s.links[k].state
      case Inherited(j) =>
        SupersedeLast(s, s', l, n, j);
      case _ =>
    }
  }

  /** `inherit`. An unattached link is cloned and stays usable. An attached
      link hands its parent route over to a fresh link (through the route's
      `attach`) and becomes `inherited` by it. An inherited link cannot be
      inherited again. */
  function Inherit(s: Store, l: LinkId): (r: Result<(Store, LinkId)>)
    requires Valid(s) && l in s.links
    ensures r.Failure? <==> s.links[l].state.Inherited?
    ensures r.Failure? ==> r.error == DoubleInherit
    ensures r.Success? ==>
              var (s', n) := r.value;
              && Valid(s') && Grows(s, s') && RecordsFixed(s, s')
              && n !in s.links && n in s'.links
              && s'.links[n].composer == s.links[l].composer
              && s'.links[n].root == s.links[l].root
              && (forall k :: k in s.links && k != l ==> s'.links[k] == s.links[k])
              && s'.links[l].composer == s.links[l].composer
    ensures s.links[l].state.Unattached? ==>
              var (s', n) := r.value;
              && s'.links[n].state == Unattached
              && s'.links[n].childBuilder == s.links[l].childBuilder
              && s'.links[l] == s.links[l]
              && s'.records == s.records
    ensures s.links[l].state.Attached? ==>
              var (s', n) := r.value;
              var route := s.links[l].state.parentRoute;
              && s'.links[n].state == Attached(route)
              && s'.links[n].childBuilder == None
              && s'.links[l].state == Inherited(n)
              && s'.links[l].childBuilder == s.links[l].childBuilder
              && s'.records[route].attached == Some(LinkObject(n))
              && (forall q :: q in s.records && q != route ==> s'.records[q] == s.records[q])
  {
    match s.links[l].state
    case Unattached =>
      Success(BuilderLink.Clone(s, l))
    case Attached(route) =>
      var link := s.links[l];
      var (s1, n) := BuilderLink.Init(s, link.composer, link.root);
      var (s2, _) := RouteRecordBase.Attach(s1, route, LinkObject(n));
      var s3 := s2.(links := s2.links[l := s2.links[l].(state := Inherited(n))]);
      assert Grows(s2, s3);
      ValidAfterSupersede(s2, s3, l, n);
      Success((s3, n))
    case Inherited(_) =>
      Failure(DoubleInherit)
  }

  lemma ValidAfterSupersede(s2: Store, s3: Store, l: LinkId, n: LinkId)
    requires Valid(s2) && l in s2.links && n in s2.links
    requires s2.links[l].rank < s2.links[n].rank
    requires s3 == s2.(links := s2.links[l := s2.links[l].(state := Inherited(n))])
    ensures Valid(s3)
  {
    assert Grows(s2, s3);
    forall k | k in s3.links
      ensures ValidLink(s3, s3.links[k])
    {
      if k != l {
        ValidLinkGrows(s2, s3, s2.links[k]);
      } else if s2.links[l].childBuilder.Some? {
        ValidBuilderGrows(s2, s3, s2.links[l].childBuilder.value);
      }
    }
    forall q | q in s3.records
      ensures ValidRecord(s3, s3.records[q])
    {
      ValidRecordGrows(s2, s3, s2.records[q]);
    }
  }

  /** Fork independence for reads: after a successful `inherit`, every link
      that existed answers `getParentRoute` and `getRootLocation` as before,
      and the new link answers as the original did. */
  lemma InheritPreservesReads(s: Store, l: LinkId)
    requires Valid(s) && l in s.links && !s.links[l].state.Inherited?
    ensures Inherit(s, l).Success?
    ensures forall k :: k in s.links ==>
              && ParentRouteOf(Inherit(s, l).value.0, k) == ParentRouteOf(s, k)
              && RootLocationOf(Inherit(s, l).value.0, k) == RootLocationOf(s, k)
    ensures ParentRouteOf(Inherit(s, l).value.0, Inherit(s, l).value.1) == ParentRouteOf(s, l)
    ensures RootLocationOf(Inherit(s, l).value.0, Inherit(s, l).value.1) == RootLocationOf(s, l)
  {
    var (s', n) := Inherit(s, l).value;
    if s.links[l].state.Unattached? {
      BuilderLink.CloneReadsLikeOriginal(s, l);
      BuilderLink.ReadsStable(s, s');
    } else {
      forall k | k in s.links
        ensures ParentRouteOf(s', k) == ParentRouteOf(s, k)
        ensures RootLocationOf(s', k) == RootLocationOf(s, k)
      {
        SupersedeLast(s, s', l, n, k);
      }
    }
  }

  /** The path-compression scenario: after an attached link is forked, the
      superseded link and its inheritor give identical reads. */
  lemma ForkedLinkReadsLikeInheritor(s: Store, l: LinkId)
    requires Valid(s) && l in s.links && s.links[l].state.Attached?
    ensures Inherit(s, l).Success?
    ensures ParentRouteOf(Inherit(s, l).value.0, l) == ParentRouteOf(Inherit(s, l).value.0, Inherit(s, l).value.1)
    ensures RootLocationOf(Inherit(s, l).value.0, l) == RootLocationOf(Inherit(s, l).value.0, Inherit(s, l).value.1)
    ensures BuilderLink.CheckInvalidation(Inherit(s, l).value.0, l).Fail?
    ensures BuilderLink.CheckInvalidation(Inherit(s, l).value.0, Inherit(s, l).value.1).Pass?
  {
    InheritPreservesReads(s, l);
  }

  /** Fork an attached link `n` times in a row, each time forking the newest
      link. Every fork keeps the reads of every link that existed, and the
      newest link stays attached where the first one was. */
  function ForkTimes(s: Store, l: LinkId, n: nat): (r: (Store, LinkId))
    requires Valid(s) && l in s.links && s.links[l].state.Attached?
    ensures Valid(r.0) && r.1 in r.0.links
    ensures r.0.links[r.1].state == s.links[l].state
    ensures forall k :: k in s.links ==>
              && k in r.0.links
              && ParentRouteOf(r.0, k) == ParentRouteOf(s, k)
              && RootLocationOf(r.0, k) == RootLocationOf(s, k)
    ensures RootLocationOf(r.0, r.1) == RootLocationOf(s, l)
    decreases n
  {
    if n == 0 then (s, l)
    else
      InheritPreservesReads(s, l);
      var (s1, l1) := Inherit(s, l).value;
      ForkTimes(s1, l1, n - 1)
  }

  /** After any number of forks, the oldest link still answers
      `getParentRoute` and `getRootLocation` exactly as the newest does. */
  lemma {:induction false} OldestReadsLikeNewest(s: Store, l: LinkId, n: nat)
    requires Valid(s) && l in s.links && s.links[l].state.Attached?
    ensures ParentRouteOf(ForkTimes(s, l, n).0, l) == ParentRouteOf(ForkTimes(s, l, n).0, ForkTimes(s, l, n).1)
    ensures RootLocationOf(ForkTimes(s, l, n).0, l) == RootLocationOf(ForkTimes(s, l, n).0, ForkTimes(s, l, n).1)
  {
    var (s', latest) := ForkTimes(s, l, n);
    assert ParentRouteOf(s', latest) == Some(s.links[l].state.parentRoute);
    assert ParentRouteOf(s, l) == Some(s.links[l].state.parentRoute);
  }
}
