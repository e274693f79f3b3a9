/** What all route records share: a fixed action, and the builder attached
    below the route, set by `attach`. */
module RouteRecordBase {
  import opened Values
  import opened RouteGraph
  import BuilderLink

  /** The record constructors: a fresh record with nothing attached yet. */
  function NewRecord(s: Store, kind: RecordKind, action: Option<ActionRef>, parentLink: LinkId): (r: (Store, RecordId))
    requires Valid(s) && parentLink in s.links
    ensures Valid(r.0) && Grows(s, r.0) && RecordsFixed(s, r.0)
    ensures r.1 !in s.records && r.1 in r.0.records
    ensures r.0.records[r.1].kind == kind
    ensures r.0.records[r.1].action == action
    ensures r.0.records[r.1].parentLink == parentLink
    ensures GetAttachedBuilder(r.0, r.1) == None
    ensures r.0.links == s.links
    ensures forall q :: q in s.records ==> r.0.records[q] == s.records[q]
    ensures r.0.records.Keys == s.records.Keys + {r.1}
  {
    var id := s.nextRecord;
    var s' := s.(records := s.records[id := Record(kind, action, parentLink, None)], nextRecord := id + 1);
    assert Grows(s, s');
    BuilderLink.ValidAfterGrowth(s, s');
    (s', id)
  }

  /** `getAttachedBuilder`. */
  function GetAttachedBuilder(s: Store, r: RecordId): (a: Option<Attachable>)
    requires Valid(s) && r in s.records
    ensures a.Some? ==> ValidAttachable(s, a.value) && LinkOf(a.value) in s.links
  {
    s.records[r].attached
  }

  /** `attach(builder)`: remember the builder, attach its link to this record
      and hand the builder back. A second attach replaces the first. */
  function Attach(s: Store, r: RecordId, a: Attachable): (res: (Store, Attachable))
    requires Valid(s) && r in s.records && ValidAttachable(s, a)
    ensures res.1 == a
    ensures Valid(res.0) && Grows(s, res.0) && RecordsFixed(s, res.0)
    ensures GetAttachedBuilder(res.0, r) == Some(a)
    ensures res.0.links.Keys == s.links.Keys && res.0.records.Keys == s.records.Keys
    ensures res.0.links[LinkOf(a)].state == Attached(r)
    ensures res.0.links[LinkOf(a)].composer == s.links[LinkOf(a)].composer
    ensures res.0.links[LinkOf(a)].root == s.links[LinkOf(a)].root
    ensures res.0.links[LinkOf(a)].childBuilder == s.links[LinkOf(a)].childBuilder
    ensures forall k :: k in s.links && k != LinkOf(a) ==> res.0.links[k] == s.links[k]
    ensures forall q :: q in s.records && q != r ==> res.0.records[q] == s.records[q]
  {
    var s1 := s.(records := s.records[r := s.records[r].(attached := Some(a))]);
    assert Grows(s, s1);
    forall k | k in s1.links
      ensures ValidLink(s1, s1.links[k])
    {
      ValidLinkGrows(s, s1, s.links[k]);
    }
    forall q | q in s1.records
      ensures ValidRecord(s1, s1.records[q])
    {
      if q == r {
        if a.BuilderObject? {
          ValidBuilderGrows(s, s1, a.builder);
        }
      } else {
        ValidRecordGrows(s, s1, s.records[q]);
      }
    }
    (BuilderLink.AttachToParent(s1, LinkOf(a), r), a)
  }

  /** Attaching twice is not an error: the last attach wins, on the record and
      on the second builder's link. */
  lemma AttachLastWins(s: Store, r: RecordId, a: Attachable, b: Attachable)
    requires Valid(s) && r in s.records && ValidAttachable(s, a) && ValidAttachable(s, b)
    ensures ValidAttachable(Attach(s, r, a).0, b)
    ensures GetAttachedBuilder(Attach(Attach(s, r, a).0, r, b).0, r) == Some(b)
    ensures Attach(Attach(s, r, a).0, r, b).1 == b
  {
    var s1 := Attach(s, r, a).0;
    match b
    case BuilderObject(bb) => ValidBuilderGrows(s, s1, bb);
    case LinkObject(_) =>
  }

  /** No store operation changes a record's action; in particular `attach` does not. */
  lemma AttachKeepsAction(s: Store, r: RecordId, a: Attachable, q: RecordId)
    requires Valid(s) && r in s.records && ValidAttachable(s, a) && q in s.records
    ensures Attach(s, r, a).0.records[q].action == s.records[q].action
    ensures Attach(s, r, a).0.records[q].kind == s.records[q].kind
  {
  }
}
