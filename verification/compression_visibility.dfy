/** Path compression is invisible to reads on the store it rewrites, but not
    to what happens after: `attachToParent` accepts a link that was already
    inherited and makes it an end of chains again, and a link that a
    compressing walk pointed past it no longer reaches it. */
module CompressionVisibility {
  import opened Values
  import opened LocationComposer
  import opened RouteGraph
  import BuilderLink
  import opened RouteLocation

  /** A small store: link 0 was inherited by link 1 and link 1 by link 2,
      which sits attached below route 0 ("a"); link 3 is the top builder's,
      unattached, and created routes 0 ("a") and 1 ("b") with the keyed-state
      composer for "p". Route 2 ("x") was created through link 0, whose
      composer keys "q". */
  function Example(): (s: Store)
    ensures Valid(s) && 1 in s.records && 2 in s.records && 1 in s.links
  {
    var top := Location([], map[]);
    var p := StateComposer("p", v => true);
    var q := StateComposer("q", v => true);
    Store(
      map[0 := Link(q, top, Inherited(1), None, 0),
          1 := Link(q, top, Inherited(2), None, 1),
          2 := Link(q, top, Attached(0), None, 2),
          3 := Link(p, top, Unattached, None, 3)],
      map[0 := Record(Normal("a"), None, 3, None),
          1 := Record(Normal("b"), None, 3, None),
          2 := Record(Normal("x"), None, 0, None)],
      4, 3)
  }

  /** Attaching the inherited link 1 below route 1 ("b"): without an earlier
      `getLocation` of route 2, route 2 now reads "b" through link 0's chain;
      after one, link 0 points straight at link 2 and route 2 still reads
      "a". The same attach gives two different locations. */
  lemma CompressionVisibleAfterReattach()
    ensures var m: Match := map[];
      var plain := BuilderLink.AttachToParent(Example(), 1, 1);
      var walked := BuilderLink.AttachToParent(GetLocationCompressing(Example(), 2, m, 1).1, 1, 1);
      && GetLocation(plain, 2, m, 1).Success?
      && Lookup(GetLocation(plain, 2, m, 1).value.state, "p") == Str("b")
      && GetLocation(walked, 2, m, 1).Success?
      && Lookup(GetLocation(walked, 2, m, 1).value.state, "p") == Str("a")
  {
    var s := Example();
    var m: Match := map[];
    assert Last(s, 1) == 2;
    assert Last(s, 0) == 2;

    var plain := BuilderLink.AttachToParent(s, 1, 1);
    assert Last(plain, 0) == 1;
    assert ParentRouteOf(plain, 0) == Some(1);
    assert ParentRouteOf(plain, 3) == None;
    assert GetLocation(plain, 1, m, 0).value.state == map["p" := Str("b")];
    assert GetLocation(plain, 2, m, 1).value.state == map["p" := Str("b"), "q" := Str("x")];

    var walked0 := GetLocationCompressing(s, 2, m, 1).1;
    assert walked0.links[0].state == Inherited(2);
    assert walked0.links[2].state == Attached(0);
    assert walked0.links[3] == s.links[3];
    var walked := BuilderLink.AttachToParent(walked0, 1, 1);
    assert Last(walked, 0) == 2;
    assert ParentRouteOf(walked, 0) == Some(0);
    assert ParentRouteOf(walked, 3) == None;
    assert GetLocation(walked, 0, m, 0).value.state == map["p" := Str("a")];
    assert GetLocation(walked, 2, m, 1).value.state == map["p" := Str("a"), "q" := Str("x")];
  }
}
