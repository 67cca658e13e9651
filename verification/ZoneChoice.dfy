/**
 Choosing the zone that answers for a name: the hosted zones are scanned by
 descending length of their root's text, and the first suffix match decides.
 */
module ZoneChoice {
  import opened Names
  import opened UpdateModel

  /** A hosted zone and whether its owner's subscription is active. */
  datatype Hosted = Hosted(zone: Zone, active: bool)

  datatype Choice = NoZone | Chosen(zone: Zone, rel: Name)

  predicate Matches(h: Hosted, q: Name) {
    IsSuffix(h.zone.root, q)
  }

  /** The order in which the database returns the zones: by length of the root's text, longest first. */
  ghost predicate ByLength(zones: seq<Hosted>) {
    && (forall i :: 0 <= i < |zones| ==> zones[i].zone.root != [])
    && (forall i, j :: 0 <= i < j < |zones| ==> |Join(zones[i].zone.root)| >= |Join(zones[j].zone.root)|)
  }

  /** The name relative to the zone, with "@" for the zone itself. */
  function RelativeTo(q: Name, root: Name): Name {
    var rel := StripSuffix(q, root);
    if rel == [] then ["@"] else rel
  }

  function Choose(zones: seq<Hosted>, q: Name): Choice {
    if zones == [] then NoZone
    else if !Matches(zones[0], q) then Choose(zones[1..], q)
    else if zones[0].active then Chosen(zones[0].zone, RelativeTo(q, zones[0].zone.root))
    else NoZone
  }

  /** h matches, and no matching zone has more labels. */
  ghost predicate Closest(zones: seq<Hosted>, q: Name, h: Hosted) {
    h in zones && Matches(h, q) && forall g :: g in zones && Matches(g, q) ==> |g.zone.root| <= |h.zone.root|
  }

  lemma {:induction false} JoinLonger(x: Name, a: Name)
    requires a != []
    ensures |Join(x + a)| >= |Join(a)|
    ensures x != [] ==> |Join(x + a)| > |Join(a)|
  {
    if x == [] {
      assert x + a == a;
    } else {
      JoinLonger(x[1..], a);
      assert (x + a)[1..] == x[1..] + a;
      assert Join(x + a) == x[0] + "." + Join(x[1..] + a);
    }
  }

  /** Of two roots that end the same name, the one with more labels has the longer text. */
  lemma MoreLabelsIsLonger(q: Name, a: Name, b: Name)
    requires IsSuffix(a, q) && IsSuffix(b, q) && a != [] && |a| < |b|
    ensures |Join(a)| < |Join(b)|
  {
    var x := b[..|b| - |a|];
    assert b == x + a;
    JoinLonger(x, a);
  }

  lemma {:induction false} FirstMatch(zones: seq<Hosted>, q: Name, i: nat)
    requires i < |zones| && Matches(zones[i], q) && forall j :: 0 <= j < i ==> !Matches(zones[j], q)
    ensures Choose(zones, q) ==
            if zones[i].active then Chosen(zones[i].zone, RelativeTo(q, zones[i].zone.root)) else NoZone
  {
    if i > 0 {
      FirstMatch(zones[1..], q, i - 1);
    }
  }

  lemma {:induction false} NoMatch(zones: seq<Hosted>, q: Name)
    requires forall j :: 0 <= j < |zones| ==> !Matches(zones[j], q)
    ensures Choose(zones, q) == NoZone
  {
    if zones != [] {
      NoMatch(zones[1..], q);
    }
  }

  lemma FirstIsClosest(zones: seq<Hosted>, q: Name, i: nat)
    requires ByLength(zones) && i < |zones| && Matches(zones[i], q)
    requires forall j :: 0 <= j < i ==> !Matches(zones[j], q)
    ensures Closest(zones, q, zones[i])
  {
    forall g | g in zones && Matches(g, q)
      ensures |g.zone.root| <= |zones[i].zone.root|
    {
      var j :| 0 <= j < |zones| && zones[j] == g;
      if |g.zone.root| > |zones[i].zone.root| {
        MoreLabelsIsLonger(q, zones[i].zone.root, g.zone.root);
      }
    }
  }

  /**
   The scan chooses the matching zone with most labels, and only when its owner
   is active; the relative name followed by the root is the query name.
   */
  method FindZone(zones: seq<Hosted>, q: Name) returns (r: Choice)
    requires ByLength(zones)
    ensures r == Choose(zones, q)
    ensures r.NoZone? ==> (forall h :: h in zones ==> !Matches(h, q)) || exists h :: Closest(zones, q, h) && !h.active
    ensures r.Chosen? ==> Closest(zones, q, Hosted(r.zone, true))
    ensures r.Chosen? ==> if q == r.zone.root then r.rel == ["@"] else r.rel + r.zone.root == q
  {
    for i := 0 to |zones|
      invariant forall j :: 0 <= j < i ==> !Matches(zones[j], q)
    {
      var z := zones[i];
      if Matches(z, q) {
        FirstMatch(zones, q, i);
        FirstIsClosest(zones, q, i);
        if z.active {
          return Chosen(z.zone, RelativeTo(q, z.zone.root));
        } else {
          return NoZone;
        }
      }
    }
    NoMatch(zones, q);
    r := NoZone;
  }

  /** With one zone per root the answer is decided by the closest zone alone. */
  lemma ClosestDecides(zones: seq<Hosted>, q: Name, h: Hosted)
    requires ByLength(zones) && Closest(zones, q, h)
    requires forall g :: g in zones && g.zone.root == h.zone.root ==> g == h
    ensures Choose(zones, q) == if h.active then Chosen(h.zone, RelativeTo(q, h.zone.root)) else NoZone
  {
    var i := FirstMatching(zones, q);
    FirstMatch(zones, q, i);
    FirstIsClosest(zones, q, i);
    var g := zones[i];
    assert |g.zone.root| == |h.zone.root|;
    assert g.zone.root == q[|q| - |h.zone.root|..] == h.zone.root;
  }

  lemma FirstMatching(zones: seq<Hosted>, q: Name) returns (i: nat)
    requires exists h :: h in zones && Matches(h, q)
    ensures i < |zones| && Matches(zones[i], q) && forall j :: 0 <= j < i ==> !Matches(zones[j], q)
  {
    i := 0;
    while i < |zones| && !Matches(zones[i], q)
      invariant i <= |zones| && forall j :: 0 <= j < i ==> !Matches(zones[j], q)
    {
      i := i + 1;
    }
  }
}
