/**
 The update loop as a whole against the fold of the RFC's transformer, on zones
 without wildcard names: first on the RRs of the rows that updates change, up to
 TTLs and then with them, and at last on everything that the zone serves.
 */
module Rfc2136Loop {
  import opened Names
  import opened UpdateModel
  import opened UpdateProof
  import opened ZoneContent
  import opened Rfc2136

  predicate IsWildName(name: string) {
    name == "*" || (|name| >= 2 && name[..2] == "*.")
  }

  /** The zone holds no wildcard name. */
  ghost predicate NoWildcards(db: Database, zone: nat) {
    forall r :: r in db && r.zone == zone ==> !IsWildName(r.name)
  }

  ghost predicate InDomain(key: Key, zone: Zone, rr: RR) {
    && LowerBelowApex(zone, rr) && Supported(rr) && Authorised(key, zone, rr)
    && Nameable(OwnerOf(zone, rr)) && !IsWildName(SearchName(zone, rr)) && AddsPlainly(rr)
  }

  /** The RR does not add a CNAME. */
  predicate AddsPlainly(rr: RR) {
    rr.rclass == CLASS_IN ==> rr.rtype != CNAME
  }

  ghost predicate AllInDomain(key: Key, zone: Zone, rrs: seq<RR>) {
    forall i :: 0 <= i < |rrs| ==> InDomain(key, zone, rrs[i])
  }

  /** A database that the loop starts from, or reaches. */
  ghost predicate Ready(db: Database, zone: Zone) {
    WellFormed(db) && NoWildcards(db, zone.id)
  }

  ghost function RfcFold(v: set<ZoneRr>, zone: Zone, rrs: seq<RR>): set<ZoneRr>
    decreases |rrs|
  {
    if rrs == [] then v else RfcFold(Rfc(v, zone, rrs[0]), zone, rrs[1..])
  }

  lemma WildcardIsWildName(rel: Name)
    requires rel != []
    ensures IsWildName(Join(Wildcard(rel)))
  {
    var w := Wildcard(rel);
    if |w| > 1 {
      assert Join(w) == "*" + "." + Join(w[1..]);
    }
  }

  /** Without wildcard names the fallback finds nothing. */
  lemma OnlyOwn(db: Database, key: Key, zone: Zone, rr: RR, r: Row)
    requires Ready(db, zone) && InDomain(key, zone, rr)
    ensures Found(db, zone, rr, r) <==> r in db && InView(r, zone.id) && r.name == SearchName(zone, rr)
    ensures r in db && InView(r, zone.id) ==> (r.name == SearchName(zone, rr) <==> Denote(r.name) == OwnerOf(zone, rr))
  {
    WildcardIsWildName(Rel(zone, rr));
    LowerIsCanonical(zone, rr);
  }

  lemma StepReady(db: Database, key: Key, zone: Zone, rr: RR, out: Outcome, db': Database)
    requires Ready(db, zone) && InDomain(key, zone, rr) && Applies(db, key, zone, rr, out, db')
    ensures Ready(db', zone) && out == Continue
  {
    AuthorisedStep(db, key, zone, rr, out, db');
    StepWellFormed(db, key, zone, rr, out, db');
    StepFrame(db, key, zone, rr, out, db');
    LowerIsCanonical(zone, rr);
  }

  // ---------- Agreement up to TTLs ----------

  /** The same CNAMEs, with TTLs left aside. */
  ghost predicate CnamesMatch(v: set<ZoneRr>, w: set<ZoneRr>) {
    forall owner, rdata: Rdata :: rdata.rtype == CNAME ==> (Has(v, owner, rdata) <==> Has(w, owner, rdata))
  }

  lemma CnamesAgree(v: set<ZoneRr>, w: set<ZoneRr>, owner: Name)
    requires CnamesMatch(v, w) && CnameAt(v, owner)
    ensures CnameAt(w, owner)
  {
    var c :| c in v && c.owner == owner && c.rdata.rtype == CNAME;
    assert SameRr(c, owner, c.rdata);
    assert Has(v, owner, c.rdata);
    var z :| z in w && SameRr(z, owner, c.rdata);
  }

  /** What the RFC's transformer has afterwards depends on what was there, not on its TTLs. */
  ghost predicate HasAfter(v: set<ZoneRr>, zone: Zone, rr: RR, owner: Name, rdata: Rdata) {
    if rr.rclass == CLASS_IN && rr.data.Some? then
      Has(v, owner, rdata) || (owner == OwnerOf(zone, rr) && rdata == RdataOf(rr) && !CnameAt(v, owner))
    else Has(v, owner, rdata) && !Aims(zone, rr, ZoneRr(owner, rdata, 0))
  }

  /** An addition of another type than CNAME, spelled out. */
  lemma PlainAdd(v: set<ZoneRr>, zone: Zone, rr: RR)
    requires rr.rclass == CLASS_IN && rr.data.Some? && rr.rtype != CNAME
    ensures Blocked(v, NewRr(zone, rr)) <==> CnameAt(v, OwnerOf(zone, rr))
    ensures Rfc(v, zone, rr) ==
            if CnameAt(v, OwnerOf(zone, rr)) then v
            else (set z | z in v && !SameRr(z, OwnerOf(zone, rr), RdataOf(rr))) + {NewRr(zone, rr)}
  {
    if c :| c in v && c.owner == OwnerOf(zone, rr) && c.rdata.rtype == CNAME {
      assert Blocks(c, NewRr(zone, rr));
    }
  }

  lemma RfcHas(v: set<ZoneRr>, zone: Zone, rr: RR, owner: Name, rdata: Rdata)
    requires AddsPlainly(rr)
    ensures Has(Rfc(v, zone, rr), owner, rdata) <==> HasAfter(v, zone, rr, owner, rdata)
  {
    var w := Rfc(v, zone, rr);
    if rr.rclass == CLASS_IN && rr.data.Some? {
      PlainAdd(v, zone, rr);
      if z :| z in v && SameRr(z, owner, rdata) {
        assert NewRr(zone, rr) in w || z in w;
      }
      if !CnameAt(v, OwnerOf(zone, rr)) {
        assert NewRr(zone, rr) in w;
      }
    } else {
      if z :| z in v && SameRr(z, owner, rdata) {
        assert HasAfter(v, zone, rr, owner, rdata) ==> z in w;
      }
    }
  }

  lemma RfcCnames(v: set<ZoneRr>, w: set<ZoneRr>, zone: Zone, rr: RR)
    requires CnamesMatch(v, w) && AddsPlainly(rr)
    ensures CnamesMatch(Rfc(v, zone, rr), Rfc(w, zone, rr))
  {
    forall owner, rdata: Rdata | rdata.rtype == CNAME
      ensures Has(Rfc(v, zone, rr), owner, rdata) <==> Has(Rfc(w, zone, rr), owner, rdata)
    {
      RfcHas(v, zone, rr, owner, rdata);
      RfcHas(w, zone, rr, owner, rdata);
    }
  }

  lemma {:induction false} FoldCnames(v: set<ZoneRr>, w: set<ZoneRr>, key: Key, zone: Zone, rrs: seq<RR>)
    requires CnamesMatch(v, w) && AllInDomain(key, zone, rrs)
    ensures CnamesMatch(RfcFold(v, zone, rrs), RfcFold(w, zone, rrs))
    decreases |rrs|
  {
    if rrs != [] {
      assert InDomain(key, zone, rrs[0]);
      RfcCnames(v, w, zone, rrs[0]);
      FoldCnames(Rfc(v, zone, rrs[0]), Rfc(w, zone, rrs[0]), key, zone, rrs[1..]);
    }
  }

  lemma RfcAgrees(v: set<ZoneRr>, w: set<ZoneRr>, zone: Zone, rr: RR)
    requires Agree(v, w) && AddsPlainly(rr)
    ensures Agree(Rfc(v, zone, rr), Rfc(w, zone, rr))
  {
    forall owner, rdata
      ensures Has(Rfc(v, zone, rr), owner, rdata) <==> Has(Rfc(w, zone, rr), owner, rdata)
    {
      RfcHas(v, zone, rr, owner, rdata);
      RfcHas(w, zone, rr, owner, rdata);
      if CnameAt(v, owner) {
        CnamesAgree(v, w, owner);
      }
      if CnameAt(w, owner) {
        CnamesAgree(w, v, owner);
      }
    }
  }

  lemma AgreeTransitive(u: set<ZoneRr>, v: set<ZoneRr>, w: set<ZoneRr>)
    requires Agree(u, v) && Agree(v, w)
    ensures Agree(u, w)
  {
  }

  /** A deletion does to the rows that updates change what the RFC says. */
  lemma DeletionView(db: Database, key: Key, zone: Zone, rr: RR)
    requires Ready(db, zone) && InDomain(key, zone, rr) && rr.rclass != CLASS_IN
    ensures View(db - Gone(db, zone, rr), zone.id) == Rfc(View(db, zone.id), zone, rr)
  {
    var gone := Gone(db, zone, rr);
    forall r | r in db && InView(r, zone.id)
      ensures r in gone <==> Aims(zone, rr, RrOf(r))
    {
      RowAimed(db, zone, rr, r);
      OnlyOwn(db, key, zone, rr, r);
    }
    forall z | z in Rfc(View(db, zone.id), zone, rr)
      ensures z in View(db - gone, zone.id)
    {
      var r :| r in db && InView(r, zone.id) && RrOf(r) == z;
      assert r in db - gone;
    }
  }

  /** An addition that takes effect brings its RR and loses none, TTLs left aside. */
  lemma AdditionHas(db: Database, key: Key, zone: Zone, rr: RR, mid: Database, owner: Name, rdata: Rdata)
    requires Ready(db, zone) && InDomain(key, zone, rr) && rr.rclass == CLASS_IN && !Conflict(db, zone, rr)
    requires Adds(db, zone, rr, Continue, mid)
    ensures Has(View(mid, zone.id), owner, rdata) <==>
            Has(View(db, zone.id), owner, rdata) || (owner == OwnerOf(zone, rr) && rdata == RdataOf(rr))
  {
    if Matching(db, zone, rr) != {} {
      var m :| m in Matching(db, zone, rr) && mid == db - {m} + {Refresh(m, zone, rr)};
      MatchingIsFound(db, zone, rr, m);
      OnlyOwn(db, key, zone, rr, m);
      RefreshOwnView(db, zone, rr, m);
      HasRow(db, zone.id, owner, rdata);
    } else {
      StoredView(db, zone, rr, Continue, mid);
      var id :| (forall r :: r in db ==> r.id != id) && mid == db + {NewRow(id, zone, rr)};
      assert db * mid == db;
      PlusHas(View(db, zone.id), NewRr(zone, rr), owner, rdata);
    }
  }

  lemma PlusHas(v: set<ZoneRr>, x: ZoneRr, owner: Name, rdata: Rdata)
    ensures Has(v + {x}, owner, rdata) <==> Has(v, owner, rdata) || SameRr(x, owner, rdata)
  {
    if z :| z in v && SameRr(z, owner, rdata) {
      assert z in v + {x};
    }
    if SameRr(x, owner, rdata) {
      assert x in v + {x};
    }
  }

  lemma StepAgrees(db: Database, key: Key, zone: Zone, rr: RR, out: Outcome, db': Database)
    requires Ready(db, zone) && InDomain(key, zone, rr) && Applies(db, key, zone, rr, out, db')
    ensures Agree(View(db', zone.id), Rfc(View(db, zone.id), zone, rr))
  {
    AuthorisedStep(db, key, zone, rr, out, db');
    if rr.rclass != CLASS_IN {
      DeletionView(db, key, zone, rr);
    } else {
      ConflictIsRfc(NOTHING, db, zone, rr);
      if Conflict(db, zone, rr) {
        PlainAdd(View(db, zone.id), zone, rr);
      } else {
        forall owner, rdata
          ensures Has(View(db', zone.id), owner, rdata) <==> Has(Rfc(View(db, zone.id), zone, rr), owner, rdata)
        {
          AdditionHas(db, key, zone, rr, db', owner, rdata);
          RfcHas(View(db, zone.id), zone, rr, owner, rdata);
        }
      }
    }
  }

  /** No model but those that updates change serves anything. */
  const NOTHING: Serving := Serving({}, (r: Row) => {}, (r: Row) => None)

  /** A step follows the RFC's, from zones that agree. */
  lemma StepKeepsAgreement(db: Database, key: Key, zone: Zone, rr: RR, out: Outcome, db': Database, w: set<ZoneRr>)
    requires Ready(db, zone) && InDomain(key, zone, rr) && Applies(db, key, zone, rr, out, db')
    requires Agree(View(db, zone.id), w)
    ensures Agree(View(db', zone.id), Rfc(w, zone, rr))
  {
    StepAgrees(db, key, zone, rr, out, db');
    RfcAgrees(View(db, zone.id), w, zone, rr);
    AgreeTransitive(View(db', zone.id), Rfc(View(db, zone.id), zone, rr), Rfc(w, zone, rr));
  }

  /** On the rows that updates change the loop ends with the RFC's RRs, TTLs left aside. */
  lemma {:induction false} RowsAgree(db: Database, key: Key, zone: Zone, rrs: seq<RR>, out: Outcome, db': Database,
                                     w: set<ZoneRr>)
    requires Ready(db, zone) && AllInDomain(key, zone, rrs) && Loop(db, key, zone, rrs, out, db')
    requires Agree(View(db, zone.id), w)
    ensures out == Continue && Agree(View(db', zone.id), RfcFold(w, zone, rrs))
    decreases |rrs|
  {
    if rrs != [] {
      var rr := rrs[0];
      var o, mid :| Applies(db, key, zone, rr, o, mid)
                    && (if o == Continue then Loop(mid, key, zone, rrs[1..], out, db') else db' == mid && out == o);
      assert InDomain(key, zone, rr);
      StepReady(db, key, zone, rr, o, mid);
      StepKeepsAgreement(db, key, zone, rr, o, mid, w);
      RowsAgree(mid, key, zone, rrs[1..], out, db', Rfc(w, zone, rr));
    }
  }

  // ---------- TTLs: when a copy is left behind ----------

  /** A record as it is stored: its text and its data. */
  datatype Slot = Slot(name: string, rdata: Rdata)

  predicate Holds(r: Row, zone: Zone, slot: Slot) {
    InView(r, zone.id) && r.name == slot.name && r.rdata == slot.rdata
  }

  function SlotOf(zone: Zone, rr: RR): Slot
    requires rr.data.Some?
  {
    Slot(SearchName(zone, rr), RdataOf(rr))
  }

  predicate AddsTo(zone: Zone, rr: RR, slot: Slot) {
    rr.rclass == CLASS_IN && rr.data.Some? && SlotOf(zone, rr) == slot
  }

  predicate Deletes(zone: Zone, rr: RR, slot: Slot) {
    && SearchName(zone, rr) == slot.name
    && (if rr.rclass == CLASS_ANY then rr.rtype == ANY || rr.rtype == slot.rdata.rtype
        else rr.rclass == CLASS_NONE && rr.data.Some? && RdataOf(rr) == slot.rdata)
  }

  /** RR i adds to the slot, and no CNAME makes the RFC ignore it. */
  ghost predicate TakesEffect(w: set<ZoneRr>, zone: Zone, rrs: seq<RR>, i: nat, slot: Slot)
    requires i < |rrs|
  {
    AddsTo(zone, rrs[i], slot) && !CnameAt(RfcFold(w, zone, rrs[..i]), OwnerOf(zone, rrs[i]))
  }

  /** Two copies of a record, one with another TTL than RR i gives; and nothing in the message deletes it. */
  ghost predicate StaleAt(db: Database, w: set<ZoneRr>, zone: Zone, rrs: seq<RR>, i: nat, r: Row, s: Row) {
    && i < |rrs| && r in db && s in db && r != s
    && rrs[i].data.Some?
    && var slot := SlotOf(zone, rrs[i]);
    && Holds(r, zone, slot) && Holds(s, zone, slot) && r.ttl != rrs[i].ttl
    && TakesEffect(w, zone, rrs, i, slot)
    && forall j :: 0 <= j < |rrs| ==> !Deletes(zone, rrs[j], slot)
  }

  ghost predicate Stale(db: Database, zone: Zone, rrs: seq<RR>) {
    exists i, r, s :: StaleAt(db, View(db, zone.id), zone, rrs, i, r, s)
  }

  /** The loop's addition takes effect exactly when the RFC's does. */
  lemma EffectAgrees(db: Database, key: Key, zone: Zone, rr: RR, w: set<ZoneRr>)
    requires Ready(db, zone) && InDomain(key, zone, rr) && rr.rclass == CLASS_IN
    requires CnamesMatch(View(db, zone.id), w)
    ensures Conflict(db, zone, rr) <==> CnameAt(w, OwnerOf(zone, rr))
  {
    ConflictIsRfc(NOTHING, db, zone, rr);
    if CnameAt(w, OwnerOf(zone, rr)) {
      CnamesAgree(w, View(db, zone.id), OwnerOf(zone, rr));
    } else if Conflict(db, zone, rr) {
      CnamesAgree(View(db, zone.id), w, OwnerOf(zone, rr));
    }
  }

  lemma FoldTail(w: set<ZoneRr>, zone: Zone, rrs: seq<RR>, i: nat)
    requires i + 1 <= |rrs|
    ensures RfcFold(w, zone, rrs[..i + 1]) == RfcFold(Rfc(w, zone, rrs[0]), zone, rrs[1..][..i])
  {
    assert rrs[..i + 1][1..] == rrs[1..][..i];
  }

  lemma StaleTail(db: Database, w: set<ZoneRr>, mid: Database, zone: Zone, rrs: seq<RR>, i: nat, r: Row, s: Row)
    requires 0 < i && StaleAt(db, w, zone, rrs, i, r, s) && r in mid && s in mid
    ensures StaleAt(mid, Rfc(w, zone, rrs[0]), zone, rrs[1..], i - 1, r, s)
  {
    FoldTail(w, zone, rrs, i - 1);
    assert rrs[1..][i - 1] == rrs[i];
    assert forall j :: 0 <= j < |rrs[1..]| ==> rrs[1..][j] == rrs[j + 1];
  }

  // ---------- A run that leaves the copy behind ----------

  /** An outcome of an RR that neither deletes the slot nor refreshes it: the slot's rows stay. */
  lemma PassingStep(db: Database, key: Key, zone: Zone, rr: RR, slot: Slot) returns (db': Database)
    requires Ready(db, zone) && InDomain(key, zone, rr) && !Deletes(zone, rr, slot)
    requires AddsTo(zone, rr, slot) ==> Conflict(db, zone, rr)
    ensures Applies(db, key, zone, rr, Continue, db')
    ensures forall r :: r in db && Holds(r, zone, slot) ==> r in db'
  {
    db' := SomeOutcome(db, key, zone, rr);
    AuthorisedStep(db, key, zone, rr, Continue, db');
    forall r | r in db && Holds(r, zone, slot)
      ensures r in db'
    {
      OnlyOwn(db, key, zone, rr, r);
      if rr.rclass != CLASS_IN {
        GoneIsFound(db, zone, rr, r);
      } else {
        MatchingIsFound(db, zone, rr, r);
      }
    }
  }

  /** An outcome that refreshes the given row of the slot. */
  lemma RefreshingStep(db: Database, key: Key, zone: Zone, rr: RR, m: Row) returns (db': Database, n: Row)
    requires Ready(db, zone) && InDomain(key, zone, rr) && rr.rclass == CLASS_IN && !Conflict(db, zone, rr)
    requires m in db && Holds(m, zone, SlotOf(zone, rr))
    ensures Applies(db, key, zone, rr, Continue, db')
    ensures n == m.(ttl := rr.ttl) && db' == db - {m} + {n} && Holds(n, zone, SlotOf(zone, rr))
  {
    OnlyOwn(db, key, zone, rr, m);
    MatchingIsFound(db, zone, rr, m);
    LowerIsCanonical(zone, rr);
    n := Refresh(m, zone, rr);
    db' := RefreshOutcome(db, key, zone, rr, m);
  }

  /** All RRs that the RFC has for the slot carry TTL t. */
  ghost predicate OnlyTtl(w: set<ZoneRr>, slot: Slot, t: nat) {
    forall z :: z in w && SameRr(z, Denote(slot.name), slot.rdata) ==> z.ttl == t
  }

  lemma RfcKeepsTtl(w: set<ZoneRr>, key: Key, zone: Zone, rr: RR, slot: Slot, t: nat)
    requires InDomain(key, zone, rr) && OnlyTtl(w, slot, t)
    ensures !AddsTo(zone, rr, slot) || CnameAt(w, OwnerOf(zone, rr)) ==> OnlyTtl(Rfc(w, zone, rr), slot, t)
    ensures AddsTo(zone, rr, slot) && !CnameAt(w, OwnerOf(zone, rr)) ==> OnlyTtl(Rfc(w, zone, rr), slot, rr.ttl)
  {
    LowerIsCanonical(zone, rr);
    if rr.rclass == CLASS_IN {
      PlainAdd(w, zone, rr);
    }
  }

  lemma RfcSetsTtl(w: set<ZoneRr>, key: Key, zone: Zone, rr: RR)
    requires InDomain(key, zone, rr) && rr.rclass == CLASS_IN && !CnameAt(w, OwnerOf(zone, rr))
    ensures OnlyTtl(Rfc(w, zone, rr), SlotOf(zone, rr), rr.ttl)
  {
    LowerIsCanonical(zone, rr);
    PlainAdd(w, zone, rr);
  }

  ghost predicate Untouched(zone: Zone, rrs: seq<RR>, slot: Slot) {
    forall j :: 0 <= j < |rrs| ==> !Deletes(zone, rrs[j], slot)
  }

  /** Copies a and q of a slot, of which a has the RFC's TTL and q another. */
  ghost predicate Apart(db: Database, zone: Zone, slot: Slot, a: Row, q: Row, w: set<ZoneRr>) {
    && a in db && q in db && a != q && Holds(a, zone, slot) && Holds(q, zone, slot)
    && q.ttl != a.ttl && OnlyTtl(w, slot, a.ttl) && CnamesMatch(View(db, zone.id), w)
  }

  /** A step keeps the CNAMEs those of the RFC's zone. */
  lemma StepKeepsCnames(db: Database, key: Key, zone: Zone, rr: RR, out: Outcome, db': Database, w: set<ZoneRr>)
    requires Ready(db, zone) && InDomain(key, zone, rr) && Applies(db, key, zone, rr, out, db')
    requires CnamesMatch(View(db, zone.id), w)
    ensures CnamesMatch(View(db', zone.id), Rfc(w, zone, rr))
  {
    StepAgrees(db, key, zone, rr, out, db');
    RfcCnames(View(db, zone.id), w, zone, rr);
  }

  /** One step after which two copies are still apart. */
  lemma ApartStep(db: Database, key: Key, zone: Zone, rr: RR, slot: Slot, a: Row, q: Row, w: set<ZoneRr>)
    returns (db': Database, a': Row, q': Row)
    requires Ready(db, zone) && InDomain(key, zone, rr) && !Deletes(zone, rr, slot) && Apart(db, zone, slot, a, q, w)
    ensures Applies(db, key, zone, rr, Continue, db')
    ensures Apart(db', zone, slot, a', q', Rfc(w, zone, rr))
  {
    RfcKeepsTtl(w, key, zone, rr, slot, a.ttl);
    if rr.rclass == CLASS_IN {
      EffectAgrees(db, key, zone, rr, w);
    }
    if AddsTo(zone, rr, slot) && !Conflict(db, zone, rr) {
      if q.ttl == rr.ttl {
        db', a' := RefreshingStep(db, key, zone, rr, q);
        q' := a;
      } else {
        db', a' := RefreshingStep(db, key, zone, rr, a);
        q' := q;
      }
    } else {
      db' := PassingStep(db, key, zone, rr, slot);
      a', q' := a, q;
    }
    StepKeepsCnames(db, key, zone, rr, Continue, db', w);
  }

  lemma {:induction false} ApartDiverges(db: Database, key: Key, zone: Zone, rrs: seq<RR>, slot: Slot, a: Row, q: Row,
                                         w: set<ZoneRr>) returns (db': Database, z: ZoneRr)
    requires Ready(db, zone) && AllInDomain(key, zone, rrs) && Untouched(zone, rrs, slot)
    requires Apart(db, zone, slot, a, q, w)
    ensures Loop(db, key, zone, rrs, Continue, db') && z in View(db', zone.id) && z !in RfcFold(w, zone, rrs)
    decreases |rrs|
  {
    if rrs == [] {
      db', z := db, RrOf(q);
      assert RrOf(q) in View(db, zone.id);
      assert SameRr(RrOf(q), Denote(slot.name), slot.rdata);
    } else {
      assert InDomain(key, zone, rrs[0]);
      var mid, a', q' := ApartStep(db, key, zone, rrs[0], slot, a, q, w);
      StepReady(db, key, zone, rrs[0], Continue, mid);
      db', z := ApartDiverges(mid, key, zone, rrs[1..], slot, a', q', Rfc(w, zone, rrs[0]));
      LoopCons(db, key, zone, rrs, mid, Continue, db');
    }
  }

  /** Refreshing s and not its copy r leaves the two apart. */
  lemma FirstRefresh(db: Database, key: Key, zone: Zone, rr: RR, r: Row, s: Row, w: set<ZoneRr>)
    returns (mid: Database, a: Row)
    requires Ready(db, zone) && InDomain(key, zone, rr) && rr.rclass == CLASS_IN
    requires CnamesMatch(View(db, zone.id), w)
    requires !CnameAt(w, OwnerOf(zone, rr)) && r in db && s in db && r != s && r.ttl != rr.ttl
    requires Holds(r, zone, SlotOf(zone, rr)) && Holds(s, zone, SlotOf(zone, rr))
    ensures Applies(db, key, zone, rr, Continue, mid)
    ensures Apart(mid, zone, SlotOf(zone, rr), a, r, Rfc(w, zone, rr))
  {
    EffectAgrees(db, key, zone, rr, w);
    mid, a := RefreshingStep(db, key, zone, rr, s);
    RfcSetsTtl(w, key, zone, rr);
    StepKeepsCnames(db, key, zone, rr, Continue, mid, w);
  }

  /** From a stale record there is a run of the loop that ends with another zone than the RFC's. */
  lemma {:induction false} StaleDiverges(db: Database, key: Key, zone: Zone, rrs: seq<RR>, i: nat, r: Row, s: Row,
                                         w: set<ZoneRr>) returns (db': Database, z: ZoneRr)
    requires Ready(db, zone) && AllInDomain(key, zone, rrs) && CnamesMatch(View(db, zone.id), w)
    requires StaleAt(db, w, zone, rrs, i, r, s)
    ensures Loop(db, key, zone, rrs, Continue, db') && z in View(db', zone.id) && z !in RfcFold(w, zone, rrs)
    decreases |rrs|
  {
    var rr, slot := rrs[0], SlotOf(zone, rrs[i]);
    assert InDomain(key, zone, rr) && rrs[..0] == [];
    if rr.rclass == CLASS_IN {
      EffectAgrees(db, key, zone, rr, w);
    }
    var mid;
    if AddsTo(zone, rr, slot) && !Conflict(db, zone, rr) && (r.ttl != rr.ttl || s.ttl != rr.ttl) {
      var q, m := if r.ttl != rr.ttl then r else s, if r.ttl != rr.ttl then s else r;
      var a;
      mid, a := FirstRefresh(db, key, zone, rr, q, m, w);
      StepReady(db, key, zone, rr, Continue, mid);
      db', z := ApartDiverges(mid, key, zone, rrs[1..], slot, a, q, Rfc(w, zone, rr));
    } else {
      if AddsTo(zone, rr, slot) && !Conflict(db, zone, rr) {
        var n;
        mid, n := RefreshingStep(db, key, zone, rr, s);
      } else {
        mid := PassingStep(db, key, zone, rr, slot);
      }
      StepKeepsCnames(db, key, zone, rr, Continue, mid, w);
      StepReady(db, key, zone, rr, Continue, mid);
      StaleTail(db, w, mid, zone, rrs, i, r, s);
      db', z := StaleDiverges(mid, key, zone, rrs[1..], i - 1, r, s, Rfc(w, zone, rr));
    }
    LoopCons(db, key, zone, rrs, mid, Continue, db');
  }

  // ---------- Without stale records ----------

  ghost predicate NoneStale(db: Database, w: set<ZoneRr>, zone: Zone, rrs: seq<RR>) {
    forall i, r, s :: !StaleAt(db, w, zone, rrs, i, r, s)
  }

  ghost predicate DeletedLater(zone: Zone, rrs: seq<RR>, z: ZoneRr) {
    exists j :: 0 <= j < |rrs| && Aims(zone, rrs[j], z)
  }

  /** The two zones agree up to TTLs, and differ only in RRs that the rest of the message deletes. */
  ghost predicate Close(db: Database, w: set<ZoneRr>, zone: Zone, rrs: seq<RR>) {
    && Agree(View(db, zone.id), w)
    && forall z :: (z in View(db, zone.id)) != (z in w) ==> DeletedLater(zone, rrs, z)
  }

  /** Deleting a slot and deleting its RRs is the same. */
  lemma DeletesSlot(db: Database, key: Key, zone: Zone, rr: RR, r: Row)
    requires Ready(db, zone) && InDomain(key, zone, rr) && r in db && InView(r, zone.id)
    ensures Deletes(zone, rr, Slot(r.name, r.rdata)) <==> Aims(zone, rr, RrOf(r))
  {
    OnlyOwn(db, key, zone, rr, r);
  }

  lemma UntouchedSlot(db: Database, key: Key, zone: Zone, rrs: seq<RR>, r: Row)
    requires Ready(db, zone) && AllInDomain(key, zone, rrs) && r in db && InView(r, zone.id)
    requires !DeletedLater(zone, rrs, RrOf(r))
    ensures Untouched(zone, rrs, Slot(r.name, r.rdata))
  {
    forall j | 0 <= j < |rrs|
      ensures !Deletes(zone, rrs[j], Slot(r.name, r.rdata))
    {
      assert InDomain(key, zone, rrs[j]);
      DeletesSlot(db, key, zone, rrs[j], r);
    }
  }

  /** What an RR does not delete now is deleted by a later one, or not at all. */
  lemma LaterTail(zone: Zone, rrs: seq<RR>, z: ZoneRr)
    requires rrs != [] && DeletedLater(zone, rrs, z) && !Aims(zone, rrs[0], z)
    ensures DeletedLater(zone, rrs[1..], z)
  {
    var j :| 0 <= j < |rrs| && Aims(zone, rrs[j], z);
    assert rrs[1..][j - 1] == rrs[j];
  }

  /** Two copies of the record that the first RR adds, one with another TTL. */
  lemma StaleNow(db: Database, key: Key, zone: Zone, rrs: seq<RR>, w: set<ZoneRr>, r: Row, s: Row)
    requires Ready(db, zone) && AllInDomain(key, zone, rrs) && Agree(View(db, zone.id), w)
    requires rrs != [] && rrs[0].rclass == CLASS_IN && rrs[0].data.Some? && !Conflict(db, zone, rrs[0])
    requires r in db && s in db && r != s && r.ttl != rrs[0].ttl
    requires Holds(r, zone, SlotOf(zone, rrs[0])) && Holds(s, zone, SlotOf(zone, rrs[0]))
    requires Untouched(zone, rrs, SlotOf(zone, rrs[0]))
    ensures StaleAt(db, w, zone, rrs, 0, r, s)
  {
    assert InDomain(key, zone, rrs[0]);
    EffectAgrees(db, key, zone, rrs[0], w);
    assert rrs[..0] == [];
  }

  /** The rows of the added record after a step, when none was stale: all carry the RR's TTL. */
  lemma AddedSlot(db: Database, key: Key, zone: Zone, rrs: seq<RR>, w: set<ZoneRr>, mid: Database, r: Row)
    requires Ready(db, zone) && AllInDomain(key, zone, rrs) && Agree(View(db, zone.id), w)
    requires rrs != [] && rrs[0].rclass == CLASS_IN && rrs[0].data.Some? && !Conflict(db, zone, rrs[0])
    requires Applies(db, key, zone, rrs[0], Continue, mid) && NoneStale(db, w, zone, rrs)
    requires Untouched(zone, rrs, SlotOf(zone, rrs[0])) && r in mid && Holds(r, zone, SlotOf(zone, rrs[0]))
    ensures r.ttl == rrs[0].ttl
  {
    var rr := rrs[0];
    assert InDomain(key, zone, rr);
    AuthorisedStep(db, key, zone, rr, Continue, mid);
    OnlyOwn(db, key, zone, rr, r);
    MatchingIsFound(db, zone, rr, r);
    if Matching(db, zone, rr) != {} {
      var m :| m in Matching(db, zone, rr) && mid == db - {m} + {Refresh(m, zone, rr)};
      MatchingIsFound(db, zone, rr, m);
      OnlyOwn(db, key, zone, rr, m);
      if r in db && r.ttl != rr.ttl && r != m {
        StaleNow(db, key, zone, rrs, w, r, m);
      }
    }
  }

  /** The rows outside the added record are as before. */
  lemma OtherSlots(db: Database, key: Key, zone: Zone, rr: RR, mid: Database, z: ZoneRr)
    requires Ready(db, zone) && InDomain(key, zone, rr) && rr.rclass == CLASS_IN
    requires Applies(db, key, zone, rr, Continue, mid) && !SameRr(z, OwnerOf(zone, rr), RdataOf(rr))
    ensures z in View(mid, zone.id) <==> z in View(db, zone.id)
  {
    AuthorisedStep(db, key, zone, rr, Continue, mid);
    if !Conflict(db, zone, rr) {
      StoredView(db, zone, rr, Continue, mid);
      ViewWithin(db * mid, db, zone.id);
      if Matching(db, zone, rr) != {} {
        var m :| m in Matching(db, zone, rr) && mid == db - {m} + {Refresh(m, zone, rr)};
        MatchingIsFound(db, zone, rr, m);
        OnlyOwn(db, key, zone, rr, m);
        RefreshOwnKept(db, zone, rr, m);
      } else {
        assert db <= db * mid;
        ViewWithin(db, db * mid, zone.id);
      }
    }
  }

  lemma AdditionClose(db: Database, key: Key, zone: Zone, rrs: seq<RR>, w: set<ZoneRr>, mid: Database, z: ZoneRr)
    requires Ready(db, zone) && AllInDomain(key, zone, rrs) && Close(db, w, zone, rrs) && NoneStale(db, w, zone, rrs)
    requires rrs != [] && rrs[0].rclass == CLASS_IN && Applies(db, key, zone, rrs[0], Continue, mid)
    requires Agree(View(mid, zone.id), Rfc(w, zone, rrs[0])) && Ready(mid, zone)
    ensures (z in View(mid, zone.id)) != (z in Rfc(w, zone, rrs[0])) ==>
              DeletedLater(zone, rrs, z) || DeletedLater(zone, rrs[1..], z)
  {
    var rr, x := rrs[0], NewRr(zone, rrs[0]);
    assert InDomain(key, zone, rr);
    EffectAgrees(db, key, zone, rr, w);
    PlainAdd(w, zone, rr);
    if !SameRr(z, x.owner, x.rdata) {
      OtherSlots(db, key, zone, rr, mid, z);
    } else if !Conflict(db, zone, rr) && !DeletedLater(zone, rrs, z) {
      AddedView(db, key, zone, rrs, w, mid, z);
    } else {
      AuthorisedStep(db, key, zone, rr, Continue, mid);
    }
  }

  /** After the step the zone holds the RR's record with the RR's TTL alone. */
  lemma AddedView(db: Database, key: Key, zone: Zone, rrs: seq<RR>, w: set<ZoneRr>, mid: Database, z: ZoneRr)
    requires Ready(db, zone) && AllInDomain(key, zone, rrs)
    requires Agree(View(db, zone.id), w) && NoneStale(db, w, zone, rrs)
    requires rrs != [] && rrs[0].rclass == CLASS_IN && Applies(db, key, zone, rrs[0], Continue, mid)
    requires Agree(View(mid, zone.id), Rfc(w, zone, rrs[0])) && Ready(mid, zone) && !Conflict(db, zone, rrs[0])
    requires SameRr(z, OwnerOf(zone, rrs[0]), RdataOf(rrs[0])) && !DeletedLater(zone, rrs, z)
    ensures z in View(mid, zone.id) <==> z == NewRr(zone, rrs[0])
  {
    var rr, x := rrs[0], NewRr(zone, rrs[0]);
    assert InDomain(key, zone, rr);
    EffectAgrees(db, key, zone, rr, w);
    PlainAdd(w, zone, rr);
    assert x in Rfc(w, zone, rr) && SameRr(x, x.owner, x.rdata);
    assert Has(Rfc(w, zone, rr), x.owner, x.rdata);
    var y :| y in View(mid, zone.id) && SameRr(y, x.owner, x.rdata);
    forall r | r in mid && InView(r, zone.id) && SameRr(RrOf(r), x.owner, x.rdata)
      ensures RrOf(r) == x
    {
      OnlyOwn(mid, key, zone, rr, r);
      assert !DeletedLater(zone, rrs, RrOf(r)) by {
        assert forall j :: 0 <= j < |rrs| ==> Aims(zone, rrs[j], RrOf(r)) == Aims(zone, rrs[j], z);
      }
      UntouchedSlot(mid, key, zone, rrs, r);
      AddedSlot(db, key, zone, rrs, w, mid, r);
    }
  }

  lemma DeletionClose(db: Database, key: Key, zone: Zone, rrs: seq<RR>, w: set<ZoneRr>, mid: Database, z: ZoneRr)
    requires Ready(db, zone) && AllInDomain(key, zone, rrs) && Close(db, w, zone, rrs)
    requires rrs != [] && rrs[0].rclass != CLASS_IN && Applies(db, key, zone, rrs[0], Continue, mid)
    requires (z in View(mid, zone.id)) != (z in Rfc(w, zone, rrs[0]))
    ensures DeletedLater(zone, rrs[1..], z)
  {
    var rr := rrs[0];
    assert InDomain(key, zone, rr);
    AuthorisedStep(db, key, zone, rr, Continue, mid);
    DeletionView(db, key, zone, rr);
    assert (z in View(db, zone.id)) != (z in w) && !Aims(zone, rr, z);
    LaterTail(zone, rrs, z);
  }

  lemma StepClose(db: Database, key: Key, zone: Zone, rrs: seq<RR>, w: set<ZoneRr>, mid: Database)
    requires Ready(db, zone) && AllInDomain(key, zone, rrs) && Close(db, w, zone, rrs) && NoneStale(db, w, zone, rrs)
    requires rrs != [] && Applies(db, key, zone, rrs[0], Continue, mid)
    ensures Ready(mid, zone) && Close(mid, Rfc(w, zone, rrs[0]), zone, rrs[1..])
  {
    assert InDomain(key, zone, rrs[0]);
    StepReady(db, key, zone, rrs[0], Continue, mid);
    StepKeepsAgreement(db, key, zone, rrs[0], Continue, mid, w);
    forall z | (z in View(mid, zone.id)) != (z in Rfc(w, zone, rrs[0]))
      ensures DeletedLater(zone, rrs[1..], z)
    {
      if rrs[0].rclass != CLASS_IN {
        DeletionClose(db, key, zone, rrs, w, mid, z);
      } else if !DeletedLater(zone, rrs[1..], z) {
        AdditionClose(db, key, zone, rrs, w, mid, z);
        LaterTail(zone, rrs, z);
      }
    }
  }

  /** A row of a slot before the step that became row r. */
  lemma Before(db: Database, key: Key, zone: Zone, rr: RR, mid: Database, r: Row) returns (r': Row)
    requires Ready(db, zone) && InDomain(key, zone, rr) && Applies(db, key, zone, rr, Continue, mid) && r in mid
    requires InView(r, zone.id)
    requires !(r !in db && rr.rclass == CLASS_IN && !Conflict(db, zone, rr) && Matching(db, zone, rr) == {})
    ensures r' in db && InView(r', zone.id) && r'.id == r.id && r'.name == r.name && r'.rdata == r.rdata
    ensures r' != r ==> AddsTo(zone, rr, Slot(r.name, r.rdata)) && !Conflict(db, zone, rr) && r.ttl == rr.ttl
  {
    AuthorisedStep(db, key, zone, rr, Continue, mid);
    r' := r;
    if r !in db {
      var m :| m in Matching(db, zone, rr) && mid == db - {m} + {Refresh(m, zone, rr)};
      MatchingIsFound(db, zone, rr, m);
      OnlyOwn(db, key, zone, rr, m);
      LowerIsCanonical(zone, rr);
      r' := m;
    }
  }

  /** A record that is stored anew is stored once. */
  lemma CreatedOnce(db: Database, key: Key, zone: Zone, rr: RR, mid: Database, r: Row, s: Row)
    requires Ready(db, zone) && InDomain(key, zone, rr) && Applies(db, key, zone, rr, Continue, mid)
    requires rr.rclass == CLASS_IN && !Conflict(db, zone, rr) && Matching(db, zone, rr) == {} && r !in db
    requires r in mid && s in mid && r.name == s.name && r.rdata == s.rdata && InView(s, zone.id)
    ensures r == s
  {
    AuthorisedStep(db, key, zone, rr, Continue, mid);
    LowerIsCanonical(zone, rr);
    OnlyOwn(db, key, zone, rr, s);
    MatchingIsFound(db, zone, rr, s);
  }

  /** The first RR does not delete a record that is still there after it. */
  lemma NotDeletedNow(db: Database, key: Key, zone: Zone, rr: RR, mid: Database, r: Row)
    requires Ready(db, zone) && InDomain(key, zone, rr) && Applies(db, key, zone, rr, Continue, mid)
    requires r in mid && InView(r, zone.id)
    ensures !Deletes(zone, rr, Slot(r.name, r.rdata))
  {
    AuthorisedStep(db, key, zone, rr, Continue, mid);
    if rr.rclass != CLASS_IN {
      OnlyOwn(db, key, zone, rr, r);
      GoneIsFound(db, zone, rr, r);
    }
  }

  lemma UntouchedCons(zone: Zone, rrs: seq<RR>, slot: Slot)
    requires rrs != [] && !Deletes(zone, rrs[0], slot) && Untouched(zone, rrs[1..], slot)
    ensures Untouched(zone, rrs, slot)
  {
    assert forall j :: 1 <= j < |rrs| ==> rrs[j] == rrs[1..][j - 1];
  }

  /** The same two rows, looked at one RR earlier. */
  lemma StaleEarlier(db: Database, key: Key, zone: Zone, rrs: seq<RR>, w: set<ZoneRr>, i: nat, r: Row, s: Row)
    requires rrs != [] && AllInDomain(key, zone, rrs) && i < |rrs[1..]| && rrs[1..][i].data.Some?
    requires r in db && s in db && r != s && r.ttl != rrs[1..][i].ttl
    requires var slot := SlotOf(zone, rrs[1..][i]);
             && Holds(r, zone, slot) && Holds(s, zone, slot) && Untouched(zone, rrs, slot)
             && TakesEffect(Rfc(w, zone, rrs[0]), zone, rrs[1..], i, slot)
    ensures StaleAt(db, w, zone, rrs, i + 1, r, s)
  {
    FoldTail(w, zone, rrs, i);
    assert rrs[1..][i] == rrs[i + 1];
  }

  /** A record that is stale after the first RR was stale before it. */
  lemma StaleBefore(db: Database, key: Key, zone: Zone, rrs: seq<RR>, w: set<ZoneRr>, mid: Database, i: nat,
                    r: Row, s: Row)
    requires Ready(db, zone) && AllInDomain(key, zone, rrs) && Agree(View(db, zone.id), w)
    requires rrs != [] && Applies(db, key, zone, rrs[0], Continue, mid) && Ready(mid, zone)
    requires StaleAt(mid, Rfc(w, zone, rrs[0]), zone, rrs[1..], i, r, s)
    ensures !NoneStale(db, w, zone, rrs)
  {
    var rr, slot := rrs[0], SlotOf(zone, rrs[1..][i]);
    assert InDomain(key, zone, rr);
    NotDeletedNow(db, key, zone, rr, mid, r);
    UntouchedCons(zone, rrs, slot);
    if rr.rclass == CLASS_IN && !Conflict(db, zone, rr) && Matching(db, zone, rr) == {} && r !in db {
      CreatedOnce(db, key, zone, rr, mid, r, s);
    } else if rr.rclass == CLASS_IN && !Conflict(db, zone, rr) && Matching(db, zone, rr) == {} && s !in db {
      CreatedOnce(db, key, zone, rr, mid, s, r);
    } else {
      var r' := Before(db, key, zone, rr, mid, r);
      var s' := Before(db, key, zone, rr, mid, s);
      assert r' != s';
      if r' != r && r'.ttl != rr.ttl {
        StaleNow(db, key, zone, rrs, w, r', s');
      } else {
        StaleEarlier(db, key, zone, rrs, w, i, r', s');
      }
    }
  }

  /** While nothing is stale, every run ends with the RFC's zone. */
  lemma {:induction false} FreshLoop(db: Database, key: Key, zone: Zone, rrs: seq<RR>, out: Outcome, db': Database,
                                     w: set<ZoneRr>)
    requires Ready(db, zone) && AllInDomain(key, zone, rrs) && Loop(db, key, zone, rrs, out, db')
    requires Close(db, w, zone, rrs) && NoneStale(db, w, zone, rrs)
    ensures View(db', zone.id) == RfcFold(w, zone, rrs)
    decreases |rrs|
  {
    if rrs != [] {
      var o, mid :| Applies(db, key, zone, rrs[0], o, mid)
                    && (if o == Continue then Loop(mid, key, zone, rrs[1..], out, db') else db' == mid && out == o);
      assert InDomain(key, zone, rrs[0]);
      StepReady(db, key, zone, rrs[0], o, mid);
      StepClose(db, key, zone, rrs, w, mid);
      forall i, r, s
        ensures !StaleAt(mid, Rfc(w, zone, rrs[0]), zone, rrs[1..], i, r, s)
      {
        if StaleAt(mid, Rfc(w, zone, rrs[0]), zone, rrs[1..], i, r, s) {
          StaleBefore(db, key, zone, rrs, w, mid, i, r, s);
        }
      }
      FreshLoop(mid, key, zone, rrs[1..], out, db', Rfc(w, zone, rrs[0]));
    }
  }

  // ---------- Everything that the zone serves ----------

  /** The RR does something to z: it deletes it, or adds it and no CNAME stands in the way. */
  ghost predicate Concerns(v: set<ZoneRr>, zone: Zone, rr: RR, z: ZoneRr) {
    if rr.rclass == CLASS_IN && rr.data.Some? then
      SameRr(z, OwnerOf(zone, rr), RdataOf(rr)) && !CnameAt(v, OwnerOf(zone, rr))
    else Aims(zone, rr, z)
  }

  ghost function Unconcerned(v: set<ZoneRr>, o: set<ZoneRr>, zone: Zone, rr: RR): set<ZoneRr> {
    set z | z in o && !Concerns(v, zone, rr, z)
  }

  /** The RRs of o that no RR of the message concerns, in a zone that starts from v. */
  ghost function Spared(v: set<ZoneRr>, o: set<ZoneRr>, zone: Zone, rrs: seq<RR>): set<ZoneRr>
    decreases |rrs|
  {
    if rrs == [] then o
    else Spared(Rfc(v, zone, rrs[0]), Unconcerned(v, o, zone, rrs[0]), zone, rrs[1..])
  }

  ghost predicate NoCnames(o: set<ZoneRr>) {
    forall z :: z in o ==> z.rdata.rtype != CNAME
  }

  lemma RfcSplits(v: set<ZoneRr>, o: set<ZoneRr>, zone: Zone, rr: RR)
    requires NoCnames(o) && AddsPlainly(rr)
    ensures Rfc(v + o, zone, rr) == Rfc(v, zone, rr) + Unconcerned(v, o, zone, rr)
  {
    if rr.rclass == CLASS_IN && rr.data.Some? {
      PlainAdd(v + o, zone, rr);
      PlainAdd(v, zone, rr);
      assert CnameAt(v + o, OwnerOf(zone, rr)) <==> CnameAt(v, OwnerOf(zone, rr));
    }
  }

  /** The RFC's transformer keeps the RRs of other models apart, as long as they hold no CNAME. */
  lemma {:induction false} FoldSplits(v: set<ZoneRr>, o: set<ZoneRr>, key: Key, zone: Zone, rrs: seq<RR>)
    requires NoCnames(o) && AllInDomain(key, zone, rrs)
    ensures RfcFold(v + o, zone, rrs) == RfcFold(v, zone, rrs) + Spared(v, o, zone, rrs)
    decreases |rrs|
  {
    if rrs != [] {
      assert InDomain(key, zone, rrs[0]);
      RfcSplits(v, o, zone, rrs[0]);
      FoldSplits(Rfc(v, zone, rrs[0]), Unconcerned(v, o, zone, rrs[0]), key, zone, rrs[1..]);
    }
  }

  lemma {:induction false} LoopSameOthers(db: Database, key: Key, zone: Zone, rrs: seq<RR>, out: Outcome, db': Database)
    requires Loop(db, key, zone, rrs, out, db')
    ensures SameOthers(db, db')
    decreases |rrs|
  {
    if rrs != [] {
      var o, mid :| Applies(db, key, zone, rrs[0], o, mid)
                    && (if o == Continue then Loop(mid, key, zone, rrs[1..], out, db') else db' == mid && out == o);
      StepSameOthers(db, key, zone, rrs[0], o, mid);
      if o == Continue {
        LoopSameOthers(mid, key, zone, rrs[1..], out, db');
      }
    }
  }

  /** What the RFC makes of the rows that updates change. */
  ghost function RowsAfter(db: Database, zone: Zone, rrs: seq<RR>): set<ZoneRr> {
    RfcFold(View(db, zone.id), zone, rrs)
  }

  /** What the other models serve after the message, in every run. */
  ghost function RestAfter(sv: Serving, db: Database, zone: Zone, rrs: seq<RR>): set<ZoneRr> {
    Beside(sv, db, zone.id, RowsAfter(db, zone, rrs))
  }

  /** What the RFC leaves of the other models' RRs. */
  ghost function RestSpared(sv: Serving, db: Database, zone: Zone, rrs: seq<RR>): set<ZoneRr> {
    Spared(View(db, zone.id), Rest(sv, db, zone.id), zone, rrs)
  }

  lemma EveryRunServes(sv: Serving, db: Database, key: Key, zone: Zone, rrs: seq<RR>, out: Outcome, db': Database)
    requires Ready(db, zone) && AllInDomain(key, zone, rrs) && Loop(db, key, zone, rrs, out, db')
    ensures Agree(View(db', zone.id), RowsAfter(db, zone, rrs))
    ensures Full(sv, db', zone.id) == View(db', zone.id) + RestAfter(sv, db, zone, rrs)
  {
    RowsAgree(db, key, zone, rrs, out, db', View(db, zone.id));
    LoopSameOthers(db, key, zone, rrs, out, db');
    BesideSame(sv, db, db', zone.id, View(db', zone.id));
    BesideAgrees(sv, db, zone.id, View(db', zone.id), RowsAfter(db, zone, rrs));
  }

  lemma RfcServes(sv: Serving, db: Database, key: Key, zone: Zone, rrs: seq<RR>)
    requires AllInDomain(key, zone, rrs)
    ensures RfcFold(Full(sv, db, zone.id), zone, rrs) == RowsAfter(db, zone, rrs) + RestSpared(sv, db, zone, rrs)
  {
    forall z | z in Rest(sv, db, zone.id)
      ensures z.rdata.rtype != CNAME
    {
      BesideShape(sv, db, zone.id, View(db, zone.id), z);
    }
    FoldSplits(View(db, zone.id), Rest(sv, db, zone.id), key, zone, rrs);
  }

  /** RR i of the message concerns z, in the zone that the RFC has made by then. */
  ghost predicate ConcernedAt(v: set<ZoneRr>, zone: Zone, rrs: seq<RR>, z: ZoneRr, i: nat) {
    i < |rrs| && Concerns(RfcFold(v, zone, rrs[..i]), zone, rrs[i], z)
  }

  ghost predicate Concerned(v: set<ZoneRr>, zone: Zone, rrs: seq<RR>, z: ZoneRr) {
    exists i: nat :: ConcernedAt(v, zone, rrs, z, i)
  }

  lemma ConcernedTail(v: set<ZoneRr>, zone: Zone, rrs: seq<RR>, z: ZoneRr)
    requires rrs != []
    ensures Concerned(v, zone, rrs, z) <==>
            Concerns(v, zone, rrs[0], z) || Concerned(Rfc(v, zone, rrs[0]), zone, rrs[1..], z)
  {
    var next, tail := Rfc(v, zone, rrs[0]), rrs[1..];
    assert rrs[..0] == [];
    if i: nat :| ConcernedAt(v, zone, rrs, z, i) {
      if i > 0 {
        FoldTail(v, zone, rrs, i - 1);
        assert ConcernedAt(next, zone, tail, z, i - 1);
      }
    }
    if Concerns(v, zone, rrs[0], z) {
      assert ConcernedAt(v, zone, rrs, z, 0);
    }
    if i: nat :| ConcernedAt(next, zone, tail, z, i) {
      FoldTail(v, zone, rrs, i);
      assert ConcernedAt(v, zone, rrs, z, i + 1);
    }
  }

  /** The spared RRs are those that no RR of the message concerns. */
  lemma {:induction false} SparedExactly(v: set<ZoneRr>, o: set<ZoneRr>, zone: Zone, rrs: seq<RR>, z: ZoneRr)
    ensures z in Spared(v, o, zone, rrs) <==> z in o && !Concerned(v, zone, rrs, z)
    decreases |rrs|
  {
    if rrs != [] {
      ConcernedTail(v, zone, rrs, z);
      SparedExactly(Rfc(v, zone, rrs[0]), Unconcerned(v, o, zone, rrs[0]), zone, rrs[1..], z);
    }
  }

  /** RR i deletes or replaces an RR of the header or another model, which is still served after the message. */
  ghost predicate Bypasses(sv: Serving, db: Database, zone: Zone, rrs: seq<RR>, i: nat, z: ZoneRr) {
    && z in Rest(sv, db, zone.id) && ConcernedAt(View(db, zone.id), zone, rrs, z, i)
    && z in RestAfter(sv, db, zone, rrs) && z !in RowsAfter(db, zone, rrs)
  }

  /** ANAME row r comes to answer with address y, which the message brings. */
  ghost predicate AnswerArrives(sv: Serving, db: Database, zone: Zone, rrs: seq<RR>, r: Row, y: ZoneRr) {
    && r in db && r.zone == zone.id && Answers(sv, r, y)
    && y in RowsAfter(db, zone, rrs) && y !in View(db, zone.id)
    && AnswerOf(r, y) !in Rest(sv, db, zone.id) && AnswerOf(r, y) !in RowsAfter(db, zone, rrs)
  }

  /** ANAME row r no longer answers with address y, which the message takes, though no RR concerns the answer. */
  ghost predicate AnswerLeaves(sv: Serving, db: Database, zone: Zone, rrs: seq<RR>, r: Row, y: ZoneRr) {
    && r in db && r.zone == zone.id && Answers(sv, r, y)
    && y in View(db, zone.id) && y !in RowsAfter(db, zone, rrs)
    && !Concerned(View(db, zone.id), zone, rrs, AnswerOf(r, y))
    && AnswerOf(r, y) !in RestAfter(sv, db, zone, rrs) && AnswerOf(r, y) !in RowsAfter(db, zone, rrs)
  }

  /** The message does not get along with what the header and the other models serve. */
  ghost predicate Neglects(sv: Serving, db: Database, zone: Zone, rrs: seq<RR>) {
    || (exists i: nat, z :: Bypasses(sv, db, zone, rrs, i, z))
    || (exists r, y :: AnswerArrives(sv, db, zone, rrs, r, y))
    || (exists r, y :: AnswerLeaves(sv, db, zone, rrs, r, y))
  }

  /** What is still served and not spared: an RR that was concerned, or a new answer of an ANAME. */
  lemma ServedUnspared(sv: Serving, db: Database, zone: Zone, rrs: seq<RR>, z: ZoneRr)
    ensures z in RestAfter(sv, db, zone, rrs) && z !in RestSpared(sv, db, zone, rrs) && z !in RowsAfter(db, zone, rrs)
            ==> Neglects(sv, db, zone, rrs)
  {
    var v, rows := View(db, zone.id), RowsAfter(db, zone, rrs);
    SparedExactly(v, Rest(sv, db, zone.id), zone, rrs, z);
    if z in RestAfter(sv, db, zone, rrs) && z !in RestSpared(sv, db, zone, rrs) && z !in rows {
      if z in Rest(sv, db, zone.id) {
        var i: nat :| ConcernedAt(v, zone, rrs, z, i);
        assert Bypasses(sv, db, zone, rrs, i, z);
      } else {
        var r, y := BesideDiffers(sv, db, zone.id, rows, v, z);
        assert AnswerArrives(sv, db, zone, rrs, r, y);
      }
    }
  }

  /** What is spared and no longer served: an answer of an ANAME. */
  lemma SparedUnserved(sv: Serving, db: Database, zone: Zone, rrs: seq<RR>, z: ZoneRr)
    ensures z in RestSpared(sv, db, zone, rrs) && z !in RestAfter(sv, db, zone, rrs) && z !in RowsAfter(db, zone, rrs)
            ==> Neglects(sv, db, zone, rrs)
  {
    var v, rows := View(db, zone.id), RowsAfter(db, zone, rrs);
    SparedExactly(v, Rest(sv, db, zone.id), zone, rrs, z);
    if z in RestSpared(sv, db, zone, rrs) && z !in RestAfter(sv, db, zone, rrs) && z !in rows {
      var r, y := BesideDiffers(sv, db, zone.id, v, rows, z);
      assert AnswerLeaves(sv, db, zone, rrs, r, y);
    }
  }

  /** A neglected RR is served and not spared, or spared and not served. */
  lemma NeglectShows(sv: Serving, db: Database, zone: Zone, rrs: seq<RR>) returns (z: ZoneRr)
    ensures Neglects(sv, db, zone, rrs) ==>
              && z !in RowsAfter(db, zone, rrs)
              && (z in RestAfter(sv, db, zone, rrs)) != (z in RestSpared(sv, db, zone, rrs))
  {
    z := *;
    var v, rows := View(db, zone.id), RowsAfter(db, zone, rrs);
    if i: nat, y :| Bypasses(sv, db, zone, rrs, i, y) {
      z := y;
    } else if r, y :| AnswerArrives(sv, db, zone, rrs, r, y) {
      z := AnswerOf(r, y);
      assert z in Aliased(sv, db, zone.id, rows);
    } else if r, y :| AnswerLeaves(sv, db, zone, rrs, r, y) {
      z := AnswerOf(r, y);
      assert z in Aliased(sv, db, zone.id, v);
    }
    SparedExactly(v, Rest(sv, db, zone.id), zone, rrs, z);
  }

  /** The two zones are the same, if and only if the message neglects nothing. */
  lemma NeglectExactly(sv: Serving, db: Database, zone: Zone, rrs: seq<RR>)
    ensures RowsAfter(db, zone, rrs) + RestAfter(sv, db, zone, rrs)
              == RowsAfter(db, zone, rrs) + RestSpared(sv, db, zone, rrs)
            <==> !Neglects(sv, db, zone, rrs)
  {
    var rows, a, b := RowsAfter(db, zone, rrs), RestAfter(sv, db, zone, rrs), RestSpared(sv, db, zone, rrs);
    NeglectSets(rows, a, b);
    if z :| z in a && z !in b && z !in rows {
      ServedUnspared(sv, db, zone, rrs, z);
    } else if z :| z in b && z !in a && z !in rows {
      SparedUnserved(sv, db, zone, rrs, z);
    } else if Neglects(sv, db, zone, rrs) {
      var z := NeglectShows(sv, db, zone, rrs);
    }
  }

  lemma NeglectSets(rows: set<ZoneRr>, a: set<ZoneRr>, b: set<ZoneRr>)
    ensures rows + a == rows + b <==>
            !((exists z :: z in a && z !in b && z !in rows) || (exists z :: z in b && z !in a && z !in rows))
  {
    if z :| z in a && z !in b && z !in rows {
      assert z in rows + a && z !in rows + b;
    } else if z :| z in b && z !in a && z !in rows {
      assert z in rows + b && z !in rows + a;
    } else {
      assert forall z :: z in rows + a <==> z in rows + b;
    }
  }

  ghost predicate LoopAlwaysRfc(sv: Serving, db: Database, key: Key, zone: Zone, rrs: seq<RR>) {
    forall out, db' :: Loop(db, key, zone, rrs, out, db') ==>
                         Full(sv, db', zone.id) == RfcFold(Full(sv, db, zone.id), zone, rrs)
  }

  lemma {:induction false} SomeRun(db: Database, key: Key, zone: Zone, rrs: seq<RR>) returns (db': Database)
    requires Ready(db, zone) && AllInDomain(key, zone, rrs)
    ensures Loop(db, key, zone, rrs, Continue, db')
    decreases |rrs|
  {
    if rrs == [] {
      db' := db;
    } else {
      assert InDomain(key, zone, rrs[0]);
      var mid := SomeOutcome(db, key, zone, rrs[0]);
      StepReady(db, key, zone, rrs[0], Continue, mid);
      db' := SomeRun(mid, key, zone, rrs[1..]);
      LoopCons(db, key, zone, rrs, mid, Continue, db');
    }
  }

  /** Zones with the same CNAMEs agree on what is stale. */
  lemma StaleMatches(db: Database, v: set<ZoneRr>, w: set<ZoneRr>, key: Key, zone: Zone, rrs: seq<RR>, i: nat,
                     r: Row, s: Row)
    requires AllInDomain(key, zone, rrs) && CnamesMatch(v, w) && StaleAt(db, v, zone, rrs, i, r, s)
    ensures StaleAt(db, w, zone, rrs, i, r, s)
  {
    FoldCnames(v, w, key, zone, rrs[..i]);
    if CnameAt(RfcFold(w, zone, rrs[..i]), OwnerOf(zone, rrs[i])) {
      CnamesAgree(RfcFold(w, zone, rrs[..i]), RfcFold(v, zone, rrs[..i]), OwnerOf(zone, rrs[i]));
    }
  }

  /** A stale copy shows in what the zone serves, too. */
  lemma StaleShows(sv: Serving, db: Database, key: Key, zone: Zone, rrs: seq<RR>)
    requires Ready(db, zone) && AllInDomain(key, zone, rrs) && Stale(db, zone, rrs)
    ensures !LoopAlwaysRfc(sv, db, key, zone, rrs)
  {
    var i, r, s :| StaleAt(db, View(db, zone.id), zone, rrs, i, r, s);
    FullCnames(sv, db, zone);
    StaleMatches(db, View(db, zone.id), Full(sv, db, zone.id), key, zone, rrs, i, r, s);
    var db', z := StaleDiverges(db, key, zone, rrs, i, r, s, Full(sv, db, zone.id));
    assert z in Full(sv, db', zone.id);
  }

  lemma FullCnames(sv: Serving, db: Database, zone: Zone)
    ensures CnamesMatch(View(db, zone.id), Full(sv, db, zone.id))
  {
    forall owner, rdata: Rdata | rdata.rtype == CNAME && Has(Full(sv, db, zone.id), owner, rdata)
      ensures Has(View(db, zone.id), owner, rdata)
    {
      var z :| z in Full(sv, db, zone.id) && SameRr(z, owner, rdata);
      if z in Rest(sv, db, zone.id) {
        BesideShape(sv, db, zone.id, View(db, zone.id), z);
      }
    }
    assert forall z :: z in View(db, zone.id) ==> z in Full(sv, db, zone.id);
  }

  /**
   On a zone without wildcard names, every run of the loop over authorised RRs
   below the apex takes what the zone serves to the fold of the RFC's
   transformer, if and only if the message leaves no stale copy and does not
   neglect what the other models serve.
   */
  lemma LoopIsRfc(sv: Serving, db: Database, key: Key, zone: Zone, rrs: seq<RR>)
    requires Ready(db, zone) && AllInDomain(key, zone, rrs)
    ensures LoopAlwaysRfc(sv, db, key, zone, rrs) <==> !Stale(db, zone, rrs) && !Neglects(sv, db, zone, rrs)
  {
    if Stale(db, zone, rrs) {
      StaleShows(sv, db, key, zone, rrs);
    } else {
      var rows := RowsAfter(db, zone, rrs);
      RfcServes(sv, db, key, zone, rrs);
      NeglectExactly(sv, db, zone, rrs);
      forall out, db' | Loop(db, key, zone, rrs, out, db')
        ensures Full(sv, db', zone.id) == rows + RestAfter(sv, db, zone, rrs)
      {
        EveryRunServes(sv, db, key, zone, rrs, out, db');
        FreshLoop(db, key, zone, rrs, out, db', View(db, zone.id));
      }
      var db' := SomeRun(db, key, zone, rrs);
    }
  }

  // ---------- The same, TTLs left aside ----------

  /** As `Neglects`, with TTLs left aside. */
  ghost predicate Mislays(sv: Serving, db: Database, zone: Zone, rrs: seq<RR>) {
    || (exists z :: z in RestAfter(sv, db, zone, rrs)
                    && !Has(RestSpared(sv, db, zone, rrs) + RowsAfter(db, zone, rrs), z.owner, z.rdata))
    || (exists z :: z in RestSpared(sv, db, zone, rrs)
                    && !Has(RestAfter(sv, db, zone, rrs) + RowsAfter(db, zone, rrs), z.owner, z.rdata))
  }

  lemma UnionHas(v: set<ZoneRr>, w: set<ZoneRr>, owner: Name, rdata: Rdata)
    ensures Has(v + w, owner, rdata) <==> Has(v, owner, rdata) || Has(w, owner, rdata)
  {
    if z :| z in v && SameRr(z, owner, rdata) {
      assert z in v + w;
    }
    if z :| z in w && SameRr(z, owner, rdata) {
      assert z in v + w;
    }
  }

  lemma MislaySets(view: set<ZoneRr>, rows: set<ZoneRr>, a: set<ZoneRr>, b: set<ZoneRr>)
    requires Agree(view, rows)
    ensures Agree(view + a, rows + b) <==>
            && (forall z :: z in a ==> Has(b + rows, z.owner, z.rdata))
            && (forall z :: z in b ==> Has(a + rows, z.owner, z.rdata))
  {
    forall owner, rdata
      ensures Has(view + a, owner, rdata) <==> Has(rows, owner, rdata) || Has(a, owner, rdata)
      ensures Has(rows + b, owner, rdata) <==> Has(rows, owner, rdata) || Has(b, owner, rdata)
      ensures Has(a + rows, owner, rdata) <==> Has(rows, owner, rdata) || Has(a, owner, rdata)
      ensures Has(b + rows, owner, rdata) <==> Has(rows, owner, rdata) || Has(b, owner, rdata)
    {
      UnionHas(view, a, owner, rdata);
      UnionHas(rows, b, owner, rdata);
      UnionHas(a, rows, owner, rdata);
      UnionHas(b, rows, owner, rdata);
    }
    forall z | z in a || z in b
      ensures z in a ==> Has(a, z.owner, z.rdata)
      ensures z in b ==> Has(b, z.owner, z.rdata)
    {
      assert SameRr(z, z.owner, z.rdata);
    }
  }

  /**
   Whatever is stored twice, every run ends with the RFC's RRs, TTLs left aside,
   if and only if the message mislays nothing that the other models serve.
   */
  lemma LoopAgrees(sv: Serving, db: Database, key: Key, zone: Zone, rrs: seq<RR>, out: Outcome, db': Database)
    requires Ready(db, zone) && AllInDomain(key, zone, rrs) && Loop(db, key, zone, rrs, out, db')
    ensures Agree(Full(sv, db', zone.id), RfcFold(Full(sv, db, zone.id), zone, rrs)) <==> !Mislays(sv, db, zone, rrs)
  {
    EveryRunServes(sv, db, key, zone, rrs, out, db');
    RfcServes(sv, db, key, zone, rrs);
    MislaySets(View(db', zone.id), RowsAfter(db, zone, rrs),
               RestAfter(sv, db, zone, rrs), RestSpared(sv, db, zone, rrs));
  }
}
