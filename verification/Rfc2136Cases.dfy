/**
 Where the update loop does not do what RFC 2136 says: for each way in which a
 step strays, a family of inputs that takes it, whatever else the zone serves.
 */
module Rfc2136Cases {
  import opened Names
  import opened UpdateModel
  import opened UpdateProof
  import opened ZoneContent
  import opened Rfc2136
  import opened Rfc2136Loop

  // ---------- New rows ----------

  /** An RR of another model stays where x should replace it, or an ANAME comes to answer with x. */
  ghost predicate RestInterferes(sv: Serving, db: Database, zone: Zone, x: ZoneRr, db': Database) {
    exists z :: z in Rest(sv, db', zone.id) && z != x && (Replaces(x, z) || z !in Full(sv, db, zone.id))
  }

  /**
   An addition that finds no row with its data and is stored under its own owner
   is the RFC's, if and only if no other model interferes.
   */
  lemma CreateStep(sv: Serving, db: Database, zone: Zone, rr: RR, id: nat)
    requires Admissible(db, zone, rr) && Matching(db, zone, rr) == {} && forall r :: r in db ==> r.id != id
    ensures var db' := db + {NewRow(id, zone, rr)};
            Full(sv, db', zone.id) == Rfc(Full(sv, db, zone.id), zone, rr)
            <==> !RestInterferes(sv, db, zone, NewRr(zone, rr), db')
  {
    var x, db' := NewRr(zone, rr), db + {NewRow(id, zone, rr)};
    assert Created(db, zone, rr, db');
    StoringStep(sv, db, zone, rr, Continue, db');
    ConflictIsRfc(sv, db, zone, rr);
    NewRowServes(sv, db, zone, rr, id);
    NothingToReplace(db, zone, rr);
    var n := NewRow(id, zone, rr);
    BesideGrows(sv, db, zone.id, View(db, zone.id), View(db, zone.id) + {ZoneRr(Denote(n.name), n.rdata, n.ttl)});
    CreateSets(View(db, zone.id), Rest(sv, db, zone.id), Rest(sv, db', zone.id), x);
  }

  lemma NothingToReplace(db: Database, zone: Zone, rr: RR)
    requires Admissible(db, zone, rr) && Matching(db, zone, rr) == {}
    ensures forall z :: z in View(db, zone.id) ==> !Replaces(NewRr(zone, rr), z)
  {
    forall z | z in View(db, zone.id)
      ensures !Replaces(NewRr(zone, rr), z)
    {
      var r :| r in db && InView(r, zone.id) && RrOf(r) == z;
      MatchingIsFound(db, zone, rr, r);
      if Denote(r.name) == OwnerOf(zone, rr) {
        OwnIsFound(db, zone, rr, r);
      }
    }
  }

  lemma CreateSets(view: set<ZoneRr>, earlier: set<ZoneRr>, rest: set<ZoneRr>, x: ZoneRr)
    requires !Blocked(view + earlier, x) && earlier <= rest && forall z :: z in view ==> !Replaces(x, z)
    ensures Differs(view + earlier, view, rest, x) <==>
            exists z :: z in rest && z != x && (Replaces(x, z) || z !in view + earlier)
  {
    assert forall z :: z in view + earlier ==> z in view + {x} + rest;
    if z :| z in rest && z != x && (Replaces(x, z) || z !in view + earlier) {
      assert z in view + rest;
    }
  }

  // ---------- Renamed rows ----------

  /** When the wildcard's row is refreshed, the owner has no row with the data. */
  lemma NoneOfItsOwn(db: Database, zone: Zone, rr: RR, m: Row)
    requires Admissible(db, zone, rr) && m in Matching(db, zone, rr) && Denote(m.name) != OwnerOf(zone, rr)
    ensures forall z :: z in View(db, zone.id) ==> !Replaces(NewRr(zone, rr), z)
  {
    LowerIsCanonical(zone, rr);
    MatchingIsFound(db, zone, rr, m);
    forall z | z in View(db, zone.id)
      ensures !Replaces(NewRr(zone, rr), z)
    {
      var r :| r in db && InView(r, zone.id) && RrOf(r) == z;
      assert r !in At(db, zone.id, m.model, SearchName(zone, rr));
    }
  }

  /**
   An addition that renames the wildcard's row is the RFC's, if and only if the
   wildcard's RR is still served, no ANAME loses or gains an answer by it, and no
   other model serves the record with another TTL.
   */
  lemma RenameStep(sv: Serving, db: Database, zone: Zone, rr: RR, m: Row)
    requires Admissible(db, zone, rr) && m in Matching(db, zone, rr) && Denote(m.name) != OwnerOf(zone, rr)
    ensures var x, db' := NewRr(zone, rr), db - {m} + {Refresh(m, zone, rr)};
            Full(sv, db', zone.id) == Rfc(Full(sv, db, zone.id), zone, rr) <==>
            && RrOf(m) in Full(sv, db', zone.id)
            && !LosesAnswer(sv, db, zone, x, db', m) && !Spreads(sv, db, zone, x)
            && forall z :: z in Rest(sv, db', zone.id) && Replaces(x, z) ==> z == x
  {
    var x, db' := NewRr(zone, rr), db - {m} + {Refresh(m, zone, rr)};
    assert Refreshed(db, zone, rr, db');
    StoringCauses(sv, db, zone, rr, Continue, db');
    ConflictIsRfc(sv, db, zone, rr);
    NoneOfItsOwn(db, zone, rr, m);
    ViewWithin(db * db', db, zone.id);
    MatchingIsFound(db, zone, rr, m);
    LowerIsCanonical(zone, rr);
    assert db - db' == {m};
  }

  function Addition(zone: Zone, owner: Label, d: Rdata): RR {
    RR([owner] + zone.root, d.rtype, CLASS_IN, 300, Some(d.data), true, true, true)
  }

  lemma WildcardMatches(zone: Zone, w: Row, owner: Label)
    requires IsAddressRow(w, zone) && w.name == "*" && owner != "*" && LowerLabel(owner) == owner
    ensures var rr := Addition(zone, owner, w.rdata);
            && Rel(zone, rr) == [owner] && StoredName(zone, rr) == owner
            && !Conflict({w}, zone, rr) && w in Matching({w}, zone, rr)
  {
    var rr := Addition(zone, owner, w.rdata);
    assert rr.name[..1] == [owner] && rr.name[1..] == zone.root;
    assert Rel(zone, rr) == [owner] && Wildcard([owner]) == ["*"];
    assert |Lower(rr.name)| != |Lower(zone.root)|;
    assert At({w}, zone.id, Cname, owner) == {} && At({w}, zone.id, Address, owner) == {};
    FindRecordsSplit({w}, zone, rr, Address, w);
  }

  /** Adding the wildcard's address for a name below it takes it away from the wildcard. */
  lemma WildcardRenamed(sv: Serving, zone: Zone, w: Row, owner: Label)
    requires IsAddressRow(w, zone) && w.name == "*" && owner != "*" && LowerLabel(owner) == owner
    ensures var rr := Addition(zone, owner, w.rdata);
            var db' := {w} - {w} + {Refresh(w, zone, rr)};
            Applies({w}, ROOT_KEY, zone, rr, Continue, db') && Strays(sv, {w}, zone, rr, db')
  {
    var rr := Addition(zone, owner, w.rdata);
    WildcardMatches(zone, w, owner);
    var x, n := NewRr(zone, rr), Refresh(w, zone, rr);
    var db' := {w} - {w} + {n};
    assert Refreshed({w}, zone, rr, db');
    RenamedAway(sv, zone, w, n);
    WildcardBlocksNothing(sv, zone, w, x);
    SplitOne("*");
    assert x.owner == [owner];
    assert w in {w} - db' && InView(w, zone.id) && Denote(w.name) != x.owner;
    assert Uproots(sv, {w}, zone, x, db');
  }

  lemma WildcardBlocksNothing(sv: Serving, zone: Zone, w: Row, x: ZoneRr)
    requires IsAddressRow(w, zone) && x.rdata.rtype == A
    ensures !Blocked(Full(sv, {w}, zone.id), x)
  {
    PlainRest(sv, {w}, zone.id);
  }

  lemma RenamedAway(sv: Serving, zone: Zone, w: Row, n: Row)
    requires IsAddressRow(w, zone) && IsAddressRow(n, zone) && n.name != w.name
    ensures RrOf(w) !in Full(sv, {w} - {w} + {n}, zone.id)
  {
    assert {w} - {w} + {n} == {n};
    PlainRest(sv, {n}, zone.id);
    if RrOf(w) == RrOf(n) {
      DenoteInjective(w.name, n.name);
    }
  }

  // ---------- Captured rows ----------

  function Deletion(zone: Zone, owner: Label, rtype: nat): RR {
    RR([owner] + zone.root, rtype, CLASS_ANY, 0, None, true, true, true)
  }

  lemma OneLabel(zone: Zone, owner: Label, rtype: nat)
    ensures Rel(zone, Deletion(zone, owner, rtype)) == [owner]
    ensures SearchName(zone, Deletion(zone, owner, rtype)) == owner
    ensures WildName(zone, Deletion(zone, owner, rtype)) == "*"
  {
    var rr := Deletion(zone, owner, rtype);
    assert rr.name[..1] == [owner] && rr.name[1..] == zone.root;
    assert Wildcard([owner]) == ["*"];
  }

  /** Rows of the models that updates change are served as themselves and as nothing else. */
  lemma PlainRest(sv: Serving, db: Database, zone: nat)
    requires forall r :: r in db ==> Updatable(r.model)
    ensures Rest(sv, db, zone) == Header(sv)
  {
  }

  predicate IsAddressRow(w: Row, zone: Zone) {
    w.zone == zone.id && w.model == Address && w.rdata.rtype == A
  }

  /** A deletion that finds the one address row of the zone takes it, and strays if the row has another owner. */
  lemma FoundIsTaken(sv: Serving, zone: Zone, w: Row, owner: Label)
    requires IsAddressRow(w, zone) && (w.name == owner || w.name == "*")
    requires Denote(w.name) != Lower([owner])
    ensures Applies({w}, ROOT_KEY, zone, Deletion(zone, owner, A), Continue, {})
    ensures Strays(sv, {w}, zone, Deletion(zone, owner, A), {})
  {
    var rr := Deletion(zone, owner, A);
    OneLabel(zone, owner, A);
    assert w.name != owner ==> At({w}, zone.id, Address, owner) == {};
    FindRecordsSplit({w}, zone, rr, Address, w);
    assert RrsetRows({w}, zone, rr) == {w};
    assert {w} - {w} == {};
    PlainRest(sv, {}, zone.id);
    assert Captures({w}, zone, rr, w);
    assert CapturesAlone(sv, {w}, zone, rr, {});
  }

  /** Deleting the address RRset of a name that has none deletes its wildcard's. */
  lemma WildcardDeleted(sv: Serving, zone: Zone, w: Row, owner: Label)
    requires IsAddressRow(w, zone) && w.name == "*" && owner != "*"
    ensures Applies({w}, ROOT_KEY, zone, Deletion(zone, owner, A), Continue, {})
    ensures Strays(sv, {w}, zone, Deletion(zone, owner, A), {})
  {
    SplitOne("*");
    assert Lower([owner])[0] != "*" by {
      assert |owner| == 1 ==> owner != [owner[0]] || LowerChar(owner[0]) != '*';
    }
    FoundIsTaken(sv, zone, w, owner);
  }

  /** Deleting the address RRset of the name "@" below the apex deletes the apex's. */
  lemma ApexDeleted(sv: Serving, zone: Zone, w: Row)
    requires IsAddressRow(w, zone) && w.name == "@"
    ensures Applies({w}, ROOT_KEY, zone, Deletion(zone, "@", A), Continue, {})
    ensures Strays(sv, {w}, zone, Deletion(zone, "@", A), {})
  {
    FoundIsTaken(sv, zone, w, "@");
  }

  /** Deleting the address RRset of a name with a dot in its label deletes that of the name split there. */
  lemma DottedDeleted(sv: Serving, zone: Zone, w: Row, left: Label, right: Label)
    requires IsAddressRow(w, zone) && w.name == left + "." + right && '.' !in left && '.' !in right
    ensures Denote(w.name) == [left, right]
    ensures Applies({w}, ROOT_KEY, zone, Deletion(zone, w.name, A), Continue, {})
    ensures Strays(sv, {w}, zone, Deletion(zone, w.name, A), {})
  {
    SplitLabel(left, right);
    SplitOne(right);
    assert w.name[|left|] == '.';
    FoundIsTaken(sv, zone, w, w.name);
  }

  // ---------- Rows of other models ----------

  /**
   Deleting all RRsets of a name leaves everything that a row of another model
   serves there: a key fingerprint, a dynamic address, a redirect, an alias.
   */
  lemma OtherModelOverlooked(sv: Serving, zone: Zone, w: Row, d: Rdata, owner: Label)
    requires w.zone == zone.id && !Updatable(w.model) && w.name == owner && ServedName(w) == w.name
    requires d in sv.data(w) && WrittenAs(w.model, d.rtype)
    requires owner != "@" && '.' !in owner && LowerLabel(owner) == owner
    ensures Applies({w}, ROOT_KEY, zone, Deletion(zone, owner, ANY), Continue, {w})
    ensures Strays(sv, {w}, zone, Deletion(zone, owner, ANY), {w})
  {
    var rr := Deletion(zone, owner, ANY);
    OneLabel(zone, owner, ANY);
    SplitOne(owner);
    assert AllRows({w}, zone, rr) == {};
    assert {w} - {} == {w};
    var z := ZoneRr([owner], d, w.ttl);
    assert z in Fixed(sv, {w}, zone.id);
    assert OwnerOf(zone, rr) == [owner];
    assert z in Rest(sv, {w}, zone.id) && Aims(zone, rr, z);
  }

  /** Deleting one RRset of a name leaves the RRs of that type that a row of another model serves there. */
  lemma DynamicAddressOverlooked(sv: Serving, zone: Zone, w: Row, d: Rdata, owner: Label)
    requires w.zone == zone.id && w.model == DynamicAddress && w.name == owner && d in sv.data(w) && d.rtype == A
    requires owner != "@" && '.' !in owner && LowerLabel(owner) == owner
    ensures Applies({w}, ROOT_KEY, zone, Deletion(zone, owner, A), Continue, {w})
    ensures Strays(sv, {w}, zone, Deletion(zone, owner, A), {w})
  {
    var rr := Deletion(zone, owner, A);
    OneLabel(zone, owner, A);
    SplitOne(owner);
    assert RrsetRows({w}, zone, rr) == {};
    assert {w} - {} == {w};
    var z := ZoneRr([owner], d, w.ttl);
    assert z in Fixed(sv, {w}, zone.id);
    assert OwnerOf(zone, rr) == [owner];
    assert z in Rest(sv, {w}, zone.id) && Aims(zone, rr, z);
  }

  /** A message that deletes all RRsets of a name neglects what a row of another model serves there. */
  lemma OtherModelNeglected(sv: Serving, zone: Zone, w: Row, d: Rdata, owner: Label)
    requires w.zone == zone.id && !Updatable(w.model) && w.name == owner && ServedName(w) == w.name
    requires d in sv.data(w) && WrittenAs(w.model, d.rtype)
    requires owner != "@" && '.' !in owner && LowerLabel(owner) == owner
    ensures Neglects(sv, {w}, zone, [Deletion(zone, owner, ANY)])
  {
    var rr, db := Deletion(zone, owner, ANY), {w};
    OneLabel(zone, owner, ANY);
    SplitOne(owner);
    var z := ZoneRr([owner], d, w.ttl);
    assert OwnerOf(zone, rr) == [owner] && [rr][..0] == [] && [rr][1..] == [];
    var none: set<ZoneRr> := {};
    assert View(db, zone.id) == none && Rfc(none, zone, rr) == none;
    assert RfcFold(none, zone, [rr]) == RfcFold(none, zone, []) == none;
    assert RowsAfter(db, zone, [rr]) == none;
    assert z in Fixed(sv, db, zone.id);
    assert ConcernedAt({}, zone, [rr], z, 0);
    assert Bypasses(sv, db, zone, [rr], 0, z);
  }

  lemma DeletionInDomain(zone: Zone, owner: Label)
    requires owner != "@" && owner != "*" && '.' !in owner && LowerLabel(owner) == owner
    ensures InDomain(ROOT_KEY, zone, Deletion(zone, owner, ANY)) && !IsWildName(owner)
  {
    var rr := Deletion(zone, owner, ANY);
    OneLabel(zone, owner, ANY);
    assert rr.name[1..] == zone.root;
    assert |owner| >= 2 ==> owner[..2][1] == owner[1] && owner[1] in owner;
    assert OwnerOf(zone, rr) == [owner];
  }

  /** Such a message does not do what the RFC says, in some run. */
  lemma NeglectfulMessage(sv: Serving, zone: Zone, w: Row, d: Rdata, owner: Label)
    requires w.zone == zone.id && !Updatable(w.model) && w.name == owner && ServedName(w) == w.name
    requires d in sv.data(w) && WrittenAs(w.model, d.rtype)
    requires owner != "@" && owner != "*" && '.' !in owner && LowerLabel(owner) == owner
    ensures !LoopAlwaysRfc(sv, {w}, ROOT_KEY, zone, [Deletion(zone, owner, ANY)])
  {
    OtherModelNeglected(sv, zone, w, d, owner);
    DeletionInDomain(zone, owner);
    assert Ready({w}, zone);
    LoopIsRfc(sv, {w}, ROOT_KEY, zone, [Deletion(zone, owner, ANY)]);
  }

  /** Deleting the address of a name takes it away from an ANAME of the zone that points there. */
  lemma AliasWithdrawn(sv: Serving, zone: Zone, a: Row, w: Row, owner: Label)
    requires IsAddressRow(a, zone) && a.name == owner
    requires w.zone == zone.id && w.model == Aname && sv.aliasOf(w) == Some(owner) && sv.data(w) == {}
    requires owner != "@" && Denote(w.name) != Lower([owner])
    ensures Applies({a, w}, ROOT_KEY, zone, Deletion(zone, owner, A), Continue, {w})
    ensures Strays(sv, {a, w}, zone, Deletion(zone, owner, A), {w})
  {
    var rr := Deletion(zone, owner, A);
    OneLabel(zone, owner, A);
    FindRecordsSplit({a, w}, zone, rr, Address, a);
    assert RrsetRows({a, w}, zone, rr) == {a};
    assert {a, w} - {a} == {w};
    AnswerWithdrawn(sv, zone, a, w);
    assert !Aims(zone, rr, AnswerOf(w, RrOf(a)));
  }

  lemma AnswerWithdrawn(sv: Serving, zone: Zone, a: Row, w: Row)
    requires IsAddressRow(a, zone) && w.zone == zone.id && w.model == Aname
    requires sv.aliasOf(w) == Some(a.name) && sv.data(w) == {}
    ensures AnswerOf(w, RrOf(a)) in Rest(sv, {a, w}, zone.id) && AnswerOf(w, RrOf(a)) !in Full(sv, {w}, zone.id)
  {
    var z := AnswerOf(w, RrOf(a));
    assert RrOf(a) in View({a, w}, zone.id) && Answers(sv, w, RrOf(a));
    assert z in Aliased(sv, {a, w}, zone.id, View({a, w}, zone.id));
    assert View({w}, zone.id) == {};
    assert z !in Header(sv);
  }

  // ---------- Copies ----------

  /** Where two copies have other TTLs than the RR's, no outcome is the RFC's, whichever of them is refreshed. */
  lemma DuplicateOutlivesRefresh(sv: Serving, db: Database, key: Key, zone: Zone, rr: RR, out: Outcome, db': Database,
                                 r: Row, s: Row)
    requires Admissible(db, zone, rr) && Authorised(key, zone, rr) && Applies(db, key, zone, rr, out, db')
    requires r in db && s in db && Twins(r, s) && InView(r, zone.id) && Denote(r.name) == OwnerOf(zone, rr)
    requires r.rdata == RdataOf(rr) && r.ttl != rr.ttl && s.ttl != rr.ttl
    ensures Full(sv, db', zone.id) != Rfc(Full(sv, db, zone.id), zone, rr)
  {
    AuthorisedStep(db, key, zone, rr, out, db');
    OwnIsFound(db, zone, rr, r);
    MatchingIsFound(db, zone, rr, r);
    var m :| m in Matching(db, zone, rr) && db' == db - {m} + {Refresh(m, zone, rr)};
    MatchingIsFound(db, zone, rr, m);
    assert r in At(db, zone.id, r.model, SearchName(zone, rr)) && r.model == m.model;
    RefreshStep(sv, db, zone, rr, m);
    assert Twins(m, if m == r then s else r);
  }

  predicate OtherCname(zone: Zone, c: Row, rr: RR) {
    && rr.rclass == CLASS_IN && rr.rtype == CNAME && rr.data.Some?
    && c.zone == zone.id && c.model == Cname && c.name == SearchName(zone, rr) && c.rdata != RdataOf(rr)
  }

  lemma SecondCnameStored(zone: Zone, c: Row, rr: RR)
    requires Supported(rr) && OtherCname(zone, c, rr)
    ensures !Conflict({c}, zone, rr) && Adds({c}, zone, rr, Continue, {c} + {NewRow(c.id + 1, zone, rr)})
  {
    assert !Conflict({c}, zone, rr);
    assert Matching({c}, zone, rr) == {};
    assert Created({c}, zone, rr, {c} + {NewRow(c.id + 1, zone, rr)});
  }

  /** A second CNAME goes in beside the first, which the RFC replaces. */
  lemma SecondCname(sv: Serving, zone: Zone, c: Row, rr: RR)
    requires Treated({c}, zone, rr) && OtherCname(zone, c, rr) && Nameable(OwnerOf(zone, rr))
    ensures var db' := {c} + {NewRow(c.id + 1, zone, rr)};
            Adds({c}, zone, rr, Continue, db') && AdditionStrays(sv, {c}, zone, rr, db')
  {
    var db', x := {c} + {NewRow(c.id + 1, zone, rr)}, NewRr(zone, rr);
    SecondCnameStored(zone, c, rr);
    LowerIsCanonical(zone, rr);
    PlainRest(sv, {c}, zone.id);
    assert ModelOf(c.rdata.rtype) == Some(Cname);
    assert View({c}, zone.id) == {RrOf(c)};
    assert {c} * db' == {c};
    assert Replaces(x, RrOf(c)) && RrOf(c) != x && !Blocks(RrOf(c), x);
    assert LeavesOld({RrOf(c)}, Rest(sv, db', zone.id), x);
  }
}
