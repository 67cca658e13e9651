/**
 The update loop against sections 3.4.2.2 to 3.4.2.4 of RFC 2136, stated as a
 transformer of the set of RRs that a zone serves, whatever model they come from.
 */
module Rfc2136 {
  import opened Names
  import opened UpdateModel
  import opened UpdateProof
  import opened ZoneContent

  // ---------- The RFC's transformer ----------

  /** The owner that an update RR names, which DNS compares without case. */
  function OwnerOf(zone: Zone, rr: RR): Name {
    Lower(Rel(zone, rr))
  }

  /** An RR beside which the addition of x is ignored: a CNAME for other types, any other type for a CNAME. */
  predicate Blocks(z: ZoneRr, x: ZoneRr) {
    z.owner == x.owner && (x.rdata.rtype == CNAME) != (z.rdata.rtype == CNAME)
  }

  ghost predicate Blocked(v: set<ZoneRr>, x: ZoneRr) {
    exists z :: z in v && Blocks(z, x)
  }

  /** An RR whose place x takes: the one with its data, and for a CNAME every CNAME. */
  predicate Replaces(x: ZoneRr, z: ZoneRr) {
    z.owner == x.owner && if x.rdata.rtype == CNAME then z.rdata.rtype == CNAME else z.rdata == x.rdata
  }

  /** Section 3.4.2.2: ignore, or else add or replace. */
  ghost function Add(v: set<ZoneRr>, x: ZoneRr): set<ZoneRr> {
    if Blocked(v, x) then v else (set z | z in v && !Replaces(x, z)) + {x}
  }

  /** Sections 3.4.2.3 and 3.4.2.4: what a deletion is aimed at, an RRset, all RRsets at a name, or one RR. */
  predicate Aims(zone: Zone, rr: RR, z: ZoneRr) {
    && z.owner == OwnerOf(zone, rr)
    && if rr.rclass == CLASS_ANY then rr.rtype == ANY || z.rdata.rtype == rr.rtype
       else rr.rclass == CLASS_NONE && rr.data.Some? && z.rdata == RdataOf(rr)
  }

  function NewRr(zone: Zone, rr: RR): ZoneRr
    requires rr.data.Some?
  {
    ZoneRr(OwnerOf(zone, rr), RdataOf(rr), rr.ttl)
  }

  ghost function Rfc(v: set<ZoneRr>, zone: Zone, rr: RR): set<ZoneRr> {
    if rr.rclass == CLASS_IN && rr.data.Some? then Add(v, NewRr(zone, rr))
    else set z | z in v && !Aims(zone, rr, z)
  }

  // ---------- The domain ----------

  /** The key may manage what the RR names: its type, or every type for a deletion of all RRsets. */
  ghost predicate Authorised(key: Key, zone: Zone, rr: RR) {
    if rr.rclass == CLASS_ANY && rr.rtype == ANY then forall t :: CanManage(key, t, Rel(zone, rr)) == Allowed
    else CanManage(key, rr.rtype, Rel(zone, rr)) == Allowed
  }

  predicate Supported(rr: RR) {
    || (rr.rclass == CLASS_IN && ModelOf(rr.rtype).Some? && rr.data.Some? && rr.converts && rr.refreshes && rr.saves)
    || (rr.rclass == CLASS_ANY && (rr.rtype == ANY || ModelOf(rr.rtype).Some?))
    || (rr.rclass == CLASS_NONE && ModelOf(rr.rtype).Some?)
  }

  /** The RR's name lies in the zone, below the apex, and is in lower case. */
  predicate LowerBelowApex(zone: Zone, rr: RR) {
    IsSuffix(zone.root, rr.name) && Rel(zone, rr) != [] && Lower(Rel(zone, rr)) == Rel(zone, rr)
  }

  ghost predicate Treated(db: Database, zone: Zone, rr: RR) {
    WellFormed(db) && Supported(rr) && LowerBelowApex(zone, rr)
  }

  /** Such a name is searched for as it is stored. */
  lemma LowerIsCanonical(zone: Zone, rr: RR)
    requires LowerBelowApex(zone, rr)
    ensures Canonical(zone, rr)
    ensures OwnerOf(zone, rr) == Rel(zone, rr) && TextOf(OwnerOf(zone, rr)) == SearchName(zone, rr)
    ensures Nameable(OwnerOf(zone, rr)) ==> Denote(SearchName(zone, rr)) == OwnerOf(zone, rr)
    ensures forall text :: Denote(text) == OwnerOf(zone, rr) ==> text == SearchName(zone, rr)
  {
    assert |Lower(rr.name)| != |Lower(zone.root)|;
    if Nameable(OwnerOf(zone, rr)) {
      DenoteTextOf(OwnerOf(zone, rr));
    }
    forall text | Denote(text) == OwnerOf(zone, rr)
      ensures text == SearchName(zone, rr)
    {
      JoinSplit(text);
    }
  }

  /** Wherever a text stands for the owner, the apex included, the stored text stands for it. */
  lemma StoredDenotes(zone: Zone, rr: RR)
    requires IsSuffix(zone.root, rr.name) && Nameable(OwnerOf(zone, rr))
    ensures Denote(StoredName(zone, rr)) == OwnerOf(zone, rr)
  {
    if Rel(zone, rr) == [] {
      assert rr.name == zone.root;
    } else {
      assert |Lower(rr.name)| != |Lower(zone.root)|;
      DenoteTextOf(OwnerOf(zone, rr));
    }
  }

  // ---------- What the code finds ----------

  predicate ExactEmpty(db: Database, zone: Zone, rr: RR, m: Model) {
    At(db, zone.id, m, SearchName(zone, rr)) == {}
  }

  /** What `find_records` returns: rows at the text searched for, or else at its wildcard. */
  predicate Found(db: Database, zone: Zone, rr: RR, r: Row) {
    && r in db && InView(r, zone.id)
    && (r.name == SearchName(zone, rr) || (r.name == WildName(zone, rr) && ExactEmpty(db, zone, rr, r.model)))
  }

  /** A row that the RR would act on if its owner were the RR's. */
  predicate Selects(rr: RR, r: Row) {
    if rr.rclass == CLASS_ANY then rr.rtype == ANY || r.rdata.rtype == rr.rtype
    else rr.data.Some? && r.rdata == RdataOf(rr)
  }

  function Gone(db: Database, zone: Zone, rr: RR): set<Row>
    requires Supported(rr) && rr.rclass != CLASS_IN
  {
    if rr.rclass == CLASS_ANY && rr.rtype == ANY then AllRows(db, zone, rr)
    else if rr.rclass == CLASS_ANY then RrsetRows(db, zone, rr)
    else OneRows(db, zone, rr)
  }

  lemma FindRecordsSplit(db: Database, zone: Zone, rr: RR, m: Model, r: Row)
    requires Updatable(m)
    ensures r in FindRecords(db, zone.id, m, Rel(zone, rr)) <==> Found(db, zone, rr, r) && r.model == m
  {
    var exact := At(db, zone.id, m, SearchName(zone, rr));
    if r in db && r.zone == zone.id && r.model == m && r.name == SearchName(zone, rr) {
      assert r in exact;
    }
  }

  /** A deletion takes the rows that are found and selected. */
  lemma GoneIsFound(db: Database, zone: Zone, rr: RR, r: Row)
    requires WellFormed(db) && Supported(rr) && rr.rclass != CLASS_IN
    ensures r in Gone(db, zone, rr) <==> Found(db, zone, rr, r) && Selects(rr, r)
  {
    if Updatable(r.model) {
      FindRecordsSplit(db, zone, rr, r.model, r);
    } else {
      assert ModelOf(rr.rtype).Some? ==> Updatable(ModelOf(rr.rtype).value);
    }
  }

  lemma MatchingIsFound(db: Database, zone: Zone, rr: RR, r: Row)
    requires WellFormed(db) && Supported(rr) && rr.rclass == CLASS_IN
    ensures r in Matching(db, zone, rr) <==> Found(db, zone, rr, r) && r.rdata == RdataOf(rr)
  {
    var m := ModelOf(rr.rtype).value;
    FindRecordsSplit(db, zone, rr, m, r);
  }

  /** Rows that look the same to the RFC are the same to the code. */
  lemma SameViewSameFate(db: Database, zone: Zone, rr: RR, r: Row, s: Row)
    requires WellFormed(db) && r in db && s in db && InView(r, zone.id) && InView(s, zone.id) && RrOf(r) == RrOf(s)
    ensures r.name == s.name && r.model == s.model
    ensures Found(db, zone, rr, r) <==> Found(db, zone, rr, s)
  {
    DenoteInjective(r.name, s.name);
  }

  /** A row of the RR's owner is found. */
  lemma OwnIsFound(db: Database, zone: Zone, rr: RR, r: Row)
    requires LowerBelowApex(zone, rr) && r in db && InView(r, zone.id) && Denote(r.name) == OwnerOf(zone, rr)
    ensures r.name == SearchName(zone, rr) && Found(db, zone, rr, r)
  {
    LowerIsCanonical(zone, rr);
  }

  /** What an authorised RR does, by class. */
  lemma AuthorisedStep(db: Database, key: Key, zone: Zone, rr: RR, out: Outcome, db': Database)
    requires Supported(rr) && Authorised(key, zone, rr) && Applies(db, key, zone, rr, out, db')
    ensures rr.rclass != CLASS_IN ==> out == Continue && db' == db - Gone(db, zone, rr)
    ensures rr.rclass == CLASS_IN ==> out == Continue && Adds(db, zone, rr, out, db')
  {
    if rr.rclass == CLASS_ANY && rr.rtype == ANY {
      forall r | r in AllRows(db, zone, rr)
        ensures Authorise(key, r.rdata.rtype, Rel(zone, rr)).None?
      {
        assert CanManage(key, r.rdata.rtype, Rel(zone, rr)) == Allowed;
      }
    }
  }

  /** No update touches a row of a model that updates cannot change. */
  lemma StepSameOthers(db: Database, key: Key, zone: Zone, rr: RR, out: Outcome, db': Database)
    requires Applies(db, key, zone, rr, out, db')
    ensures SameOthers(db, db')
  {
    StepFrame(db, key, zone, rr, out, db');
    assert ModelOf(rr.rtype).Some? ==> Updatable(ModelOf(rr.rtype).value);
  }

  // ---------- Deletions ----------

  /**
   A deletion reaches a row of another owner: the wildcard's, or the row whose
   text the owner is mistaken for.
   */
  ghost predicate Captures(db: Database, zone: Zone, rr: RR, r: Row) {
    Found(db, zone, rr, r) && Selects(rr, r) && Denote(r.name) != OwnerOf(zone, rr)
  }

  /** The deletion is aimed at an RR that a row of another model goes on serving. */
  ghost predicate Overlooks(sv: Serving, zone: Zone, rr: RR, db': Database) {
    exists z :: z in Rest(sv, db', zone.id) && Aims(zone, rr, z)
  }

  /** It captures a row whose RR no other model serves. */
  ghost predicate CapturesAlone(sv: Serving, db: Database, zone: Zone, rr: RR, db': Database) {
    exists r :: Captures(db, zone, rr, r) && RrOf(r) !in Rest(sv, db', zone.id)
  }

  /** It takes an address away from an ANAME that answers with it. */
  ghost predicate Withdraws(sv: Serving, db: Database, zone: Zone, rr: RR, db': Database) {
    exists z :: z in Rest(sv, db, zone.id) && !Aims(zone, rr, z) && z !in Full(sv, db', zone.id)
  }

  ghost predicate DeletionStrays(sv: Serving, db: Database, zone: Zone, rr: RR, db': Database) {
    || Overlooks(sv, zone, rr, db')
    || CapturesAlone(sv, db, zone, rr, db')
    || Withdraws(sv, db, zone, rr, db')
  }

  lemma GoneShrinks(sv: Serving, db: Database, zone: Zone, gone: set<Row>)
    requires forall r :: r in gone ==> Updatable(r.model)
    ensures View(db - gone, zone.id) <= View(db, zone.id)
    ensures Rest(sv, db - gone, zone.id) <= Rest(sv, db, zone.id)
  {
    BesideSame(sv, db - gone, db, zone.id, View(db - gone, zone.id));
    BesideGrows(sv, db, zone.id, View(db - gone, zone.id), View(db, zone.id));
  }

  /** A captured row leaves the RRs of the rows that updates change. */
  lemma CapturedLeaves(db: Database, zone: Zone, rr: RR, r: Row)
    requires Treated(db, zone, rr) && rr.rclass != CLASS_IN && Captures(db, zone, rr, r)
    ensures RrOf(r) !in View(db - Gone(db, zone, rr), zone.id)
  {
    forall s | s in db - Gone(db, zone, rr) && InView(s, zone.id)
      ensures RrOf(s) != RrOf(r)
    {
      GoneIsFound(db, zone, rr, s);
      if RrOf(s) == RrOf(r) {
        SameViewSameFate(db, zone, rr, r, s);
      }
    }
  }

  /** A row that stays is not aimed at; a row that goes is, unless it was captured. */
  lemma RowAimed(db: Database, zone: Zone, rr: RR, r: Row)
    requires Treated(db, zone, rr) && rr.rclass != CLASS_IN && r in db && InView(r, zone.id)
    ensures r in Gone(db, zone, rr) <==> Aims(zone, rr, RrOf(r)) || Captures(db, zone, rr, r)
  {
    GoneIsFound(db, zone, rr, r);
    if Denote(r.name) == OwnerOf(zone, rr) {
      OwnIsFound(db, zone, rr, r);
    }
  }

  lemma DeletionKeeps(sv: Serving, db: Database, zone: Zone, rr: RR, z: ZoneRr)
    requires Treated(db, zone, rr) && rr.rclass != CLASS_IN
    ensures !DeletionStrays(sv, db, zone, rr, db - Gone(db, zone, rr)) ==>
              (z in Full(sv, db - Gone(db, zone, rr), zone.id) <==> z in Full(sv, db, zone.id) && !Aims(zone, rr, z))
  {
    var gone := Gone(db, zone, rr);
    forall r | r in gone
      ensures Updatable(r.model)
    {
      GoneIsFound(db, zone, rr, r);
    }
    GoneShrinks(sv, db, zone, gone);
    if z in View(db - gone, zone.id) {
      var r :| r in db - gone && InView(r, zone.id) && RrOf(r) == z;
      RowAimed(db, zone, rr, r);
    }
    if z in View(db, zone.id) && !Aims(zone, rr, z) {
      var r :| r in db && InView(r, zone.id) && RrOf(r) == z;
      RowAimed(db, zone, rr, r);
      if r !in gone {
        assert r in db - gone;
      }
    }
  }

  /**
   A deletion of an RRset, of all RRsets at a name or of one RR is the RFC's, if
   and only if it overlooks nothing, captures no row alone and withdraws nothing.
   */
  lemma DeletionStep(sv: Serving, db: Database, zone: Zone, rr: RR)
    requires Treated(db, zone, rr) && rr.rclass != CLASS_IN
    ensures var db' := db - Gone(db, zone, rr);
            Full(sv, db', zone.id) == Rfc(Full(sv, db, zone.id), zone, rr)
            <==> !DeletionStrays(sv, db, zone, rr, db')
  {
    var db' := db - Gone(db, zone, rr);
    var f, w := Full(sv, db', zone.id), Rfc(Full(sv, db, zone.id), zone, rr);
    if Overlooks(sv, zone, rr, db') {
      var z :| z in Rest(sv, db', zone.id) && Aims(zone, rr, z);
      assert z in f && z !in w;
    } else if CapturesAlone(sv, db, zone, rr, db') {
      var r :| Captures(db, zone, rr, r) && RrOf(r) !in Rest(sv, db', zone.id);
      CapturedLeaves(db, zone, rr, r);
      assert RrOf(r) in View(db, zone.id);
      assert RrOf(r) in w && RrOf(r) !in f;
    } else if Withdraws(sv, db, zone, rr, db') {
      var z :| z in Rest(sv, db, zone.id) && !Aims(zone, rr, z) && z !in f;
      assert z in w;
    } else {
      forall z
        ensures z in f <==> z in w
      {
        DeletionKeeps(sv, db, zone, rr, z);
      }
    }
  }

  // ---------- Additions ----------

  /** An addition for an owner that no text stands for. */
  predicate Misplaced(zone: Zone, rr: RR) {
    rr.rclass == CLASS_IN && !Nameable(OwnerOf(zone, rr))
  }

  /** The zone already is what adding x makes it. */
  ghost predicate Settled(v: set<ZoneRr>, x: ZoneRr) {
    Blocked(v, x) || (x in v && forall z :: z in v && Replaces(x, z) ==> z == x)
  }

  /** An RR that x should replace stays: a second copy, a second CNAME, or an RR of another model. */
  ghost predicate LeavesOld(kept: set<ZoneRr>, rest: set<ZoneRr>, x: ZoneRr) {
    exists z :: z in kept + rest && Replaces(x, z) && z != x
  }

  /** An ANAME that points at the owner comes to answer with the new address. */
  ghost predicate Spreads(sv: Serving, db: Database, zone: Zone, x: ZoneRr) {
    exists r :: r in db && r.zone == zone.id && Answers(sv, r, x)
                && AnswerOf(r, x) != x && AnswerOf(r, x) !in Full(sv, db, zone.id)
  }

  /** An ANAME that points at the name of row m loses the answer it had from m. */
  ghost predicate LosesAnswer(sv: Serving, db: Database, zone: Zone, x: ZoneRr, db': Database, m: Row) {
    exists r :: r in db && r.zone == zone.id && Answers(sv, r, RrOf(m)) && !Replaces(x, AnswerOf(r, RrOf(m)))
                && AnswerOf(r, RrOf(m)) !in Full(sv, db', zone.id)
  }

  /** A row of another name, the wildcard's, was renamed, and its RR or an ANAME's answer went with it. */
  ghost predicate Uproots(sv: Serving, db: Database, zone: Zone, x: ZoneRr, db': Database) {
    exists m :: m in db - db' && InView(m, zone.id) && Denote(m.name) != x.owner
                && (RrOf(m) !in Full(sv, db', zone.id) || LosesAnswer(sv, db, zone, x, db', m))
  }

  /** The RFC ignores x, and the code brought it or changed the TTL or the name of a row. */
  ghost predicate Intrudes(sv: Serving, db: Database, zone: Zone, x: ZoneRr, db': Database) {
    || x !in Full(sv, db, zone.id)
    || exists m :: m in db - db' && InView(m, zone.id) && RrOf(m) !in Full(sv, db', zone.id)
  }

  /** A row was stored for x, and the zone is not what adding x makes it. */
  ghost predicate StoringStrays(sv: Serving, db: Database, zone: Zone, x: ZoneRr, db': Database) {
    if Blocked(Full(sv, db, zone.id), x) then Intrudes(sv, db, zone, x, db')
    else
      || LeavesOld(View(db * db', zone.id), Rest(sv, db', zone.id), x)
      || Spreads(sv, db, zone, x)
      || Uproots(sv, db, zone, x, db')
  }

  ghost predicate AdditionStrays(sv: Serving, db: Database, zone: Zone, rr: RR, db': Database)
    requires Supported(rr) && rr.rclass == CLASS_IN
  {
    var x := NewRr(zone, rr);
    if Conflict(db, zone, rr) then !Settled(Full(sv, db, zone.id), x)
    else
      || Misplaced(zone, rr)
      || StoringStrays(sv, db, zone, x, db')
  }

  /** What the step stored: one row for the RR beside the rows it left alone. */
  lemma StoredView(db: Database, zone: Zone, rr: RR, out: Outcome, db': Database)
    requires Treated(db, zone, rr) && rr.rclass == CLASS_IN && Nameable(OwnerOf(zone, rr))
    requires Adds(db, zone, rr, out, db') && !Conflict(db, zone, rr)
    ensures View(db', zone.id) == View(db * db', zone.id) + {NewRr(zone, rr)}
  {
    LowerIsCanonical(zone, rr);
    var n;
    if Matching(db, zone, rr) != {} {
      var m :| m in Matching(db, zone, rr) && db' == db - {m} + {Refresh(m, zone, rr)};
      MatchingIsFound(db, zone, rr, m);
      n := Refresh(m, zone, rr);
    } else {
      var id :| (forall r :: r in db ==> r.id != id) && db' == db + {NewRow(id, zone, rr)};
      n := NewRow(id, zone, rr);
    }
    assert db' == db * db' + {n};
    assert InView(n, zone.id) && RrOf(n) == NewRr(zone, rr);
    ViewPlus(db * db', n, zone.id);
  }

  lemma ViewPlus(db: Database, n: Row, zone: nat)
    requires InView(n, zone)
    ensures View(db + {n}, zone) == View(db, zone) + {RrOf(n)}
  {
    forall z | z in View(db, zone) + {RrOf(n)}
      ensures z in View(db + {n}, zone)
    {
      if z in View(db, zone) {
        var r :| r in db && InView(r, zone) && RrOf(r) == z;
        assert r in db + {n};
      } else {
        assert n in db + {n};
      }
    }
  }

  /** A row that the step took away held the RR's data. */
  lemma TakenRow(db: Database, zone: Zone, rr: RR, out: Outcome, db': Database, m: Row)
    requires Treated(db, zone, rr) && rr.rclass == CLASS_IN && Adds(db, zone, rr, out, db') && m in db - db'
    ensures InView(m, zone.id) && m.rdata == RdataOf(rr)
  {
    MatchingIsFound(db, zone, rr, m);
  }

  lemma AddsSameOthers(db: Database, zone: Zone, rr: RR, out: Outcome, db': Database)
    requires Treated(db, zone, rr) && rr.rclass == CLASS_IN && Adds(db, zone, rr, out, db')
    ensures SameOthers(db, db')
  {
    assert Updatable(ModelOf(rr.rtype).value);
    if !(db' <= db) && Matching(db, zone, rr) != {} {
      var m :| m in Matching(db, zone, rr) && db' == db - {m} + {Refresh(m, zone, rr)};
      MatchingIsFound(db, zone, rr, m);
    }
  }

  /** What other models newly serve after the step: answers of ANAMEs with the new address. */
  lemma RestGains(sv: Serving, db: Database, zone: Zone, rr: RR, out: Outcome, db': Database, z: ZoneRr)
    returns (r: Row)
    requires Treated(db, zone, rr) && rr.rclass == CLASS_IN && Nameable(OwnerOf(zone, rr))
    requires Adds(db, zone, rr, out, db') && !Conflict(db, zone, rr)
    ensures z in Rest(sv, db', zone.id) && z !in Rest(sv, db, zone.id) ==>
              r in db && r.zone == zone.id && Answers(sv, r, NewRr(zone, rr)) && z == AnswerOf(r, NewRr(zone, rr))
  {
    AddsSameOthers(db, zone, rr, out, db');
    BesideSame(sv, db', db, zone.id, View(db', zone.id));
    r := *;
    if z in Rest(sv, db', zone.id) && z !in Rest(sv, db, zone.id) {
      var y;
      r, y := BesideDiffers(sv, db, zone.id, View(db', zone.id), View(db, zone.id), z);
      OnlyNewRr(db, zone, rr, out, db', y);
    }
  }

  /** The one RR that the step brings. */
  lemma OnlyNewRr(db: Database, zone: Zone, rr: RR, out: Outcome, db': Database, y: ZoneRr)
    requires Treated(db, zone, rr) && rr.rclass == CLASS_IN && Nameable(OwnerOf(zone, rr))
    requires Adds(db, zone, rr, out, db') && !Conflict(db, zone, rr)
    requires y in View(db', zone.id) && y !in View(db, zone.id)
    ensures y == NewRr(zone, rr)
  {
    StoredView(db, zone, rr, out, db');
    ViewWithin(db * db', db, zone.id);
  }

  /** What they no longer serve: answers of ANAMEs with the address of a row that was renamed. */
  lemma RestLosses(sv: Serving, db: Database, zone: Zone, rr: RR, out: Outcome, db': Database, z: ZoneRr)
    returns (r: Row, m: Row)
    requires Treated(db, zone, rr) && rr.rclass == CLASS_IN && Nameable(OwnerOf(zone, rr))
    requires Adds(db, zone, rr, out, db') && !Conflict(db, zone, rr)
    ensures z in Rest(sv, db, zone.id) && z !in Rest(sv, db', zone.id) ==>
              && r in db && r.zone == zone.id && m in db - db' && Answers(sv, r, RrOf(m))
              && Denote(m.name) != OwnerOf(zone, rr) && z == AnswerOf(r, RrOf(m))
  {
    AddsSameOthers(db, zone, rr, out, db');
    BesideSame(sv, db', db, zone.id, View(db', zone.id));
    r, m := *, *;
    if z in Rest(sv, db, zone.id) && z !in Rest(sv, db', zone.id) {
      var y;
      r, y := BesideDiffers(sv, db, zone.id, View(db, zone.id), View(db', zone.id), z);
      m :| m in db && InView(m, zone.id) && RrOf(m) == y;
      TakenRow(db, zone, rr, out, db', m);
      if Denote(m.name) == OwnerOf(zone, rr) {
        AnswerComes(sv, db, zone, rr, out, db', r);
      }
    }
  }

  /** An ANAME that points at the owner answers with the new address. */
  lemma AnswerComes(sv: Serving, db: Database, zone: Zone, rr: RR, out: Outcome, db': Database, r: Row)
    requires Treated(db, zone, rr) && rr.rclass == CLASS_IN && Nameable(OwnerOf(zone, rr))
    requires Adds(db, zone, rr, out, db') && !Conflict(db, zone, rr)
    requires r in db && r.zone == zone.id && Answers(sv, r, NewRr(zone, rr))
    ensures AnswerOf(r, NewRr(zone, rr)) in Rest(sv, db', zone.id)
  {
    StoredView(db, zone, rr, out, db');
    AddsSameOthers(db, zone, rr, out, db');
    BesideSame(sv, db', db, zone.id, View(db', zone.id));
    assert NewRr(zone, rr) in View(db', zone.id);
    assert AnswerOf(r, NewRr(zone, rr)) in Aliased(sv, db, zone.id, View(db', zone.id));
  }

  /** In sets: what is left after the step, and what adding x leaves. */
  ghost predicate Differs(before: set<ZoneRr>, kept: set<ZoneRr>, rest: set<ZoneRr>, x: ZoneRr) {
    var after := kept + {x} + rest;
    if Blocked(before, x) then after != before
    else
      || LeavesOld(kept, rest, x)
      || (exists z :: z in rest && z != x && z !in before)
      || (exists z :: z in before && !Replaces(x, z) && z !in after)
  }

  lemma DiffersInSets(before: set<ZoneRr>, kept: set<ZoneRr>, rest: set<ZoneRr>, x: ZoneRr)
    requires kept <= before
    ensures kept + {x} + rest == Add(before, x) <==> !Differs(before, kept, rest, x)
  {
    var after := kept + {x} + rest;
    if !Blocked(before, x) {
      if z :| z in kept + rest && Replaces(x, z) && z != x {
        assert z in after && z !in Add(before, x);
      } else if z :| z in rest && z != x && z !in before {
        assert z in after && z !in Add(before, x);
      } else if z :| z in before && !Replaces(x, z) && z !in after {
        assert z in Add(before, x);
      } else {
        forall z
          ensures z in after <==> z in Add(before, x)
        {
        }
      }
    }
  }

  /** What comes with a stored row beside it is an ANAME's answer. */
  lemma SpreadExactly(sv: Serving, db: Database, zone: Zone, rr: RR, out: Outcome, db': Database)
    requires Treated(db, zone, rr) && rr.rclass == CLASS_IN && Nameable(OwnerOf(zone, rr))
    requires Adds(db, zone, rr, out, db') && !Conflict(db, zone, rr)
    ensures (exists z :: z in Rest(sv, db', zone.id) && z != NewRr(zone, rr) && z !in Full(sv, db, zone.id))
            <==> Spreads(sv, db, zone, NewRr(zone, rr))
  {
    var x := NewRr(zone, rr);
    if z :| z in Rest(sv, db', zone.id) && z != x && z !in Full(sv, db, zone.id) {
      var r := RestGains(sv, db, zone, rr, out, db', z);
    }
    if r :| r in db && r.zone == zone.id && Answers(sv, r, x) && AnswerOf(r, x) != x
            && AnswerOf(r, x) !in Full(sv, db, zone.id)
    {
      AnswerComes(sv, db, zone, rr, out, db', r);
    }
  }

  /** What a stored row takes away, beside what it replaces, is the RR of a renamed row or an ANAME's answer. */
  lemma UprootExactly(sv: Serving, db: Database, zone: Zone, rr: RR, out: Outcome, db': Database)
    requires Treated(db, zone, rr) && rr.rclass == CLASS_IN && Nameable(OwnerOf(zone, rr))
    requires Adds(db, zone, rr, out, db') && !Conflict(db, zone, rr)
    ensures (exists z :: z in Full(sv, db, zone.id) && !Replaces(NewRr(zone, rr), z) && z !in Full(sv, db', zone.id))
            <==> Uproots(sv, db, zone, NewRr(zone, rr), db')
  {
    var x := NewRr(zone, rr);
    if z :| z in Full(sv, db, zone.id) && !Replaces(x, z) && z !in Full(sv, db', zone.id) {
      if z in View(db, zone.id) {
        var m :| m in db && InView(m, zone.id) && RrOf(m) == z;
        assert m !in db';
        TakenRow(db, zone, rr, out, db', m);
      } else {
        var r, m := RestLosses(sv, db, zone, rr, out, db', z);
        TakenRow(db, zone, rr, out, db', m);
        assert LosesAnswer(sv, db, zone, x, db', m);
      }
    }
    if m :| m in db - db' && InView(m, zone.id) && Denote(m.name) != x.owner
            && (RrOf(m) !in Full(sv, db', zone.id) || LosesAnswer(sv, db, zone, x, db', m))
    {
      assert RrOf(m) in View(db, zone.id);
      if RrOf(m) in Full(sv, db', zone.id) {
        var r :| r in db && r.zone == zone.id && Answers(sv, r, RrOf(m)) && !Replaces(x, AnswerOf(r, RrOf(m)))
                 && AnswerOf(r, RrOf(m)) !in Full(sv, db', zone.id);
        assert AnswerOf(r, RrOf(m)) in Aliased(sv, db, zone.id, View(db, zone.id));
        assert AnswerOf(r, RrOf(m)) in Full(sv, db, zone.id);
      } else {
        assert RrOf(m) in Full(sv, db, zone.id) && !Replaces(x, RrOf(m));
      }
    }
  }

  /** Where the RFC ignores what the code stores, it is a CNAME, and the zone changes exactly by intrusion. */
  lemma IntrudeExactly(sv: Serving, db: Database, zone: Zone, rr: RR, out: Outcome, db': Database)
    requires Treated(db, zone, rr) && rr.rclass == CLASS_IN && Nameable(OwnerOf(zone, rr))
    requires Adds(db, zone, rr, out, db') && !Conflict(db, zone, rr)
    ensures Blocked(Full(sv, db, zone.id), NewRr(zone, rr)) ==>
              (Full(sv, db', zone.id) != Full(sv, db, zone.id) <==> Intrudes(sv, db, zone, NewRr(zone, rr), db'))
  {
    var x := NewRr(zone, rr);
    if rr.rtype != CNAME {
      ConflictIsRfc(sv, db, zone, rr);
    } else {
      StoredView(db, zone, rr, out, db');
      ViewWithin(db * db', db, zone.id);
      forall z
        ensures z in Rest(sv, db', zone.id) <==> z in Rest(sv, db, zone.id)
      {
        if z in Rest(sv, db', zone.id) && z !in Rest(sv, db, zone.id) {
          var r := RestGains(sv, db, zone, rr, out, db', z);
        } else if z in Rest(sv, db, zone.id) && z !in Rest(sv, db', zone.id) {
          var r, m := RestLosses(sv, db, zone, rr, out, db', z);
          TakenRow(db, zone, rr, out, db', m);
        }
      }
      if m :| m in db - db' && InView(m, zone.id) && RrOf(m) !in Full(sv, db', zone.id) {
        assert RrOf(m) in View(db, zone.id);
      } else if x in Full(sv, db, zone.id) {
        forall z | z in View(db, zone.id)
          ensures z in Full(sv, db', zone.id)
        {
          var m :| m in db && InView(m, zone.id) && RrOf(m) == z;
          if m in db' {
            assert z in View(db', zone.id);
          }
        }
        assert Full(sv, db', zone.id) == Full(sv, db, zone.id);
      }
    }
  }

  lemma StoringStep(sv: Serving, db: Database, zone: Zone, rr: RR, out: Outcome, db': Database)
    requires Treated(db, zone, rr) && rr.rclass == CLASS_IN && Nameable(OwnerOf(zone, rr))
    requires Adds(db, zone, rr, out, db') && !Conflict(db, zone, rr)
    ensures Full(sv, db', zone.id) == Rfc(Full(sv, db, zone.id), zone, rr)
            <==> !Differs(Full(sv, db, zone.id), View(db * db', zone.id), Rest(sv, db', zone.id), NewRr(zone, rr))
    ensures Full(sv, db', zone.id)
            == View(db * db', zone.id) + {NewRr(zone, rr)} + Rest(sv, db', zone.id)
  {
    StoredView(db, zone, rr, out, db');
    ViewWithin(db * db', db, zone.id);
    DiffersInSets(Full(sv, db, zone.id), View(db * db', zone.id), Rest(sv, db', zone.id), NewRr(zone, rr));
  }

  /** The difference has the causes that `StoringStrays` names. */
  lemma StoringCauses(sv: Serving, db: Database, zone: Zone, rr: RR, out: Outcome, db': Database)
    requires Treated(db, zone, rr) && rr.rclass == CLASS_IN && Nameable(OwnerOf(zone, rr))
    requires Adds(db, zone, rr, out, db') && !Conflict(db, zone, rr)
    ensures Full(sv, db', zone.id) == Rfc(Full(sv, db, zone.id), zone, rr)
            <==> !StoringStrays(sv, db, zone, NewRr(zone, rr), db')
  {
    StoringStep(sv, db, zone, rr, out, db');
    SpreadExactly(sv, db, zone, rr, out, db');
    UprootExactly(sv, db, zone, rr, out, db');
    IntrudeExactly(sv, db, zone, rr, out, db');
  }

  lemma ViewWithin(db: Database, db': Database, zone: nat)
    requires db <= db'
    ensures View(db, zone) <= View(db', zone)
  {
  }

  /** No text stands for the owner, so nothing that is served has it. */
  lemma UnnameableUnserved(sv: Serving, db: Database, zone: Zone, z: ZoneRr)
    requires !Nameable(z.owner)
    ensures z !in Full(sv, db, zone.id)
  {
    if z in View(db, zone.id) {
      ViewShape(db, zone.id, z);
    } else if z in Rest(sv, db, zone.id) {
      BesideShape(sv, db, zone.id, View(db, zone.id), z);
    }
  }

  lemma MisplacedStrays(sv: Serving, db: Database, zone: Zone, rr: RR, db': Database)
    requires Supported(rr) && Misplaced(zone, rr)
    ensures Full(sv, db', zone.id) != Rfc(Full(sv, db, zone.id), zone, rr)
    ensures !Settled(Full(sv, db, zone.id), NewRr(zone, rr))
  {
    var x := NewRr(zone, rr);
    UnnameableUnserved(sv, db', zone, x);
    UnnameableUnserved(sv, db, zone, x);
    forall z | z in Full(sv, db, zone.id)
      ensures !Blocks(z, x)
    {
      if z.owner == x.owner {
        UnnameableUnserved(sv, db, zone, z);
      }
    }
    assert x in Rfc(Full(sv, db, zone.id), zone, rr);
  }

  lemma SettledStays(v: set<ZoneRr>, x: ZoneRr)
    ensures Add(v, x) == v <==> Settled(v, x)
  {
    if !Blocked(v, x) && x in v {
      if forall z :: z in v && Replaces(x, z) ==> z == x {
        assert Add(v, x) == v;
      } else {
        var z :| z in v && Replaces(x, z) && z != x;
        assert z !in Add(v, x);
      }
    }
  }

  /** An addition is the RFC's, if and only if it does not stray. */
  lemma AdditionStep(sv: Serving, db: Database, zone: Zone, rr: RR, out: Outcome, db': Database)
    requires Treated(db, zone, rr) && rr.rclass == CLASS_IN && Adds(db, zone, rr, out, db')
    ensures Full(sv, db', zone.id) == Rfc(Full(sv, db, zone.id), zone, rr)
            <==> !AdditionStrays(sv, db, zone, rr, db')
  {
    if Conflict(db, zone, rr) {
      SettledStays(Full(sv, db, zone.id), NewRr(zone, rr));
    } else if Misplaced(zone, rr) {
      MisplacedStrays(sv, db, zone, rr, db');
    } else {
      StoringCauses(sv, db, zone, rr, out, db');
    }
  }

  // ---------- One step ----------

  ghost predicate Strays(sv: Serving, db: Database, zone: Zone, rr: RR, db': Database)
    requires Supported(rr)
  {
    if rr.rclass == CLASS_IN then AdditionStrays(sv, db, zone, rr, db') else DeletionStrays(sv, db, zone, rr, db')
  }

  /**
   One authorised RR changes what the zone serves as the RFC says, if and only
   if it does not stray.
   */
  lemma StepIsRfc(sv: Serving, db: Database, key: Key, zone: Zone, rr: RR, out: Outcome, db': Database)
    requires Treated(db, zone, rr) && Authorised(key, zone, rr) && Applies(db, key, zone, rr, out, db')
    ensures out == Continue
    ensures Full(sv, db', zone.id) == Rfc(Full(sv, db, zone.id), zone, rr) <==> !Strays(sv, db, zone, rr, db')
  {
    AuthorisedStep(db, key, zone, rr, out, db');
    if rr.rclass == CLASS_IN {
      AdditionStep(sv, db, zone, rr, out, db');
    } else {
      DeletionStep(sv, db, zone, rr);
    }
  }

  // ---------- Additions of types other than CNAME ----------

  /** An addition that is stored under its own owner. */
  ghost predicate Admissible(db: Database, zone: Zone, rr: RR) {
    && Treated(db, zone, rr) && rr.rclass == CLASS_IN && rr.rtype != CNAME
    && Nameable(OwnerOf(zone, rr)) && !Conflict(db, zone, rr)
  }

  ghost predicate CnameAt(v: set<ZoneRr>, owner: Name) {
    exists c :: c in v && c.owner == owner && c.rdata.rtype == CNAME
  }

  /** Wherever a text stands for the owner, the code's CNAME check is the RFC's, on all that the zone serves. */
  lemma ConflictIsRfc(sv: Serving, db: Database, zone: Zone, rr: RR)
    requires Treated(db, zone, rr) && rr.rclass == CLASS_IN && rr.rtype != CNAME && Nameable(OwnerOf(zone, rr))
    ensures Conflict(db, zone, rr) <==> CnameAt(View(db, zone.id), OwnerOf(zone, rr))
    ensures Conflict(db, zone, rr) <==> Blocked(Full(sv, db, zone.id), NewRr(zone, rr))
  {
    LowerIsCanonical(zone, rr);
    var name, owner := SearchName(zone, rr), OwnerOf(zone, rr);
    if Conflict(db, zone, rr) {
      var c :| c in At(db, zone.id, Cname, name);
      assert ModelOf(c.rdata.rtype) == Some(Cname);
      assert RrOf(c) in View(db, zone.id);
      assert Blocks(RrOf(c), NewRr(zone, rr));
    }
    if z :| z in Full(sv, db, zone.id) && z.owner == owner && z.rdata.rtype == CNAME {
      CnameIsRow(sv, db, zone, z);
      CnameRowAt(db, zone, z, name);
    }
  }

  /** A served CNAME is a row's. */
  lemma CnameIsRow(sv: Serving, db: Database, zone: Zone, z: ZoneRr)
    ensures z in Full(sv, db, zone.id) && z.rdata.rtype == CNAME ==> z in View(db, zone.id)
  {
    if z in Rest(sv, db, zone.id) {
      BesideShape(sv, db, zone.id, View(db, zone.id), z);
    }
  }

  lemma CnameRowAt(db: Database, zone: Zone, z: ZoneRr, name: string)
    requires WellFormed(db) && z in View(db, zone.id) && z.rdata.rtype == CNAME && Denote(name) == z.owner
    ensures At(db, zone.id, Cname, name) != {}
  {
    var c :| c in db && InView(c, zone.id) && RrOf(c) == z;
    assert ModelOf(c.rdata.rtype) == Some(c.model);
    DenoteInjective(name, c.name);
    assert c in At(db, zone.id, Cname, name);
  }

  /** Another row with the same text and data. */
  predicate Twins(r: Row, s: Row) {
    r != s && r.zone == s.zone && Updatable(s.model) && r.name == s.name && r.rdata == s.rdata
  }

  /** Another copy of m with another TTL than the RR's, in a row or from another model. */
  ghost predicate StaleCopy(sv: Serving, db: Database, zone: Zone, rr: RR, m: Row)
    requires rr.data.Some?
  {
    || (exists s :: s in db && Twins(m, s) && s.ttl != rr.ttl)
    || (exists z :: z in Rest(sv, db, zone.id) && Replaces(NewRr(zone, rr), z) && z.ttl != rr.ttl)
  }

  lemma RefreshOwnView(db: Database, zone: Zone, rr: RR, m: Row)
    requires Admissible(db, zone, rr) && m in Matching(db, zone, rr) && Denote(m.name) == OwnerOf(zone, rr)
    ensures var n, db' := Refresh(m, zone, rr), db - {m} + {Refresh(m, zone, rr)};
            && n == m.(ttl := rr.ttl) && RrOf(n) == NewRr(zone, rr)
            && InView(m, zone.id) && Agree(View(db', zone.id), View(db, zone.id)) && SameOthers(db, db')
  {
    LowerIsCanonical(zone, rr);
    MatchingIsFound(db, zone, rr, m);
    var n := Refresh(m, zone, rr);
    var db' := db - {m} + {n};
    forall owner, rdata
      ensures Has(View(db', zone.id), owner, rdata) <==> Has(View(db, zone.id), owner, rdata)
    {
      HasRow(db', zone.id, owner, rdata);
      HasRow(db, zone.id, owner, rdata);
      if r :| r in db' && InView(r, zone.id) && SameRr(RrOf(r), owner, rdata) {
        assert (if r == n then m else r) in db;
      }
      if r :| r in db && InView(r, zone.id) && SameRr(RrOf(r), owner, rdata) {
        assert (if r == m then n else r) in db';
      }
    }
  }

  lemma HasRow(db: Database, zone: nat, owner: Name, rdata: Rdata)
    ensures Has(View(db, zone), owner, rdata) <==>
            exists r :: r in db && InView(r, zone) && SameRr(RrOf(r), owner, rdata)
  {
    if z :| z in View(db, zone) && SameRr(z, owner, rdata) {
      var r :| r in db && InView(r, zone) && RrOf(r) == z;
    }
    if r :| r in db && InView(r, zone) && SameRr(RrOf(r), owner, rdata) {
      assert RrOf(r) in View(db, zone);
    }
  }

  /** A refresh of the owner's own row leaves the other models' RRs as they are. */
  lemma RefreshOwnRest(sv: Serving, db: Database, zone: Zone, rr: RR, m: Row)
    requires Admissible(db, zone, rr) && m in Matching(db, zone, rr) && Denote(m.name) == OwnerOf(zone, rr)
    ensures Rest(sv, db - {m} + {Refresh(m, zone, rr)}, zone.id) == Rest(sv, db, zone.id)
  {
    RefreshOwnView(db, zone, rr, m);
    var db' := db - {m} + {Refresh(m, zone, rr)};
    BesideSame(sv, db, db', zone.id, View(db', zone.id));
    BesideAgrees(sv, db, zone.id, View(db', zone.id), View(db, zone.id));
  }

  /** The copies that stay in rows, and the RRs that stay with them. */
  lemma RefreshOwnKept(db: Database, zone: Zone, rr: RR, m: Row)
    requires Admissible(db, zone, rr) && m in Matching(db, zone, rr) && Denote(m.name) == OwnerOf(zone, rr)
    ensures var x, kept := NewRr(zone, rr), View(db * (db - {m} + {Refresh(m, zone, rr)}), zone.id);
            && ((exists z :: z in kept && Replaces(x, z) && z != x)
                <==> exists s :: s in db && Twins(m, s) && s.ttl != rr.ttl)
            && (forall z :: z in View(db, zone.id) && !Replaces(x, z) ==> z in kept)
  {
    RefreshOwnView(db, zone, rr, m);
    var n, x := Refresh(m, zone, rr), NewRr(zone, rr);
    var both := db * (db - {m} + {n});
    if z :| z in View(both, zone.id) && Replaces(x, z) && z != x {
      var s :| s in both && InView(s, zone.id) && RrOf(s) == z;
      DenoteInjective(s.name, m.name);
      assert Twins(m, s) && s.ttl != rr.ttl;
    }
    if s :| s in db && Twins(m, s) && s.ttl != rr.ttl {
      assert s in both && RrOf(s) in View(both, zone.id);
      assert Replaces(x, RrOf(s)) && RrOf(s) != x;
    }
    forall z | z in View(db, zone.id) && !Replaces(x, z)
      ensures z in View(both, zone.id)
    {
      var r :| r in db && InView(r, zone.id) && RrOf(r) == z;
      assert r in both;
    }
  }

  /** Refreshing a row of the RR's owner is the RFC's addition, if and only if no other copy has another TTL. */
  lemma RefreshStep(sv: Serving, db: Database, zone: Zone, rr: RR, m: Row)
    requires Admissible(db, zone, rr) && m in Matching(db, zone, rr) && Denote(m.name) == OwnerOf(zone, rr)
    ensures var db' := db - {m} + {Refresh(m, zone, rr)};
            Full(sv, db', zone.id) == Rfc(Full(sv, db, zone.id), zone, rr) <==> !StaleCopy(sv, db, zone, rr, m)
  {
    var x, db' := NewRr(zone, rr), db - {m} + {Refresh(m, zone, rr)};
    assert Refreshed(db, zone, rr, db');
    StoringStep(sv, db, zone, rr, Continue, db');
    RefreshOwnRest(sv, db, zone, rr, m);
    RefreshOwnKept(db, zone, rr, m);
    ConflictIsRfc(sv, db, zone, rr);
    RefreshSets(View(db, zone.id), View(db * db', zone.id), Rest(sv, db, zone.id), x);
  }

  /** With the rest unchanged and only RRs that x replaces taken away, only old copies can make the difference. */
  lemma RefreshSets(view: set<ZoneRr>, kept: set<ZoneRr>, rest: set<ZoneRr>, x: ZoneRr)
    requires !Blocked(view + rest, x) && x.rdata.rtype != CNAME
    requires forall z :: z in view && !Replaces(x, z) ==> z in kept
    ensures Differs(view + rest, kept, rest, x) <==>
            || (exists z :: z in kept && Replaces(x, z) && z != x)
            || (exists z :: z in rest && Replaces(x, z) && z.ttl != x.ttl)
  {
    forall z | Replaces(x, z)
      ensures z != x <==> z.ttl != x.ttl
    {
    }
  }

  // ---------- Judged before the step ----------

  /** Some outcome of the RR strays. */
  ghost predicate MayStray(sv: Serving, db: Database, zone: Zone, rr: RR)
    requires Supported(rr)
  {
    if rr.rclass != CLASS_IN then DeletionStrays(sv, db, zone, rr, db - Gone(db, zone, rr))
    else if Conflict(db, zone, rr) then AdditionStrays(sv, db, zone, rr, db)
    else if Matching(db, zone, rr) == {} then AdditionStrays(sv, db, zone, rr, db + {NewRow(0, zone, rr)})
    else exists m :: m in Matching(db, zone, rr)
                     && AdditionStrays(sv, db, zone, rr, db - {m} + {Refresh(m, zone, rr)})
  }

  ghost predicate AlwaysRfc(sv: Serving, db: Database, key: Key, zone: Zone, rr: RR) {
    forall out, db' :: Applies(db, key, zone, rr, out, db') ==>
                         Full(sv, db', zone.id) == Rfc(Full(sv, db, zone.id), zone, rr)
  }

  lemma {:induction false} FreshId(db: Database) returns (id: nat)
    ensures forall r :: r in db ==> r.id < id
    decreases |db|
  {
    id := 0;
    if db != {} {
      var r :| r in db;
      var below := FreshId(db - {r});
      id := if r.id < below then below else r.id + 1;
    }
  }

  /** Every authorised RR has an outcome; a refresh has one for each matching row. */
  lemma SomeOutcome(db: Database, key: Key, zone: Zone, rr: RR) returns (db': Database)
    requires Supported(rr) && Authorised(key, zone, rr)
    ensures Applies(db, key, zone, rr, Continue, db')
  {
    if rr.rclass != CLASS_IN {
      db' := db - Gone(db, zone, rr);
      if rr.rclass == CLASS_ANY && rr.rtype == ANY {
        forall r | r in AllRows(db, zone, rr)
          ensures Authorise(key, r.rdata.rtype, Rel(zone, rr)).None?
        {
          assert CanManage(key, r.rdata.rtype, Rel(zone, rr)) == Allowed;
        }
      }
    } else if Conflict(db, zone, rr) {
      db' := db;
    } else if Matching(db, zone, rr) != {} {
      var m :| m in Matching(db, zone, rr);
      db' := RefreshOutcome(db, key, zone, rr, m);
    } else {
      var id := FreshId(db);
      db' := db + {NewRow(id, zone, rr)};
      assert Created(db, zone, rr, db');
    }
  }

  lemma RefreshOutcome(db: Database, key: Key, zone: Zone, rr: RR, m: Row) returns (db': Database)
    requires Supported(rr) && Authorised(key, zone, rr) && rr.rclass == CLASS_IN
    requires !Conflict(db, zone, rr) && m in Matching(db, zone, rr)
    ensures Applies(db, key, zone, rr, Continue, db') && db' == db - {m} + {Refresh(m, zone, rr)}
  {
    db' := db - {m} + {Refresh(m, zone, rr)};
    assert Refreshed(db, zone, rr, db');
  }

  /** What a new row adds to the zone, whatever its id. */
  lemma NewRowServes(sv: Serving, db: Database, zone: Zone, rr: RR, id: nat)
    requires Treated(db, zone, rr) && rr.rclass == CLASS_IN && Matching(db, zone, rr) == {}
    ensures var n, db' := NewRow(id, zone, rr), db + {NewRow(id, zone, rr)};
            && db * db' == db
            && Rest(sv, db', zone.id)
               == Beside(sv, db, zone.id, View(db, zone.id) + {ZoneRr(Denote(n.name), n.rdata, n.ttl)})
  {
    NewRowIsNew(db, zone, rr, id);
    var n := NewRow(id, zone, rr);
    ViewPlus(db, n, zone.id);
    BesideSame(sv, db, db + {n}, zone.id, View(db + {n}, zone.id));
  }

  /** How a new row strays, without mention of its id. */
  lemma NewRowStrays(sv: Serving, db: Database, zone: Zone, rr: RR, id: nat)
    requires Treated(db, zone, rr) && rr.rclass == CLASS_IN && Matching(db, zone, rr) == {}
    ensures var n, x := NewRow(id, zone, rr), NewRr(zone, rr);
            var rest := Beside(sv, db, zone.id, View(db, zone.id) + {ZoneRr(Denote(n.name), n.rdata, n.ttl)});
            StoringStrays(sv, db, zone, x, db + {n}) <==>
            if Blocked(Full(sv, db, zone.id), x) then x !in Full(sv, db, zone.id)
            else LeavesOld(View(db, zone.id), rest, x) || Spreads(sv, db, zone, x)
  {
    NewRowServes(sv, db, zone, rr, id);
    assert db - (db + {NewRow(id, zone, rr)}) == {};
  }

  /** The id of a new row does not show in what the zone serves. */
  lemma IdUnseen(sv: Serving, db: Database, zone: Zone, rr: RR, i: nat, j: nat)
    requires Treated(db, zone, rr) && rr.rclass == CLASS_IN && Matching(db, zone, rr) == {}
    ensures AdditionStrays(sv, db, zone, rr, db + {NewRow(i, zone, rr)})
            <==> AdditionStrays(sv, db, zone, rr, db + {NewRow(j, zone, rr)})
  {
    NewRowStrays(sv, db, zone, rr, i);
    NewRowStrays(sv, db, zone, rr, j);
  }

  lemma NewRowIsNew(db: Database, zone: Zone, rr: RR, id: nat)
    requires Treated(db, zone, rr) && rr.rclass == CLASS_IN && Matching(db, zone, rr) == {}
    ensures NewRow(id, zone, rr) !in db && InView(NewRow(id, zone, rr), zone.id)
  {
    LowerIsCanonical(zone, rr);
    MatchingIsFound(db, zone, rr, NewRow(id, zone, rr));
  }

  lemma StrayingOutcome(sv: Serving, db: Database, key: Key, zone: Zone, rr: RR) returns (db': Database)
    requires Treated(db, zone, rr) && Authorised(key, zone, rr)
    ensures Applies(db, key, zone, rr, Continue, db')
    ensures MayStray(sv, db, zone, rr) ==> Strays(sv, db, zone, rr, db')
  {
    if m :| rr.rclass == CLASS_IN && !Conflict(db, zone, rr) && m in Matching(db, zone, rr)
            && AdditionStrays(sv, db, zone, rr, db - {m} + {Refresh(m, zone, rr)})
    {
      db' := RefreshOutcome(db, key, zone, rr, m);
    } else {
      db' := SomeOutcome(db, key, zone, rr);
      AuthorisedStep(db, key, zone, rr, Continue, db');
      if rr.rclass == CLASS_IN && !Conflict(db, zone, rr) && Matching(db, zone, rr) == {} {
        var id :| (forall r :: r in db ==> r.id != id) && db' == db + {NewRow(id, zone, rr)};
        IdUnseen(sv, db, zone, rr, 0, id);
      }
    }
  }

  lemma StrayIsForeseen(sv: Serving, db: Database, key: Key, zone: Zone, rr: RR, out: Outcome, db': Database)
    requires Treated(db, zone, rr) && Authorised(key, zone, rr) && Applies(db, key, zone, rr, out, db')
    ensures Strays(sv, db, zone, rr, db') ==> MayStray(sv, db, zone, rr)
  {
    AuthorisedStep(db, key, zone, rr, out, db');
    if rr.rclass == CLASS_IN && !Conflict(db, zone, rr) {
      if Matching(db, zone, rr) != {} {
        var m :| m in Matching(db, zone, rr) && db' == db - {m} + {Refresh(m, zone, rr)};
      } else {
        var id :| (forall r :: r in db ==> r.id != id) && db' == db + {NewRow(id, zone, rr)};
        IdUnseen(sv, db, zone, rr, 0, id);
      }
    }
  }

  /** Every outcome of an authorised RR is the RFC's, if and only if the database lets none stray. */
  lemma StepAlwaysRfc(sv: Serving, db: Database, key: Key, zone: Zone, rr: RR)
    requires Treated(db, zone, rr) && Authorised(key, zone, rr)
    ensures AlwaysRfc(sv, db, key, zone, rr) <==> !MayStray(sv, db, zone, rr)
  {
    if MayStray(sv, db, zone, rr) {
      var db' := StrayingOutcome(sv, db, key, zone, rr);
      StepIsRfc(sv, db, key, zone, rr, Continue, db');
    } else {
      forall out, db' | Applies(db, key, zone, rr, out, db')
        ensures Full(sv, db', zone.id) == Rfc(Full(sv, db, zone.id), zone, rr)
      {
        StepIsRfc(sv, db, key, zone, rr, out, db');
        StrayIsForeseen(sv, db, key, zone, rr, out, db');
      }
    }
  }
}
