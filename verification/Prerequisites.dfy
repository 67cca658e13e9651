/**
 The prerequisites of an update message against sections 3.2.1 and 3.2.2 of RFC
 2136: when `any_record_type` and `any_records` see what the zone serves.
 */
module Prerequisites {
  import opened Names
  import opened UpdateModel
  import opened UpdateProof
  import opened UpdateServer
  import opened ZoneContent

  /** Saving a row folds its name. */
  ghost predicate Folded(db: Database) {
    forall r :: r in db ==> LowerLabel(r.name) == r.name
  }

  // ---------- Names and texts ----------

  /** The prerequisite's name, relative to the zone, as it is written. */
  function Written(zoneName: Name, rr: RR): Name {
    StripSuffix(rr.name, zoneName)
  }

  function Owner(zoneName: Name, rr: RR): Name {
    Lower(Written(zoneName, rr))
  }

  /** The text that `any_record_type` searches for. */
  function Searched(zoneName: Name, rr: RR): string {
    Join(PrereqName(zoneName, rr))
  }

  lemma LowerAppend(a: string, b: string)
    ensures LowerLabel(a + b) == LowerLabel(a) + LowerLabel(b)
  {
  }

  lemma {:induction false} JoinLower(n: Name)
    ensures Join(Lower(n)) == LowerLabel(Join(n))
  {
    if |n| > 1 {
      JoinLower(n[1..]);
      assert Lower(n)[1..] == Lower(n[1..]);
      LowerAppend(n[0], "." + Join(n[1..]));
      LowerAppend(".", Join(n[1..]));
      assert LowerLabel(".") == ".";
      assert n[0] + "." + Join(n[1..]) == n[0] + ("." + Join(n[1..]));
      assert Join(Lower(n)) == LowerLabel(n[0]) + ("." + LowerLabel(Join(n[1..])));
    }
  }

  /** Names of the same shape with the same text are the same. */
  lemma {:induction false} SameShape(m: Name, n: Name)
    requires |m| == |n| && (forall i :: 0 <= i < |n| ==> |m[i]| == |n[i]|) && Join(m) == Join(n)
    ensures m == n
  {
    if |n| == 1 {
      assert m == [m[0]] && n == [n[0]];
    } else if |n| > 1 {
      var k := |n[0]|;
      assert m[0] == Join(m)[..k] && n[0] == Join(n)[..k];
      assert Join(m[1..]) == Join(m)[k + 1..] && Join(n[1..]) == Join(n)[k + 1..];
      SameShape(m[1..], n[1..]);
      assert m == [m[0]] + m[1..] && n == [n[0]] + n[1..];
    }
  }

  /** A name with an upper-case letter is searched for under a text that no row has. */
  lemma UnfoldedText(n: Name)
    requires Lower(n) != n
    ensures LowerLabel(Join(n)) != Join(n)
  {
    JoinLower(n);
    if Join(Lower(n)) == Join(n) {
      SameShape(Lower(n), n);
    }
  }

  /** What the searched text stands for. */
  lemma SearchedText(zoneName: Name, rr: RR, text: string)
    requires LowerLabel(text) == text
    ensures var written, owner := Written(zoneName, rr), Owner(zoneName, rr);
            if Lower(written) == written
            then (Denote(text) == owner ==> text == Searched(zoneName, rr))
                 && (Nameable(owner) && text == Searched(zoneName, rr) ==> Denote(text) == owner)
            else text != Searched(zoneName, rr)
  {
    var written, owner := Written(zoneName, rr), Owner(zoneName, rr);
    if Lower(written) != written {
      UnfoldedText(written);
    } else {
      JoinSplit(text);
      if Nameable(owner) {
        DenoteTextOf(owner);
      }
    }
  }

  // ---------- What is stored, and what is seen ----------

  /** Sections 3.2.1 and 3.2.2: the zone has an RRset of the type at the owner. */
  ghost predicate RrsetExists(v: set<ZoneRr>, owner: Name, rtype: nat) {
    exists z :: z in v && z.owner == owner && z.rdata.rtype == rtype
  }

  ghost predicate TypeAt(db: Database, zone: nat, text: string, rtype: nat)
    requires ModelOf(rtype).Some?
  {
    exists r :: r in At(db, zone, ModelOf(rtype).value, text) && r.rdata.rtype == rtype
  }

  /** The name has no address row of its own, and the wildcard's are taken for them. */
  ghost predicate StandsIn(db: Database, zone: Zone, zoneName: Name, rr: RR)
    requires ModelOf(rr.rtype).Some?
  {
    && IsAddress(rr.rtype) && At(db, zone.id, Address, Searched(zoneName, rr)) == {}
    && TypeAt(db, zone.id, Join(Wildcard(PrereqName(zoneName, rr))), rr.rtype)
  }

  /** The code does not see the type at this name: it never does, the case differs, or no row it looks at has it. */
  ghost predicate Unseen(db: Database, zone: Zone, zoneName: Name, rr: RR)
    requires ModelOf(rr.rtype).Some?
  {
    || rr.rtype == DHCID
    || Lower(Written(zoneName, rr)) != Written(zoneName, rr)
    || !RrsetExists(View(db, zone.id), Owner(zoneName, rr), rr.rtype)
  }

  /**
   The ways in which the code misjudges a prerequisite: the RRset is there and is
   not seen, because it is DHCID, the name has an upper-case letter, or only the
   header or rows of another model serve it; the wildcard's addresses are taken
   for the name's; or no text stands for the name, and the records of the name
   that its text stands for are seen.
   */
  ghost predicate Misjudged(sv: Serving, db: Database, zone: Zone, zoneName: Name, rr: RR)
    requires ModelOf(rr.rtype).Some?
  {
    var owner := Owner(zoneName, rr);
    var there := RrsetExists(Full(sv, db, zone.id), owner, rr.rtype);
    || (there && Unseen(db, zone, zoneName, rr) && !StandsIn(db, zone, zoneName, rr))
    || (!there && StandsIn(db, zone, zoneName, rr))
    || (!Nameable(owner) && rr.rtype != DHCID && TypeAt(db, zone.id, Searched(zoneName, rr), rr.rtype))
  }

  /** Every model but the addresses' holds one type. */
  lemma OneType(db: Database, zone: nat, text: string, rtype: nat)
    requires WellFormed(db) && ModelOf(rtype).Some? && !IsAddress(rtype)
    ensures forall r :: r in At(db, zone, ModelOf(rtype).value, text) ==> r.rdata.rtype == rtype
  {
  }

  /** What the code answers. */
  lemma SeenIs(db: Database, zone: Zone, zoneName: Name, rr: RR)
    requires WellFormed(db) && ModelOf(rr.rtype).Some?
    ensures AnyRecordType(db, zone.id, PrereqName(zoneName, rr), rr.rtype) <==>
            (rr.rtype != DHCID && TypeAt(db, zone.id, Searched(zoneName, rr), rr.rtype))
            || StandsIn(db, zone, zoneName, rr)
  {
    if !IsAddress(rr.rtype) {
      OneType(db, zone.id, Searched(zoneName, rr), rr.rtype);
    }
  }

  /** The RRset's row, by the text that stands for its owner. */
  lemma RrsetRow(db: Database, zone: Zone, zoneName: Name, rr: RR)
    requires WellFormed(db) && Folded(db) && ModelOf(rr.rtype).Some?
    ensures var owner := Owner(zoneName, rr);
            var there := RrsetExists(View(db, zone.id), owner, rr.rtype);
            && (!Nameable(owner) ==> !there)
            && (Lower(Written(zoneName, rr)) == Written(zoneName, rr) && Nameable(owner) ==>
                  (there <==> TypeAt(db, zone.id, Searched(zoneName, rr), rr.rtype)))
            && (Lower(Written(zoneName, rr)) != Written(zoneName, rr) ==>
                  !TypeAt(db, zone.id, Searched(zoneName, rr), rr.rtype))
  {
    var owner, text, m := Owner(zoneName, rr), Searched(zoneName, rr), ModelOf(rr.rtype).value;
    if z :| z in View(db, zone.id) && z.owner == owner && z.rdata.rtype == rr.rtype {
      var r :| r in db && InView(r, zone.id) && RrOf(r) == z;
      DenoteNameable(r.name);
      SearchedText(zoneName, rr, r.name);
      assert r.name == text ==> r in At(db, zone.id, m, text);
    }
    if r :| r in At(db, zone.id, m, text) && r.rdata.rtype == rr.rtype {
      SearchedText(zoneName, rr, r.name);
      assert Updatable(r.model) && RrOf(r) in View(db, zone.id);
    }
  }

  lemma FullExists(sv: Serving, db: Database, zone: Zone, owner: Name, rtype: nat)
    ensures RrsetExists(View(db, zone.id), owner, rtype) ==> RrsetExists(Full(sv, db, zone.id), owner, rtype)
    ensures !Nameable(owner) ==> !RrsetExists(Full(sv, db, zone.id), owner, rtype)
  {
    if z :| z in View(db, zone.id) && z.owner == owner && z.rdata.rtype == rtype {
      assert z in Full(sv, db, zone.id);
    }
    if z :| z in Full(sv, db, zone.id) && z.owner == owner && z.rdata.rtype == rtype {
      ServedNameable(sv, db, zone, z);
    }
  }

  lemma ServedNameable(sv: Serving, db: Database, zone: Zone, z: ZoneRr)
    ensures z in Full(sv, db, zone.id) ==> Nameable(z.owner)
  {
    if z in View(db, zone.id) {
      ViewShape(db, zone.id, z);
    } else if z in Rest(sv, db, zone.id) {
      BesideShape(sv, db, zone.id, View(db, zone.id), z);
    }
  }

  /**
   An RRset prerequisite is decided as the RFC says of all that the zone serves,
   for every owner in the zone and every type that updates can add, if and only
   if it is not misjudged.
   */
  lemma PrerequisiteIsRfc(sv: Serving, db: Database, zone: Zone, zoneName: Name, rr: RR)
    requires WellFormed(db) && Folded(db) && ModelOf(rr.rtype).Some?
    ensures AnyRecordType(db, zone.id, PrereqName(zoneName, rr), rr.rtype)
              == RrsetExists(Full(sv, db, zone.id), Owner(zoneName, rr), rr.rtype)
            <==> !Misjudged(sv, db, zone, zoneName, rr)
  {
    SeenIs(db, zone, zoneName, rr);
    RrsetRow(db, zone, zoneName, rr);
    FullExists(sv, db, zone, Owner(zoneName, rr), rr.rtype);
    StandInExcludes(db, zone, zoneName, rr);
  }

  lemma StandInExcludes(db: Database, zone: Zone, zoneName: Name, rr: RR)
    requires ModelOf(rr.rtype).Some?
    ensures StandsIn(db, zone, zoneName, rr) ==> !TypeAt(db, zone.id, Searched(zoneName, rr), rr.rtype)
  {
  }

  /** Updates keep stored names folded, so the hypothesis holds of every reachable database. */
  lemma StepFolded(db: Database, key: Key, zone: Zone, rr: RR, out: Outcome, db': Database)
    requires Folded(db) && Applies(db, key, zone, rr, out, db')
    ensures Folded(db')
  {
    StoredIsFolded(zone, rr);
    if !(db' <= db) {
      assert Adds(db, zone, rr, out, db');
      if Matching(db, zone, rr) != {} {
        assert Refreshed(db, zone, rr, db');
      } else {
        assert Created(db, zone, rr, db');
      }
    }
  }

  lemma StoredIsFolded(zone: Zone, rr: RR)
    ensures LowerLabel(StoredName(zone, rr)) == StoredName(zone, rr)
  {
    JoinLower(Lower(Rel(zone, rr)));
    LowerIdempotent(Rel(zone, rr));
  }

  // ---------- Inputs that are misjudged ----------

  function Exists(zoneName: Name, owner: Label, rtype: nat): RR {
    RR([owner] + zoneName, rtype, CLASS_ANY, 0, None, true, true, true)
  }

  lemma OneLabel(zoneName: Name, owner: Label, rtype: nat)
    ensures Written(zoneName, Exists(zoneName, owner, rtype)) == [owner]
  {
    var rr := Exists(zoneName, owner, rtype);
    assert rr.name[..1] == [owner] && rr.name[1..] == zoneName;
  }

  /** A prerequisite for a name with an upper-case letter: its address is stored and not seen. */
  lemma UpperCaseMisjudged(sv: Serving, zone: Zone, zoneName: Name, w: Row)
    requires w.zone == zone.id && w.model == Address && w.rdata.rtype == A && w.name == "www"
    ensures Misjudged(sv, {w}, zone, zoneName, Exists(zoneName, "WWW", A))
  {
    var rr := Exists(zoneName, "WWW", A);
    OneLabel(zoneName, "WWW", A);
    assert LowerLabel("WWW") == "www" && "WWW"[0] != "www"[0];
    assert Owner(zoneName, rr) == ["www"];
    SplitOne("www");
    assert RrOf(w) in View({w}, zone.id);
    assert RrOf(w) in Full(sv, {w}, zone.id);
  }

  /** A prerequisite for an address that a row of another model serves: it is there and not seen. */
  lemma OtherModelMisjudged(sv: Serving, zone: Zone, zoneName: Name, w: Row, d: Rdata, owner: Label)
    requires w.zone == zone.id && !Updatable(w.model) && w.name == owner && ServedName(w) == w.name
    requires d in sv.data(w) && WrittenAs(w.model, d.rtype) && ModelOf(d.rtype).Some?
    requires owner != "@" && '.' !in owner && LowerLabel(owner) == owner
    ensures Misjudged(sv, {w}, zone, zoneName, Exists(zoneName, owner, d.rtype))
  {
    var rr := Exists(zoneName, owner, d.rtype);
    OneLabel(zoneName, owner, d.rtype);
    SplitOne(owner);
    assert Owner(zoneName, rr) == [owner];
    var z := ZoneRr([owner], d, w.ttl);
    assert z in Fixed(sv, {w}, zone.id);
    assert z in Full(sv, {w}, zone.id);
    assert View({w}, zone.id) == {};
    assert Updatable(ModelOf(d.rtype).value);
  }

  /** The NS RRset that every zone file opens with is there and not seen. */
  lemma HeaderMisjudged(sv: Serving, zone: Zone, zoneName: Name, d: Rdata)
    requires d in sv.header && d.rtype == NS
    ensures Misjudged(sv, {}, zone, zoneName, RR(zoneName, NS, CLASS_ANY, 0, None, true, true, true))
  {
    var rr := RR(zoneName, NS, CLASS_ANY, 0, None, true, true, true);
    assert Written(zoneName, rr) == [];
    var z := ZoneRr([], d, HEADER_TTL);
    assert z in Header(sv);
    assert z in Full(sv, {}, zone.id);
    assert View({}, zone.id) == {};
  }

  // ---------- Whether a name is in use ----------

  /** Sections 3.2.1 and 3.2.2: the zone has an RR at the owner. */
  ghost predicate InUse(v: set<ZoneRr>, owner: Name) {
    exists z :: z in v && z.owner == owner
  }

  /** The row has data of its own that is written out. */
  ghost predicate HoldsData(sv: Serving, r: Row) {
    exists d :: d in sv.data(r) && WrittenAs(r.model, d.rtype)
  }

  /** The row is an ANAME into its zone that has an answer. */
  ghost predicate HasAnswer(sv: Serving, db: Database, zone: Zone, r: Row) {
    exists z :: z in View(db, zone.id) && Answers(sv, r, z)
  }

  /** The row serves an RR at the owner. */
  ghost predicate Serves(sv: Serving, db: Database, zone: Zone, r: Row, owner: Name) {
    && r in db && r.zone == zone.id
    && if Updatable(r.model) then Denote(r.name) == owner
       else Denote(ServedName(r)) == owner && (HoldsData(sv, r) || HasAnswer(sv, db, zone, r))
  }

  lemma WrittenIsOther(m: Model, rtype: nat)
    requires WrittenAs(m, rtype)
    ensures !Updatable(m)
  {
  }

  lemma RowUses(sv: Serving, db: Database, zone: Zone, r: Row, owner: Name)
    requires Serves(sv, db, zone, r, owner)
    ensures InUse(Full(sv, db, zone.id), owner)
  {
    if Updatable(r.model) {
      assert RrOf(r) in View(db, zone.id);
      assert RrOf(r) in Full(sv, db, zone.id);
    } else if HoldsData(sv, r) {
      var d :| d in sv.data(r) && WrittenAs(r.model, d.rtype);
      var z := ZoneRr(Denote(ServedName(r)), d, r.ttl);
      assert z in Fixed(sv, db, zone.id);
      assert z in Full(sv, db, zone.id);
    } else {
      var z :| z in View(db, zone.id) && Answers(sv, r, z);
      assert AnswerOf(r, z) in Aliased(sv, db, zone.id, View(db, zone.id));
      assert AnswerOf(r, z) in Full(sv, db, zone.id);
    }
  }

  /** Who uses a name: the header, at the apex, or a row. */
  lemma UseHasSource(sv: Serving, db: Database, zone: Zone, z: ZoneRr) returns (r: Option<Row>)
    ensures z in Full(sv, db, zone.id) && r.None? ==> z in Header(sv) && z.owner == []
    ensures z in Full(sv, db, zone.id) && r.Some? ==> Serves(sv, db, zone, r.value, z.owner)
  {
    r := None;
    if z in View(db, zone.id) {
      var s :| s in db && InView(s, zone.id) && RrOf(s) == z;
      r := Some(s);
    } else if z in Fixed(sv, db, zone.id) {
      var s, d :| s in db && s.zone == zone.id && d in sv.data(s) && WrittenAs(s.model, d.rtype)
                  && z == ZoneRr(Denote(ServedName(s)), d, s.ttl);
      WrittenIsOther(s.model, d.rtype);
      assert HoldsData(sv, s);
      r := Some(s);
    } else if z in Aliased(sv, db, zone.id, View(db, zone.id)) {
      var s, y :| s in db && s.zone == zone.id && y in View(db, zone.id) && Answers(sv, s, y) && z == AnswerOf(s, y);
      assert HasAnswer(sv, db, zone, s);
      r := Some(s);
    }
  }

  /** A row that `any_records` counts when it is at the name. */
  predicate Counted(r: Row, zone: Zone) {
    r.zone == zone.id && (Covered(r.model) || r.model == Cname)
  }

  ghost predicate CountedAt(db: Database, zone: Zone, text: string) {
    exists r :: r in db && Counted(r, zone) && r.name == text
  }

  /** An HTTPS row that is searched for under the name. */
  predicate SearchedHttps(r: Row, zone: Zone, rel: Name) {
    var (service, name) := HttpsName(rel);
    && r.zone == zone.id && r.model == Https && r.service == service
    && (r.name == Join(name) || r.name == Join(Wildcard(name)))
  }

  /** A counted row stands at the text searched for and serves nothing at the owner. */
  ghost predicate Idle(sv: Serving, db: Database, zone: Zone, zoneName: Name, rr: RR) {
    exists r :: r in db && Counted(r, zone) && r.name == Searched(zoneName, rr)
                && !Serves(sv, db, zone, r, Owner(zoneName, rr))
  }

  /**
   Nothing that uses the name is looked at: the name has an upper-case letter, or
   every row that serves it is a DHCID, GitHub Pages or DNSKEY row, or an HTTPS
   row that the search misses.  The header is never looked at.
   */
  ghost predicate Unnoticed(sv: Serving, db: Database, zone: Zone, zoneName: Name, rr: RR) {
    || Lower(Written(zoneName, rr)) != Written(zoneName, rr)
    || forall r :: Serves(sv, db, zone, r, Owner(zoneName, rr)) ==>
                     Unlooked(r.model) || (r.model == Https && !SearchedHttps(r, zone, PrereqName(zoneName, rr)))
  }

  /** A row of another name, or one that serves nothing, is counted: the wildcard's, an HTTPS row, an idle one. */
  ghost predicate Miscounted(sv: Serving, db: Database, zone: Zone, zoneName: Name, rr: RR) {
    var rel := PrereqName(zoneName, rr);
    || CountedAt(db, zone, Join(Wildcard(rel)))
    || HttpsAt(db, zone.id, rel)
    || Idle(sv, db, zone, zoneName, rr)
  }

  /** A name in use goes unnoticed and nothing else is counted, or a free name has something else counted. */
  ghost predicate UseMisjudged(sv: Serving, db: Database, zone: Zone, zoneName: Name, rr: RR) {
    if InUse(Full(sv, db, zone.id), Owner(zoneName, rr))
    then Unnoticed(sv, db, zone, zoneName, rr) && !Miscounted(sv, db, zone, zoneName, rr)
    else Miscounted(sv, db, zone, zoneName, rr)
  }

  lemma SeenInUse(db: Database, zone: Zone, zoneName: Name, rr: RR)
    ensures AnyRecords(db, zone.id, PrereqName(zoneName, rr), true) <==>
            || CountedAt(db, zone, Searched(zoneName, rr))
            || CountedAt(db, zone, Join(Wildcard(PrereqName(zoneName, rr))))
            || HttpsAt(db, zone.id, PrereqName(zoneName, rr))
  {
  }

  /** A row that serves the owner is counted, or of one of the models that are not. */
  lemma ServingKind(sv: Serving, db: Database, zone: Zone, r: Row, owner: Name)
    requires Serves(sv, db, zone, r, owner)
    ensures Counted(r, zone) || Unlooked(r.model) || r.model == Https
    ensures r.model != Https ==> Denote(r.name) == owner
  {
    UnlookedAreTheRest(r.model);
  }

  lemma CountedKind(r: Row, zone: Zone)
    requires Counted(r, zone)
    ensures !Unlooked(r.model) && r.model != Https
  {
    UnlookedAreTheRest(r.model);
  }

  /** A serving row that is not noticed where nothing is counted and no HTTPS row is found. */
  lemma ServingUnnoticed(sv: Serving, db: Database, zone: Zone, zoneName: Name, rr: RR, r: Row)
    requires Folded(db) && Lower(Written(zoneName, rr)) == Written(zoneName, rr)
    requires !HttpsAt(db, zone.id, PrereqName(zoneName, rr)) && !CountedAt(db, zone, Searched(zoneName, rr))
    requires Serves(sv, db, zone, r, Owner(zoneName, rr))
    ensures Unlooked(r.model) || (r.model == Https && !SearchedHttps(r, zone, PrereqName(zoneName, rr)))
  {
    ServingKind(sv, db, zone, r, Owner(zoneName, rr));
    SearchedText(zoneName, rr, r.name);
  }

  /** A counted row at the text searched for is noticed, or idle. */
  lemma CountedNoticed(sv: Serving, db: Database, zone: Zone, zoneName: Name, rr: RR, r: Row)
    requires Folded(db) && r in db && Counted(r, zone) && r.name == Searched(zoneName, rr)
    ensures Unnoticed(sv, db, zone, zoneName, rr) ==> Idle(sv, db, zone, zoneName, rr)
  {
    SearchedText(zoneName, rr, r.name);
    CountedKind(r, zone);
  }

  /** Whether the text searched for has a counted row, by cause. */
  lemma CountedByCause(sv: Serving, db: Database, zone: Zone, zoneName: Name, rr: RR)
    requires Folded(db) && !HttpsAt(db, zone.id, PrereqName(zoneName, rr))
    ensures !CountedAt(db, zone, Searched(zoneName, rr)) <==>
            Unnoticed(sv, db, zone, zoneName, rr) && !Idle(sv, db, zone, zoneName, rr)
  {
    if r :| r in db && Counted(r, zone) && r.name == Searched(zoneName, rr) {
      CountedNoticed(sv, db, zone, zoneName, rr, r);
    } else if Lower(Written(zoneName, rr)) == Written(zoneName, rr) {
      forall r | Serves(sv, db, zone, r, Owner(zoneName, rr))
        ensures Unlooked(r.model) || (r.model == Https && !SearchedHttps(r, zone, PrereqName(zoneName, rr)))
      {
        ServingUnnoticed(sv, db, zone, zoneName, rr, r);
      }
    }
  }

  /** "Name is in use" is decided as the RFC says, for every owner in the zone, if and only if it is not misjudged. */
  lemma NameInUseIsRfc(sv: Serving, db: Database, zone: Zone, zoneName: Name, rr: RR)
    requires Folded(db)
    ensures AnyRecords(db, zone.id, PrereqName(zoneName, rr), true)
              == InUse(Full(sv, db, zone.id), Owner(zoneName, rr))
            <==> !UseMisjudged(sv, db, zone, zoneName, rr)
  {
    SeenInUse(db, zone, zoneName, rr);
    if InUse(Full(sv, db, zone.id), Owner(zoneName, rr)) {
      if !HttpsAt(db, zone.id, PrereqName(zoneName, rr)) {
        CountedByCause(sv, db, zone, zoneName, rr);
      }
    } else {
      forall r
        ensures !Serves(sv, db, zone, r, Owner(zoneName, rr))
      {
        if Serves(sv, db, zone, r, Owner(zoneName, rr)) {
          RowUses(sv, db, zone, r, Owner(zoneName, rr));
        }
      }
    }
  }

  /** A used name that goes unnoticed is used by the header, at the apex, or by a row; the lemma names it. */
  lemma UnnoticedSource(sv: Serving, db: Database, zone: Zone, zoneName: Name, rr: RR) returns (r: Option<Row>)
    requires Lower(Written(zoneName, rr)) == Written(zoneName, rr)
    ensures InUse(Full(sv, db, zone.id), Owner(zoneName, rr)) && Unnoticed(sv, db, zone, zoneName, rr) ==>
              match r
              case None => Owner(zoneName, rr) == [] && Header(sv) != {}
              case Some(s) =>
                && Serves(sv, db, zone, s, Owner(zoneName, rr))
                && (Unlooked(s.model) || (s.model == Https && !SearchedHttps(s, zone, PrereqName(zoneName, rr))))
  {
    r := None;
    if z :| z in Full(sv, db, zone.id) && z.owner == Owner(zoneName, rr) {
      r := UseHasSource(sv, db, zone, z);
    }
  }

  /** A name that only a DHCID record uses counts as free. */
  lemma DhcidUnnoticed(sv: Serving, zone: Zone, zoneName: Name, w: Row, owner: Label)
    requires w.zone == zone.id && w.model == Dhcid && w.name == owner
    requires owner != "@" && '.' !in owner && LowerLabel(owner) == owner
    ensures UseMisjudged(sv, {w}, zone, zoneName, Exists(zoneName, owner, ANY))
  {
    OneLabel(zoneName, owner, ANY);
    SplitOne(owner);
    assert Owner(zoneName, Exists(zoneName, owner, ANY)) == [owner];
    assert Serves(sv, {w}, zone, w, [owner]);
    RowUses(sv, {w}, zone, w, [owner]);
  }

  /** The apex of an empty zone counts as free, although its file opens with an SOA. */
  lemma HeaderUnnoticed(sv: Serving, zone: Zone, zoneName: Name, d: Rdata)
    requires d in sv.header && d.rtype == SOA
    ensures UseMisjudged(sv, {}, zone, zoneName, RR(zoneName, ANY, CLASS_ANY, 0, None, true, true, true))
  {
    var rr := RR(zoneName, ANY, CLASS_ANY, 0, None, true, true, true);
    assert Written(zoneName, rr) == [];
    var z := ZoneRr([], d, HEADER_TTL);
    assert z in Header(sv);
    assert z in Full(sv, {}, zone.id);
  }

  // ---------- HTTPS rows that the search misses ----------

  /** The name under which a row's owner is looked up. */
  function LookedUp(r: Row): Name {
    if Denote(ServedName(r)) == [] then ["@"] else Denote(ServedName(r))
  }

  /** The name reads as a service's: `_port._scheme` and what follows. */
  predicate NamesService(rel: Name) {
    HttpsName(rel) != (DEFAULT_SERVICE, rel)
  }

  lemma {:induction false} DecimalReads(n: nat)
    ensures AllDigits(DecimalText(n)) && |DecimalText(n)| >= 1 && Decimal(DecimalText(n)) == n
    ensures '.' !in DecimalText(n)
  {
    var s := DecimalText(n);
    if n >= 10 {
      DecimalReads(n / 10);
      assert s[..|s| - 1] == DecimalText(n / 10);
    } else {
      assert s[..0] == "";
    }
  }

  lemma ServiceText(r: Row)
    requires r.model == Https && r.service != DEFAULT_SERVICE
    ensures var port, scheme := "_" + DecimalText(r.service.port), "_" + r.service.scheme;
            ServedName(r) == port + "." + if r.name == "@" then scheme else scheme + "." + r.name
    ensures ServedName(r) != "@"
  {
    assert ServedName(r)[0] == '_';
  }

  /** The labels of the name under which a row of another service is served. */
  lemma ServiceLabels(r: Row)
    requires r.model == Https && r.service != DEFAULT_SERVICE && '.' !in r.service.scheme
    ensures Denote(ServedName(r)) == ["_" + DecimalText(r.service.port), "_" + r.service.scheme]
                                     + if r.name == "@" then [] else Split(r.name)
  {
    var port, scheme := "_" + DecimalText(r.service.port), "_" + r.service.scheme;
    DecimalReads(r.service.port);
    ServiceText(r);
    if r.name == "@" {
      SplitLabel(port, scheme);
      SplitOne(scheme);
    } else {
      SplitLabel(port, scheme + "." + r.name);
      SplitLabel(scheme, r.name);
    }
  }

  /** A row of another service is found under its own name. */
  lemma OtherServiceFound(zone: Zone, r: Row)
    requires r.model == Https && r.zone == zone.id && r.service != DEFAULT_SERVICE && '.' !in r.service.scheme
    ensures SearchedHttps(r, zone, LookedUp(r))
  {
    ServiceLabels(r);
    DecimalReads(r.service.port);
    var rel := LookedUp(r);
    assert rel[0][1..] == DecimalText(r.service.port) && rel[1][1..] == r.service.scheme;
    if r.name != "@" {
      assert rel[2..] == Split(r.name);
      JoinSplit(r.name);
    }
  }

  /** A row of the default service is not searched for under a name that reads as a service's. */
  lemma ServiceNameMissed(zone: Zone, r: Row)
    requires r.model == Https && r.service == DEFAULT_SERVICE && NamesService(LookedUp(r))
    ensures !SearchedHttps(r, zone, LookedUp(r))
  {
    var rel := LookedUp(r);
    JoinSplit(r.name);
    assert r.name == Join(rel) == rel[0] + "." + Join(rel[1..]);
    if |rel| > 2 {
      var name := rel[2..];
      assert rel[1..][1..] == name;
      assert |r.name| >= |Join(name)| + 4;
      WildcardLength(name);
    } else {
      assert rel[1..] == [rel[1]];
      assert |r.name| >= 4 && Wildcard(["@"]) == ["*"];
    }
  }

  lemma WildcardLength(name: Name)
    requires name != []
    ensures |Join(Wildcard(name))| <= |Join(name)| + 1
  {
    var w := Wildcard(name);
    assert w[1..] == name[1..];
  }

  /**
   The HTTPS search misses a row under its own name, if and only if the row is of
   the default service and the name reads as a service's.
   */
  lemma HttpsMissedExactly(zone: Zone, r: Row)
    requires r.model == Https && r.zone == zone.id && '.' !in r.service.scheme
    ensures !SearchedHttps(r, zone, LookedUp(r)) <==> r.service == DEFAULT_SERVICE && NamesService(LookedUp(r))
  {
    if r.service != DEFAULT_SERVICE {
      OtherServiceFound(zone, r);
    } else if NamesService(LookedUp(r)) {
      ServiceNameMissed(zone, r);
    } else {
      JoinSplit(r.name);
    }
  }

  lemma PrerequisiteFor(zoneName: Name, rel: Name)
    requires rel != []
    ensures var rr := RR(rel + zoneName, ANY, CLASS_ANY, 0, None, true, true, true);
            Written(zoneName, rr) == rel && PrereqName(zoneName, rr) == rel
  {
    var name := rel + zoneName;
    assert name[..|rel|] == rel && name[|rel|..] == zoneName;
  }

  /** A name that only such a row uses counts as free, although `any_records` looks at HTTPS rows. */
  lemma HttpsUnnoticed(sv: Serving, zone: Zone, zoneName: Name, w: Row, d: Rdata)
    requires w.zone == zone.id && w.model == Https && w.service == DEFAULT_SERVICE && NamesService(LookedUp(w))
    requires d in sv.data(w) && d.rtype == HTTPS && Lower(LookedUp(w)) == LookedUp(w)
    ensures UseMisjudged(sv, {w}, zone, zoneName, RR(LookedUp(w) + zoneName, ANY, CLASS_ANY, 0, None, true, true, true))
  {
    var rel := LookedUp(w);
    PrerequisiteFor(zoneName, rel);
    ServiceNameMissed(zone, w);
    assert !HttpsAt({w}, zone.id, rel);
    HttpsServes(sv, zone, w, d);
  }

  lemma HttpsServes(sv: Serving, zone: Zone, w: Row, d: Rdata)
    requires w.zone == zone.id && w.model == Https && w.service == DEFAULT_SERVICE && NamesService(LookedUp(w))
    requires d in sv.data(w) && d.rtype == HTTPS
    ensures Serves(sv, {w}, zone, w, LookedUp(w)) && InUse(Full(sv, {w}, zone.id), LookedUp(w))
  {
    assert HoldsData(sv, w);
    RowUses(sv, {w}, zone, w, LookedUp(w));
  }

  // ---------- A prerequisite as a whole ----------

  /** Section 3.2.5 of RFC 2136 for one prerequisite, in a zone that serves v. */
  ghost function RfcPrerequisite(v: set<ZoneRr>, zoneName: Name, rr: RR): Option<Rcode> {
    var owner := Owner(zoneName, rr);
    if rr.ttl != 0 then Some(FormErr)
    else if !IsSuffix(zoneName, rr.name) then Some(NotZone)
    else if rr.rclass == CLASS_IN then None
    else if (rr.rclass != CLASS_ANY && rr.rclass != CLASS_NONE) || rr.data.Some? then Some(FormErr)
    else if rr.rtype == ANY then
      if (rr.rclass == CLASS_ANY) == InUse(v, owner) then None
      else Some(if rr.rclass == CLASS_ANY then NxDomain else YxDomain)
    else
      if (rr.rclass == CLASS_ANY) == RrsetExists(v, owner, rr.rtype) then None
      else Some(if rr.rclass == CLASS_ANY then NxRrset else YxRrset)
  }

  /** The prerequisite gets as far as asking whether something is there. */
  predicate Asks(zoneName: Name, rr: RR) {
    && rr.ttl == 0 && IsSuffix(zoneName, rr.name) && rr.data.None?
    && (rr.rclass == CLASS_ANY || rr.rclass == CLASS_NONE)
  }

  /** A prerequisite gets the code that the RFC says, if and only if what it asks is not misjudged. */
  lemma PrerequisiteCode(sv: Serving, db: Database, zone: Zone, zoneName: Name, rr: RR)
    requires WellFormed(db) && Folded(db) && (rr.rtype == ANY || ModelOf(rr.rtype).Some?)
    ensures PrereqFailure(db, zone, zoneName, rr) == RfcPrerequisite(Full(sv, db, zone.id), zoneName, rr) <==>
            !(Asks(zoneName, rr) && if rr.rtype == ANY then UseMisjudged(sv, db, zone, zoneName, rr)
                                    else Misjudged(sv, db, zone, zoneName, rr))
  {
    if rr.rtype == ANY {
      NameInUseIsRfc(sv, db, zone, zoneName, rr);
    } else {
      PrerequisiteIsRfc(sv, db, zone, zoneName, rr);
    }
  }

  /** A type without a model is never seen, except SSHFP, of which any row at the text is, and HTTPS. */
  lemma OtherTypesSeen(db: Database, zone: Zone, zoneName: Name, rr: RR)
    requires ModelOf(rr.rtype).None? && rr.rtype != HTTPS
    ensures AnyRecordType(db, zone.id, PrereqName(zoneName, rr), rr.rtype) <==>
            rr.rtype == SSHFP
            && exists r :: r in db && r.zone == zone.id && r.model == Sshfp && r.name == Searched(zoneName, rr)
  {
    if r :| r in db && r.zone == zone.id && r.model == Sshfp && r.name == Searched(zoneName, rr) {
      assert r in At(db, zone.id, Sshfp, Searched(zoneName, rr));
    }
    if r :| r in At(db, zone.id, Sshfp, Searched(zoneName, rr)) {
      assert r in db;
    }
  }
}
