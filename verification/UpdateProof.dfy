/**
 What the update loop keeps: no name comes to hold a CNAME beside a record that
 excludes it, and nothing outside the zone, models and names of the update's
 own RRs changes.
 */
module UpdateProof {
  import opened Names
  import opened UpdateModel

  // ---------- CNAME exclusion ----------

  /**
   Records that a CNAME must not stand beside: those of the models that
   `any_records` covers, and the HTTPS record of the default service at a name
   that does not itself name a service.
   */
  predicate Excludes(r: Row) {
    Covered(r.model) || (r.model == Https && r.service == DEFAULT_SERVICE && !(r.name != "" && r.name[0] == '_'))
  }

  /** No name holds both a CNAME and a record that excludes it. */
  ghost predicate Exclusive(db: Database) {
    forall c, r :: c in db && r in db && c.model == Cname && Excludes(r) && c.zone == r.zone ==> c.name != r.name
  }

  /** The loop searches for the name that it stores: the owner is below the apex and in lower case. */
  predicate Canonical(zone: Zone, rr: RR) {
    SearchName(zone, rr) == StoredName(zone, rr)
  }

  lemma PlainHttpsName(rel: Name)
    requires !(Join(rel) != "" && Join(rel)[0] == '_')
    ensures HttpsName(rel) == (DEFAULT_SERVICE, rel)
  {
    if |rel| >= 2 && rel[0] != "" {
      assert Join(rel)[0] == rel[0][0];
    }
  }

  lemma AddKeepsExclusive(db: Database, zone: Zone, rr: RR, n: Row)
    requires Exclusive(db) && Canonical(zone, rr) && !Conflict(db, zone, rr)
    requires ModelOf(rr.rtype) == Some(n.model) && n.zone == zone.id && n.name == StoredName(zone, rr)
    ensures Exclusive(db + {n})
  {
    var name := SearchName(zone, rr);
    if rr.rtype == CNAME {
      forall r | r in db && r.zone == zone.id && Excludes(r)
        ensures r.name != name
      {
        if r.model == Https && r.name == name {
          PlainHttpsName(Rel(zone, rr));
        }
      }
    } else {
      forall c | c in db && c.zone == zone.id && c.model == Cname
        ensures c.name != name
      {
        assert c !in At(db, zone.id, Cname, name);
      }
    }
  }

  lemma StepExclusive(db: Database, key: Key, zone: Zone, rr: RR, out: Outcome, db': Database)
    requires Exclusive(db) && Applies(db, key, zone, rr, out, db')
    requires rr.rclass == CLASS_IN ==> Canonical(zone, rr)
    ensures Exclusive(db')
  {
    if db' <= db {
    } else {
      assert rr.rclass == CLASS_IN && ModelOf(rr.rtype).Some? && Adds(db, zone, rr, out, db');
      if Matching(db, zone, rr) != {} {
        var m :| m in Matching(db, zone, rr) && db' == db - {m} + {Refresh(m, zone, rr)};
        AddKeepsExclusive(db, zone, rr, Refresh(m, zone, rr));
      } else {
        var id :| (forall r :: r in db ==> r.id != id) && db' == db + {NewRow(id, zone, rr)};
        AddKeepsExclusive(db, zone, rr, NewRow(id, zone, rr));
      }
    }
  }

  lemma {:induction false} LoopExclusive(db: Database, key: Key, zone: Zone, rrs: seq<RR>, out: Outcome, db': Database)
    requires Exclusive(db) && Loop(db, key, zone, rrs, out, db')
    requires forall i :: 0 <= i < |rrs| && rrs[i].rclass == CLASS_IN ==> Canonical(zone, rrs[i])
    ensures Exclusive(db')
    decreases |rrs|
  {
    if rrs != [] {
      var o, mid :| Applies(db, key, zone, rrs[0], o, mid)
                    && (if o == Continue then Loop(mid, key, zone, rrs[1..], out, db') else db' == mid && out == o);
      StepExclusive(db, key, zone, rrs[0], o, mid);
      if o == Continue {
        LoopExclusive(mid, key, zone, rrs[1..], out, db');
      }
    }
  }

  /** One message that reached the update loop. */
  datatype Update = Update(key: Key, zone: Zone, rrs: seq<RR>, out: Outcome)

  ghost predicate Performs(db: Database, u: Update, db': Database) {
    Loop(db, u.key, u.zone, u.rrs, u.out, db')
  }

  /** The databases before and after each of a sequence of messages. */
  ghost predicate History(dbs: seq<Database>, us: seq<Update>) {
    && |dbs| == |us| + 1
    && forall i :: 0 <= i < |us| ==> Performs(dbs[i], us[i], dbs[i + 1])
  }

  ghost predicate AddsCanonically(u: Update) {
    forall i :: 0 <= i < |u.rrs| && u.rrs[i].rclass == CLASS_IN ==> Canonical(u.zone, u.rrs[i])
  }

  lemma MessageExclusive(db: Database, u: Update, db': Database)
    requires Exclusive(db) && AddsCanonically(u) && Performs(db, u, db')
    ensures Exclusive(db')
  {
    LoopExclusive(db, u.key, u.zone, u.rrs, u.out, db');
  }

  /** Over any sequence of messages, partly applied ones included, exclusion is never lost. */
  lemma {:induction false} CnameExclusion(dbs: seq<Database>, us: seq<Update>, n: nat)
    requires History(dbs, us) && n <= |us| && Exclusive(dbs[0])
    requires forall i :: 0 <= i < |us| ==> AddsCanonically(us[i])
    ensures Exclusive(dbs[n])
  {
    if n > 0 {
      CnameExclusion(dbs, us, n - 1);
      MessageExclusive(dbs[n - 1], us[n - 1], dbs[n]);
    }
  }

  // ---------- The condition is exact ----------

  const ROOT_KEY := Key(0, Unlimited, None)

  function Plain(name: Name, rtype: nat, data: string): RR {
    RR(name, rtype, CLASS_IN, 300, Some(data), true, true, true)
  }

  lemma LoopCons(db: Database, key: Key, zone: Zone, rrs: seq<RR>, mid: Database, out: Outcome, db': Database)
    requires rrs != [] && Applies(db, key, zone, rrs[0], Continue, mid)
    requires Loop(mid, key, zone, rrs[1..], out, db')
    ensures Loop(db, key, zone, rrs, out, db')
  {
  }

  /** Two RRs applied one after the other. */
  lemma TwoSteps(db: Database, key: Key, zone: Zone, x: RR, y: RR, mid: Database, db': Database)
    requires Applies(db, key, zone, x, Continue, mid) && Applies(mid, key, zone, y, Continue, db')
    ensures Loop(db, key, zone, [x, y], Continue, db')
  {
    assert [x, y][1..] == [y] && [y][1..] == [];
    LoopCons(mid, key, zone, [y], db', Continue, db');
    LoopCons(db, key, zone, [x, y], mid, Continue, db');
  }

  /**
   For any name that is searched for under another spelling than it is stored
   (the apex, or a name with an upper-case letter), adding a CNAME and then an
   address to an empty database puts both at one name.
   */
  lemma NotCanonicalLosesExclusion(zone: Zone, name: Name) returns (db: Database)
    requires !Canonical(zone, Plain(name, CNAME, "target."))
    ensures Loop({}, ROOT_KEY, zone, [Plain(name, CNAME, "target."), Plain(name, A, "192.0.2.1")], Continue, db)
    ensures !Exclusive(db)
  {
    var x, y := Plain(name, CNAME, "target."), Plain(name, A, "192.0.2.1");
    var c, a := NewRow(0, zone, x), NewRow(1, zone, y);
    assert Matching({}, zone, x) == {};
    assert Created({}, zone, x, {c}) by {
      assert {} + {c} == {c};
    }
    assert Applies({}, ROOT_KEY, zone, x, Continue, {c});
    assert Matching({c}, zone, y) == {};
    assert At({c}, zone.id, Cname, SearchName(zone, y)) == {};
    db := {c} + {a};
    assert Created({c}, zone, y, db);
    assert Applies({c}, ROOT_KEY, zone, y, Continue, db);
    TwoSteps({}, ROOT_KEY, zone, x, y, {c}, db);
    assert c in db && a in db && c.name == a.name;
  }

  /** DHCID rows are added by updates and not covered by `any_records`: a CNAME goes in beside one. */
  lemma CnameBesideDhcid(zone: Zone, name: Name) returns (db: Database)
    requires Canonical(zone, Plain(name, DHCID, "AAIB"))
    ensures Loop({}, ROOT_KEY, zone, [Plain(name, DHCID, "AAIB"), Plain(name, CNAME, "target.")], Continue, db)
    ensures exists c, d :: c in db && d in db && c.model == Cname && d.model == Dhcid
                           && c.name == d.name && c.zone == d.zone
  {
    var x, y := Plain(name, DHCID, "AAIB"), Plain(name, CNAME, "target.");
    var d, c := NewRow(0, zone, x), NewRow(1, zone, y);
    assert Matching({}, zone, x) == {};
    assert At({}, zone.id, Cname, SearchName(zone, x)) == {};
    assert Created({}, zone, x, {d}) by {
      assert {} + {d} == {d};
    }
    assert Applies({}, ROOT_KEY, zone, x, Continue, {d});
    assert Matching({d}, zone, y) == {};
    db := {d} + {c};
    assert Created({d}, zone, y, db);
    assert Applies({d}, ROOT_KEY, zone, y, Continue, db);
    TwoSteps({}, ROOT_KEY, zone, x, y, {d}, db);
    assert c in db && d in db;
  }

  /** The models that `any_records` never looks at. */
  predicate Unlooked(m: Model) {
    m == Dhcid || m == GithubPages || m == Dnskey
  }

  lemma UnlookedAreTheRest(m: Model)
    ensures Unlooked(m) <==> !Covered(m) && m != Cname && m != Https
  {
  }

  lemma UnlookedAddable(zone: Zone, name: Name, d: Row)
    requires Unlooked(d.model) && d.zone == zone.id
    ensures var y := Plain(name, CNAME, "target.");
            Applies({d}, ROOT_KEY, zone, y, Continue, {d} + {NewRow(d.id + 1, zone, y)})
  {
    var y := Plain(name, CNAME, "target.");
    UnlookedAreTheRest(d.model);
    assert !Conflict({d}, zone, y);
    assert Matching({d}, zone, y) == {};
    assert Created({d}, zone, y, {d} + {NewRow(d.id + 1, zone, y)});
  }

  /** A CNAME goes in beside any row of such a model, however it got there. */
  lemma CnameBesideUnlooked(zone: Zone, name: Name, d: Row)
    requires Canonical(zone, Plain(name, CNAME, "target.")) && Unlooked(d.model)
    requires d.zone == zone.id && d.name == SearchName(zone, Plain(name, CNAME, "target."))
    ensures var c := NewRow(d.id + 1, zone, Plain(name, CNAME, "target."));
            Loop({d}, ROOT_KEY, zone, [Plain(name, CNAME, "target.")], Continue, {d, c}) && c.name == d.name
  {
    var y := Plain(name, CNAME, "target.");
    var c := NewRow(d.id + 1, zone, y);
    UnlookedAddable(zone, name, d);
    assert {d} + {c} == {d, c} && [y][1..] == [];
    LoopCons({d}, ROOT_KEY, zone, [y], {d, c}, Continue, {d, c});
  }

  // ---------- What an update leaves alone ----------

  /** A row of the RR's zone, of a model for its type, at the given name. */
  predicate ForRr(zone: Zone, rr: RR, r: Row) {
    && r.zone == zone.id
    && (ModelOf(rr.rtype) == Some(r.model) || (rr.rtype == ANY && Updatable(r.model)))
  }

  /** The key may manage rows of r's type at the RR's name. */
  predicate Permitted(key: Key, zone: Zone, rr: RR, r: Row) {
    CanManage(key, r.rdata.rtype, Rel(zone, rr)) == Allowed
  }

  /** Rows that the RR may take away or change. */
  predicate Takes(key: Key, zone: Zone, rr: RR, r: Row) {
    && ForRr(zone, rr, r) && Permitted(key, zone, rr, r)
    && (r.name == SearchName(zone, rr) || r.name == WildName(zone, rr))
  }

  /** Rows that the RR may bring. */
  predicate Brings(key: Key, zone: Zone, rr: RR, r: Row) {
    && ForRr(zone, rr, r) && Permitted(key, zone, rr, r) && r.name == StoredName(zone, rr)
    && rr.rclass == CLASS_IN && rr.data.Some? && r.rdata == RdataOf(rr) && r.ttl == rr.ttl
  }

  lemma StepFrame(db: Database, key: Key, zone: Zone, rr: RR, out: Outcome, db': Database)
    requires Applies(db, key, zone, rr, out, db')
    ensures forall r :: r in db && r !in db' ==> Takes(key, zone, rr, r)
    ensures forall r :: r in db' && r !in db ==> Brings(key, zone, rr, r)
  {
    if rr.rclass == CLASS_ANY && rr.rtype == ANY {
      AskingFrame(db, key, Rel(zone, rr), AllRows(db, zone, rr), out, db');
    } else if !(db' <= db) {
      assert Adds(db, zone, rr, out, db');
      if Matching(db, zone, rr) != {} {
        assert Refreshed(db, zone, rr, db');
      } else {
        assert Created(db, zone, rr, db');
      }
    }
  }

  /** However far a deletion gets, it takes only rows that the key may manage. */
  lemma AskingFrame(db: Database, key: Key, rel: Name, rows: set<Row>, out: Outcome, db': Database)
    requires DeletesAsking(db, key, rel, rows, out, db')
    ensures db' <= db
    ensures forall r :: r in db && r !in db' ==> r in rows && CanManage(key, r.rdata.rtype, rel) == Allowed
  {
    if !(forall r :: r in rows ==> Authorise(key, r.rdata.rtype, rel).None?) {
      var r, gone :| StoppedAt(db, key, rel, rows, r, gone, out.rcode, db');
      assert forall g: Row :: g in gone ==> Authorise(key, g.rdata.rtype, rel).None?;
    }
  }

  /**
   In any run of the loop, a row that is gone was in the zone, of a model for
   the type and at the name or wildcard of one of the RRs; a row that is new
   carries the zone, model, name, data and TTL of one of the RRs; and the key
   may manage either.
   */
  lemma {:induction false} LoopFrame(db: Database, key: Key, zone: Zone, rrs: seq<RR>, out: Outcome, db': Database,
                                     r: Row)
    requires Loop(db, key, zone, rrs, out, db')
    ensures r in db && r !in db' ==> exists i :: 0 <= i < |rrs| && Takes(key, zone, rrs[i], r)
    ensures r in db' && r !in db ==> exists i :: 0 <= i < |rrs| && Brings(key, zone, rrs[i], r)
    decreases |rrs|
  {
    if rrs != [] {
      var o, mid :| Applies(db, key, zone, rrs[0], o, mid)
                    && (if o == Continue then Loop(mid, key, zone, rrs[1..], out, db') else db' == mid && out == o);
      StepFrame(db, key, zone, rrs[0], o, mid);
      if o == Continue {
        LoopFrame(mid, key, zone, rrs[1..], out, db', r);
        if r in mid && r !in db' {
          var i :| 0 <= i < |rrs[1..]| && Takes(key, zone, rrs[1..][i], r);
          assert Takes(key, zone, rrs[i + 1], r);
        }
        if r in db' && r !in mid {
          var i :| 0 <= i < |rrs[1..]| && Brings(key, zone, rrs[1..][i], r);
          assert Brings(key, zone, rrs[i + 1], r);
        }
      }
    }
  }

  // ---------- What a key may change ----------

  /** The relative name ends in the key's restriction. */
  predicate WithinRestriction(key: Key, rel: Name) {
    key.restrictTo.Some? ==>
      && |rel| >= |key.restrictTo.value|
      && rel[|rel| - |key.restrictTo.value|..] == key.restrictTo.value
  }

  /** Who may manage what, outright. */
  lemma PermissionExactly(key: Key, rtype: nat, rel: Name)
    ensures CanManage(key, rtype, rel) == Allowed <==>
            && WithinRestriction(key, rel)
            && (key.keyType == Unlimited
                || (key.keyType == AcmeDns01 && rel != [] && rel[0] == "_acme-challenge" && rtype == 16))
  {
  }

  /** Whatever a key's type, every row that a run takes or brings comes through an RR under its restriction. */
  lemma RestrictionHolds(db: Database, key: Key, zone: Zone, rrs: seq<RR>, out: Outcome, db': Database, r: Row)
    requires Loop(db, key, zone, rrs, out, db') && (r in db) != (r in db')
    ensures exists i :: 0 <= i < |rrs| && ForRr(zone, rrs[i], r) && WithinRestriction(key, Rel(zone, rrs[i]))
                        && NamedBy(zone, rrs[i], r, r in db)
  {
    LoopFrame(db, key, zone, rrs, out, db', r);
    var i;
    if r in db {
      i :| 0 <= i < |rrs| && Takes(key, zone, rrs[i], r);
    } else {
      i :| 0 <= i < |rrs| && Brings(key, zone, rrs[i], r);
    }
    PermissionExactly(key, r.rdata.rtype, Rel(zone, rrs[i]));
    assert ForRr(zone, rrs[i], r) && NamedBy(zone, rrs[i], r, r in db);
  }

  /** A key of neither known type changes nothing. */
  lemma OtherKeyIdle(db: Database, key: Key, zone: Zone, rrs: seq<RR>, out: Outcome, db': Database)
    requires Loop(db, key, zone, rrs, out, db') && key.keyType != Unlimited && key.keyType != AcmeDns01
    ensures db' == db
  {
    forall r
      ensures r in db <==> r in db'
    {
      if (r in db) != (r in db') {
        LoopFrame(db, key, zone, rrs, out, db', r);
      }
    }
  }

  /** An unlimited key is never stopped for want of permission under its restriction. */
  lemma UnlimitedNotStopped(db: Database, key: Key, zone: Zone, rr: RR, out: Outcome, db': Database)
    requires Applies(db, key, zone, rr, out, db') && key.keyType == Unlimited && WithinRestriction(key, Rel(zone, rr))
    ensures out != Stop(NotAuth)
    ensures out.Stop? ==> rr.rclass == CLASS_IN && out.rcode == ServFail && db' == db
  {
    forall t
      ensures Authorise(key, t, Rel(zone, rr)).None?
    {
      PermissionExactly(key, t, Rel(zone, rr));
    }
  }

  lemma {:induction false} UnlimitedRuns(db: Database, key: Key, zone: Zone, rrs: seq<RR>, out: Outcome, db': Database)
    requires Loop(db, key, zone, rrs, out, db') && key.keyType == Unlimited
    requires forall i :: 0 <= i < |rrs| ==> WithinRestriction(key, Rel(zone, rrs[i]))
    ensures out != Stop(NotAuth)
    decreases |rrs|
  {
    if rrs != [] {
      var o, mid :| Applies(db, key, zone, rrs[0], o, mid)
                    && (if o == Continue then Loop(mid, key, zone, rrs[1..], out, db') else db' == mid && out == o);
      UnlimitedNotStopped(db, key, zone, rrs[0], o, mid);
      if o == Continue {
        UnlimitedRuns(mid, key, zone, rrs[1..], out, db');
      }
    }
  }

  /** Outside its restriction every key is stopped with NOTAUTH at once, by an RR of a type that updates know. */
  lemma OutsideStopped(db: Database, key: Key, zone: Zone, rr: RR, out: Outcome, db': Database)
    requires Applies(db, key, zone, rr, out, db') && !WithinRestriction(key, Rel(zone, rr))
    requires rr.rclass == CLASS_IN || rr.rclass == CLASS_ANY || rr.rclass == CLASS_NONE
    requires ModelOf(rr.rtype).Some?
    ensures out == Stop(NotAuth) && db' == db
  {
  }

  /** Why an addition stops: the conversion, the refresh or the saving failed; and nothing was changed. */
  lemma AdditionStops(db: Database, zone: Zone, rr: RR, out: Outcome, db': Database)
    requires ModelOf(rr.rtype).Some? && Adds(db, zone, rr, out, db')
    ensures out.Stop? ==> out.rcode == ServFail && db' == db
    ensures out.Continue? && db' == db ==> rr.data.Some? && rr.converts
    ensures out.Stop? <==> || !rr.converts || rr.data.None?
                           || (!Conflict(db, zone, rr)
                               && if Matching(db, zone, rr) != {} then !rr.refreshes else !rr.saves)
  {
  }

  /**
   A key that is limited to ACME challenges changes TXT rows only, and only
   through RRs whose first label is the challenge's and whose name lies under
   the key's restriction.  A row it brings bears the RR's name; a row it takes
   bears that name or the one with the first label replaced by the wildcard's.
   */
  lemma AcmeKeyConfined(db: Database, key: Key, zone: Zone, rrs: seq<RR>, out: Outcome, db': Database, r: Row)
    requires Loop(db, key, zone, rrs, out, db') && key.keyType == AcmeDns01
    requires (r in db) != (r in db')
    ensures r.rdata.rtype == TXT
    ensures exists i :: 0 <= i < |rrs| && ForRr(zone, rrs[i], r) && Challenges(key, Rel(zone, rrs[i]))
                        && NamedBy(zone, rrs[i], r, r in db)
  {
    LoopFrame(db, key, zone, rrs, out, db', r);
    if r in db {
      var i :| 0 <= i < |rrs| && Takes(key, zone, rrs[i], r);
      assert ForRr(zone, rrs[i], r) && NamedBy(zone, rrs[i], r, true);
    } else {
      var i :| 0 <= i < |rrs| && Brings(key, zone, rrs[i], r);
      assert ForRr(zone, rrs[i], r) && NamedBy(zone, rrs[i], r, false);
    }
  }

  predicate NamedBy(zone: Zone, rr: RR, r: Row, taken: bool) {
    if taken then r.name == SearchName(zone, rr) || r.name == WildName(zone, rr) else r.name == StoredName(zone, rr)
  }

  /** The wildcard case is real: deleting a challenge that is not there deletes the TXT row of the wildcard. */
  lemma AcmeKeyTakesWildcard(zone: Zone, key: Key, w: Row)
    requires key.keyType == AcmeDns01 && (key.restrictTo.Some? ==> IsSuffix(key.restrictTo.value, ["_acme-challenge"]))
    requires w.zone == zone.id && w.model == Txt && w.rdata.rtype == TXT && w.name == "*"
    ensures var rr := RR(["_acme-challenge"] + zone.root, TXT, CLASS_ANY, 0, None, true, true, true);
            Loop({w}, key, zone, [rr], Continue, {})
  {
    var rr := RR(["_acme-challenge"] + zone.root, TXT, CLASS_ANY, 0, None, true, true, true);
    assert rr.name[..1] == ["_acme-challenge"] && rr.name[1..] == zone.root;
    assert Rel(zone, rr) == ["_acme-challenge"] && Wildcard(Rel(zone, rr)) == ["*"];
    assert At({w}, zone.id, Txt, "_acme-challenge") == {} by {
      assert |"_acme-challenge"| != |w.name|;
    }
    assert w in At({w}, zone.id, Txt, "*");
    assert RrsetRows({w}, zone, rr) == {w};
    assert {w} - {w} == {} && [rr][1..] == [];
    assert Applies({w}, key, zone, rr, Continue, {});
    LoopCons({w}, key, zone, [rr], {}, Continue, {});
  }

  predicate Challenges(key: Key, rel: Name) {
    && rel != [] && rel[0] == "_acme-challenge"
    && (key.restrictTo.Some? ==> IsSuffix(key.restrictTo.value, rel))
  }

  // ---------- Rows stay well formed ----------

  lemma StepWellFormed(db: Database, key: Key, zone: Zone, rr: RR, out: Outcome, db': Database)
    requires WellFormed(db) && Applies(db, key, zone, rr, out, db')
    ensures WellFormed(db')
  {
    if !(db' <= db) {
      assert Adds(db, zone, rr, out, db');
      if Matching(db, zone, rr) != {} {
        var m :| m in Matching(db, zone, rr) && db' == db - {m} + {Refresh(m, zone, rr)};
      } else {
        assert Created(db, zone, rr, db');
      }
    }
  }
}
