/**
 `handle_update_query` as it runs: the checks that refuse a message, and the
 loop that changes the database row by row.
 */
module UpdateServer {
  import opened Names
  import opened UpdateModel
  import opened UpdateProof

  /** A TSIG record, with what verifying its algorithm and MAC gave. */
  datatype Tsig = Tsig(keyName: Name, knownAlgorithm: bool, macValid: bool, timeSigned: int, fudge: nat)

  /** An update message; rrsetsMatch is what comparing the value-dependent prerequisites gave. */
  datatype Request = Request(
    isUpdate: bool, qclass: nat, qtype: nat, qname: Name, tsig: Option<Tsig>,
    prerequisites: seq<RR>, rrsetsMatch: bool, updates: seq<RR>)

  datatype Environment = Environment(keys: map<string, Key>, zones: seq<Zone>, now: int)

  // ---------- What refuses a message ----------

  function ZoneName(req: Request): Name {
    Lower(req.qname)
  }

  function FindKey(env: Environment, req: Request): Option<Key> {
    if req.tsig.None? || !IsSuffix(ZoneName(req), req.tsig.value.keyName) then None
    else
      var id := Join(StripSuffix(req.tsig.value.keyName, ZoneName(req)));
      if id in env.keys then Some(env.keys[id]) else None
  }

  /** The last zone with the given root. */
  function ZoneNamed(zones: seq<Zone>, name: Name): Option<Zone> {
    if zones == [] then None
    else if Lower(zones[|zones| - 1].root) == name then Some(zones[|zones| - 1])
    else ZoneNamed(zones[..|zones| - 1], name)
  }

  function AuthFailure(env: Environment, req: Request): Option<Rcode> {
    if !req.isUpdate || req.qclass != CLASS_IN || req.qtype != SOA then Some(Refused)
    else if req.tsig.None? then Some(Refused)
    else if FindKey(env, req).None? then Some(NotAuth)
    else
      var t := req.tsig.value;
      if !t.knownAlgorithm || !t.macValid then Some(NotAuth)
      else if env.now < t.timeSigned - t.fudge || env.now > t.timeSigned + t.fudge then Some(NotAuth)
      else if ZoneNamed(env.zones, ZoneName(req)).None? then Some(NotAuth)
      else if FindKey(env, req).value.zone != ZoneNamed(env.zones, ZoneName(req)).value.id then Some(NotAuth)
      else None
  }

  // ---------- What authenticity means ----------

  /** The last of the zones whose folded root is the name. */
  ghost predicate LastNamed(zones: seq<Zone>, name: Name, zone: Zone) {
    exists i :: LastNamedAt(zones, name, zone, i)
  }

  ghost predicate LastNamedAt(zones: seq<Zone>, name: Name, zone: Zone, i: nat) {
    && i < |zones| && zones[i] == zone && Lower(zone.root) == name
    && forall j :: i < j < |zones| ==> Lower(zones[j].root) != name
  }

  /** The key is stored under what the name of the TSIG has before the zone's name. */
  ghost predicate SignsFor(env: Environment, keyName: Name, zoneName: Name, key: Key) {
    exists id: Name :: keyName == id + zoneName && Join(id) in env.keys && env.keys[Join(id)] == key
  }

  /** An update question: opcode UPDATE, class IN, type SOA, and a TSIG at the end. */
  predicate WellPosed(req: Request) {
    req.isUpdate && req.qclass == 1 && req.qtype == 6 && req.tsig.Some?
  }

  /** The message is a signed update, in time, of a zone that the key belongs to. */
  ghost predicate Authentic(env: Environment, req: Request, key: Key, zone: Zone) {
    && WellPosed(req)
    && var t, name := req.tsig.value, Lower(req.qname);
    && t.knownAlgorithm && t.macValid
    && -(t.fudge as int) <= env.now - t.timeSigned <= t.fudge
    && SignsFor(env, t.keyName, name, key)
    && LastNamed(env.zones, name, zone)
    && key.zone == zone.id
  }

  lemma LastNamedSnoc(zones: seq<Zone>, name: Name, zone: Zone)
    requires zones != []
    ensures var n := |zones| - 1;
            LastNamed(zones, name, zone) <==>
            if Lower(zones[n].root) == name then zones[n] == zone else LastNamed(zones[..n], name, zone)
  {
    var n := |zones| - 1;
    if i: nat :| LastNamedAt(zones, name, zone, i) {
      if i < n {
        assert LastNamedAt(zones[..n], name, zone, i);
      }
    }
    if Lower(zones[n].root) == name {
      assert LastNamedAt(zones, name, zones[n], n);
    } else if i: nat :| LastNamedAt(zones[..n], name, zone, i) {
      assert forall j :: i < j < n ==> zones[..n][j] == zones[j];
      assert LastNamedAt(zones, name, zone, i);
    }
  }

  lemma {:induction false} ZoneNamedExactly(zones: seq<Zone>, name: Name, zone: Zone)
    ensures ZoneNamed(zones, name) == Some(zone) <==> LastNamed(zones, name, zone)
  {
    if zones != [] {
      ZoneNamedExactly(zones[..|zones| - 1], name, zone);
      LastNamedSnoc(zones, name, zone);
    }
  }

  lemma FindKeyExactly(env: Environment, req: Request, key: Key)
    requires req.tsig.Some?
    ensures FindKey(env, req) == Some(key) <==> SignsFor(env, req.tsig.value.keyName, Lower(req.qname), key)
  {
    var name, zoneName := req.tsig.value.keyName, Lower(req.qname);
    if id: Name :| name == id + zoneName && Join(id) in env.keys && env.keys[Join(id)] == key {
      assert name[|name| - |zoneName|..] == zoneName && name[..|name| - |zoneName|] == id;
    }
    if IsSuffix(zoneName, name) {
      assert name == StripSuffix(name, zoneName) + zoneName;
    }
  }

  /** The checks pass exactly for authentic messages, and name the key and the zone. */
  lemma AuthExactly(env: Environment, req: Request)
    ensures AuthFailure(env, req).None? ==>
              Authentic(env, req, FindKey(env, req).value, ZoneNamed(env.zones, ZoneName(req)).value)
    ensures AuthFailure(env, req).Some? ==> forall key, zone :: !Authentic(env, req, key, zone)
  {
    forall key, zone
      ensures req.tsig.Some? ==>
                (FindKey(env, req) == Some(key) <==> SignsFor(env, req.tsig.value.keyName, Lower(req.qname), key))
      ensures ZoneNamed(env.zones, ZoneName(req)) == Some(zone) <==> LastNamed(env.zones, Lower(req.qname), zone)
    {
      if req.tsig.Some? {
        FindKeyExactly(env, req, key);
      }
      ZoneNamedExactly(env.zones, ZoneName(req), zone);
    }
  }

  /** A message that is not posed as a signed update is refused; any other that is not authentic is not authorised. */
  lemma AuthCode(env: Environment, req: Request)
    ensures AuthFailure(env, req).Some? ==>
              AuthFailure(env, req).value == if WellPosed(req) then NotAuth else Refused
  {
  }

  /** Here, unlike in the update loop, the apex is looked up as "@". */
  function PrereqName(zoneName: Name, rr: RR): Name {
    var rel := StripSuffix(rr.name, zoneName);
    if rel == [] then ["@"] else rel
  }

  function PrereqFailure(db: Database, zone: Zone, zoneName: Name, rr: RR): Option<Rcode> {
    var rel := PrereqName(zoneName, rr);
    if rr.ttl != 0 then Some(FormErr)
    else if !IsSuffix(zoneName, rr.name) then Some(NotZone)
    else if rr.rclass == CLASS_ANY then
      if rr.data.Some? then Some(FormErr)
      else if rr.rtype == ANY then if AnyRecords(db, zone.id, rel, true) then None else Some(NxDomain)
      else if AnyRecordType(db, zone.id, rel, rr.rtype) then None else Some(NxRrset)
    else if rr.rclass == CLASS_NONE then
      if rr.data.Some? then Some(FormErr)
      else if rr.rtype == ANY then if AnyRecords(db, zone.id, rel, true) then Some(YxDomain) else None
      else if AnyRecordType(db, zone.id, rel, rr.rtype) then Some(YxRrset) else None
    else if rr.rclass == CLASS_IN then None
    else Some(FormErr)
  }

  function PrescanFailure(zoneName: Name, rr: RR): Option<Rcode> {
    if rr.rclass != CLASS_ANY && rr.rclass != CLASS_NONE && rr.rclass != CLASS_IN then Some(YxRrset)
    else if !IsSuffix(zoneName, rr.name) then Some(NotZone)
    else if rr.rclass == CLASS_IN then if ModelOf(rr.rtype).None? then Some(FormErr) else None
    else if rr.rclass == CLASS_ANY then
      if rr.data.Some? || (ModelOf(rr.rtype).None? && rr.rtype != ANY) || rr.ttl != 0 then Some(FormErr) else None
    else if rr.ttl != 0 || ModelOf(rr.rtype).None? then Some(FormErr) else None
  }

  /** The first prerequisite that fails decides the response. */
  ghost predicate PrereqsDecide(db: Database, zone: Zone, zoneName: Name, rrs: seq<RR>, r: Option<Rcode>) {
    match r
    case None => forall i :: 0 <= i < |rrs| ==> PrereqFailure(db, zone, zoneName, rrs[i]).None?
    case Some(_) =>
      exists i :: 0 <= i < |rrs| && PrereqFailure(db, zone, zoneName, rrs[i]) == r
                  && forall j :: 0 <= j < i ==> PrereqFailure(db, zone, zoneName, rrs[j]).None?
  }

  /** The first update RR that fails the prescan decides the response. */
  ghost predicate PrescanDecides(zoneName: Name, rrs: seq<RR>, r: Option<Rcode>) {
    match r
    case None => forall i :: 0 <= i < |rrs| ==> PrescanFailure(zoneName, rrs[i]).None?
    case Some(_) =>
      exists i :: 0 <= i < |rrs| && PrescanFailure(zoneName, rrs[i]) == r
                  && forall j :: 0 <= j < i ==> PrescanFailure(zoneName, rrs[j]).None?
  }

  /** The message passes every check before the update loop. */
  ghost predicate Admitted(db: Database, env: Environment, req: Request) {
    && AuthFailure(env, req).None?
    && var zone := ZoneNamed(env.zones, ZoneName(req)).value;
    && (forall i :: 0 <= i < |req.prerequisites| ==>
          PrereqFailure(db, zone, ZoneName(req), req.prerequisites[i]).None?)
    && req.rrsetsMatch
    && (forall i :: 0 <= i < |req.updates| ==> PrescanFailure(ZoneName(req), req.updates[i]).None?)
  }

  lemma RefusalIsError(db: Database, env: Environment, req: Request, rcode: Rcode)
    requires RefusedWith(db, env, req, rcode)
    ensures rcode != NoError
  {
  }

  /** The code that a refused message gets: that of the first check to fail, in the order of the checks. */
  ghost predicate RefusedWith(db: Database, env: Environment, req: Request, rcode: Rcode) {
    if AuthFailure(env, req).Some? then AuthFailure(env, req) == Some(rcode)
    else
      var zone := ZoneNamed(env.zones, ZoneName(req)).value;
      || PrereqsDecide(db, zone, ZoneName(req), req.prerequisites, Some(rcode))
      || (PrereqsDecide(db, zone, ZoneName(req), req.prerequisites, None)
          && if req.rrsetsMatch then PrescanDecides(ZoneName(req), req.updates, Some(rcode)) else rcode == YxRrset)
  }

  // ---------- The prescan against the RFC ----------

  /** The meta types that no update may name: AXFR, MAILB, MAILA, and ANY where a deletion of RRsets is not meant. */
  predicate IsTransferType(rtype: nat) {
    252 <= rtype <= 254
  }

  /** Section 3.4.1.3 of RFC 2136. */
  function RfcPrescan(zoneName: Name, rr: RR): Option<Rcode> {
    if !IsSuffix(zoneName, rr.name) then Some(NotZone)
    else if rr.rclass == CLASS_IN then
      if IsTransferType(rr.rtype) || rr.rtype == ANY then Some(FormErr) else None
    else if rr.rclass == CLASS_ANY then
      if rr.ttl != 0 || rr.data.Some? || IsTransferType(rr.rtype) then Some(FormErr) else None
    else if rr.rclass == CLASS_NONE then
      if rr.ttl != 0 || IsTransferType(rr.rtype) || rr.rtype == ANY then Some(FormErr) else None
    else Some(FormErr)
  }

  /** A type that the RFC admits and the database has no model for. */
  predicate Unmodelled(rtype: nat) {
    ModelOf(rtype).None? && rtype != ANY && !IsTransferType(rtype)
  }

  /**
   The prescan is the RFC's, if and only if the class is one of the three and the
   type is one that the database has a model for, unless the RR is refused anyway.
   */
  lemma PrescanIsRfc(zoneName: Name, rr: RR)
    ensures PrescanFailure(zoneName, rr) == RfcPrescan(zoneName, rr) <==>
            && (rr.rclass == CLASS_IN || rr.rclass == CLASS_ANY || rr.rclass == CLASS_NONE)
            && !(IsSuffix(zoneName, rr.name) && Unmodelled(rr.rtype)
                 && (rr.rclass == CLASS_IN || (rr.ttl == 0 && (rr.rclass == CLASS_ANY ==> rr.data.None?))))
  {
  }

  /** Where it is not, the code is YXRRSET for another class and a format error for a type without a model. */
  lemma PrescanDiffers(zoneName: Name, rr: RR)
    ensures PrescanFailure(zoneName, rr) != RfcPrescan(zoneName, rr) ==>
              PrescanFailure(zoneName, rr) == Some(if rr.rclass in {1, 254, 255} then FormErr else YxRrset)
    ensures PrescanFailure(zoneName, rr).None? ==> IsSuffix(zoneName, rr.name)
  {
  }

  // ---------- The loop, read forwards ----------

  lemma {:induction false} LoopSnoc(db: Database, key: Key, zone: Zone, rrs: seq<RR>, mid: Database, rr: RR,
                                    out: Outcome, db': Database)
    requires Loop(db, key, zone, rrs, Continue, mid) && Applies(mid, key, zone, rr, out, db')
    ensures Loop(db, key, zone, rrs + [rr], out, db')
    decreases |rrs|
  {
    var all := rrs + [rr];
    if rrs == [] {
      assert all[0] == rr && all[1..] == [];
      if out == Continue {
        LoopCons(mid, key, zone, all, db', Continue, db');
      }
    } else {
      var o, next :| Applies(db, key, zone, rrs[0], o, next)
                     && (if o == Continue then Loop(next, key, zone, rrs[1..], Continue, mid)
                         else mid == next && Continue == o);
      LoopSnoc(next, key, zone, rrs[1..], mid, rr, out, db');
      assert all[0] == rrs[0] && all[1..] == rrs[1..] + [rr];
      LoopCons(db, key, zone, all, next, out, db');
    }
  }

  /** A loop that stopped early ignores what follows. */
  lemma {:induction false} LoopStopped(db: Database, key: Key, zone: Zone, rrs: seq<RR>, out: Outcome, db': Database,
                                       more: seq<RR>)
    requires Loop(db, key, zone, rrs, out, db') && out.Stop?
    ensures Loop(db, key, zone, rrs + more, out, db')
    decreases |rrs|
  {
    var all := rrs + more;
    assert rrs != [];
    var o, next :| Applies(db, key, zone, rrs[0], o, next)
                   && (if o == Continue then Loop(next, key, zone, rrs[1..], out, db') else db' == next && out == o);
    assert all[0] == rrs[0] && all[1..] == rrs[1..] + more;
    if o == Continue {
      LoopStopped(next, key, zone, rrs[1..], out, db', more);
      LoopCons(db, key, zone, all, next, out, db');
    }
  }

  lemma LoopNext(db: Database, key: Key, zone: Zone, rrs: seq<RR>, i: nat, mid: Database, out: Outcome, db': Database)
    requires i < |rrs| && Loop(db, key, zone, rrs[..i], Continue, mid) && Applies(mid, key, zone, rrs[i], out, db')
    ensures Loop(db, key, zone, if out.Stop? then rrs else rrs[..i + 1], out, db')
  {
    LoopSnoc(db, key, zone, rrs[..i], mid, rrs[i], out, db');
    assert rrs[..i] + [rrs[i]] == rrs[..i + 1];
    if out.Stop? {
      LoopStopped(db, key, zone, rrs[..i + 1], out, db', rrs[i + 1..]);
      assert rrs[..i + 1] + rrs[i + 1..] == rrs;
    }
  }

  // ---------- The server ----------

  const UPDATABLE_MODELS: seq<Model> :=
    [Address, Mx, Ns, Txt, Srv, Caa, Naptr, Ds, Loc, Hinfo, Rp, Cname, Dhcid]

  class Server {
    var db: Database

    constructor (db: Database)
      ensures this.db == db
    {
      this.db := db;
    }

    method FindZone(zones: seq<Zone>, name: Name) returns (zone: Option<Zone>)
      ensures zone == ZoneNamed(zones, name)
    {
      zone := None;
      for i := 0 to |zones|
        invariant zone == ZoneNamed(zones[..i], name)
      {
        assert zones[..i + 1][..i] == zones[..i];
        if Lower(zones[i].root) == name {
          zone := Some(zones[i]);
        }
      }
      assert zones[..|zones|] == zones;
    }

    method FreshId() returns (id: nat)
      ensures forall r :: r in db ==> r.id != id
    {
      id := 0;
      var todo := db;
      while todo != {}
        invariant todo <= db
        invariant forall r :: r in db && r !in todo ==> r.id < id
        decreases |todo|
      {
        var r :| r in todo;
        todo := todo - {r};
        id := if r.id >= id then r.id + 1 else id;
      }
    }

    /** Refresh the row that already holds the RR's data, or save a new row. */
    method AddRr(zone: Zone, rr: RR) returns (out: Outcome)
      requires ModelOf(rr.rtype).Some?
      modifies this
      ensures Adds(old(db), zone, rr, out, db)
    {
      if !rr.converts || rr.data.None? {
        return Stop(ServFail);
      }
      if Conflict(db, zone, rr) {
        return Continue;
      }
      var records := FindRecords(db, zone.id, ModelOf(rr.rtype).value, Rel(zone, rr));
      var todo := records;
      while todo != {}
        invariant db == old(db) && todo <= records
        invariant forall r :: r in records && r !in todo ==> r.rdata != RdataOf(rr)
        decreases |todo|
      {
        var record :| record in todo;
        todo := todo - {record};
        if record.rdata == RdataOf(rr) {
          assert record in Matching(db, zone, rr);
          if !rr.refreshes {
            return Stop(ServFail);
          }
          db := db - {record} + {Refresh(record, zone, rr)};
          assert Refreshed(old(db), zone, rr, db);
          return Continue;
        }
      }
      assert Matching(db, zone, rr) == {};
      if !rr.saves {
        return Stop(ServFail);
      }
      var id := FreshId();
      db := db + {NewRow(id, zone, rr)};
      assert Created(old(db), zone, rr, db);
      out := Continue;
    }

    /** Delete the given rows one by one. */
    method DeleteRows(rows: set<Row>)
      modifies this
      ensures db == old(db) - rows
    {
      var todo := rows;
      while todo != {}
        invariant todo <= rows && db == old(db) - (rows - todo)
        decreases |todo|
      {
        var r :| r in todo;
        todo := todo - {r};
        db := db - {r};
      }
    }

    /** Delete the rows of one model, asking before each whether the key may manage it. */
    method DeleteModel(key: Key, zone: Zone, rr: RR, m: Model) returns (out: Outcome)
      modifies this
      ensures DeletesAsking(old(db), key, Rel(zone, rr), FindRecords(old(db), zone.id, m, Rel(zone, rr)), out, db)
    {
      var rows := FindRecords(db, zone.id, m, Rel(zone, rr));
      var todo := rows;
      while todo != {}
        invariant todo <= rows && db == old(db) - (rows - todo)
        invariant forall g :: g in rows - todo ==> Authorise(key, g.rdata.rtype, Rel(zone, rr)).None?
        decreases |todo|
      {
        var r :| r in todo;
        var auth := Authorise(key, r.rdata.rtype, Rel(zone, rr));
        if auth.Some? {
          ghost var gone := rows - todo;
          assert StoppedAt(old(db), key, Rel(zone, rr), rows, r, gone, auth.value, db);
          return Stop(auth.value);
        }
        todo := todo - {r};
        db := db - {r};
      }
      out := Continue;
    }

    method DeleteAllRrsets(key: Key, zone: Zone, rr: RR) returns (out: Outcome)
      modifies this
      ensures DeletesAll(old(db), key, zone, rr, out, db)
    {
      ghost var all := AllRows(db, zone, rr);
      for i := 0 to |UPDATABLE_MODELS|
        invariant db == old(db) - RowsOf(all, i)
        invariant forall g :: g in RowsOf(all, i) ==> Authorise(key, g.rdata.rtype, Rel(zone, rr)).None?
      {
        var m := UPDATABLE_MODELS[i];
        ghost var rows, gone := FindRecords(old(db), zone.id, m, Rel(zone, rr)), RowsOf(all, i);
        NextRows(old(db), zone, rr, i);
        FindUnaffected(old(db), gone, zone, m, Rel(zone, rr));
        out := DeleteModel(key, zone, rr, m);
        if out.Stop? {
          ghost var r, g :| StoppedAt(old(db) - gone, key, Rel(zone, rr), rows, r, g, out.rcode, db);
          StoppedInAll(old(db), key, Rel(zone, rr), all, gone, rows, r, g, out.rcode, db);
          return;
        }
      }
      AllListed(old(db), zone, rr);
      out := Continue;
    }

    method ApplyRr(key: Key, zone: Zone, rr: RR) returns (out: Outcome)
      modifies this
      ensures Applies(old(db), key, zone, rr, out, db)
    {
      out := Continue;
      var auth := Authorise(key, rr.rtype, Rel(zone, rr));
      if rr.rclass == CLASS_IN {
        if auth.Some? {
          return Stop(auth.value);
        }
        if ModelOf(rr.rtype).Some? {
          out := AddRr(zone, rr);
        }
      } else if rr.rclass == CLASS_ANY {
        if rr.rtype == ANY {
          out := DeleteAllRrsets(key, zone, rr);
        } else {
          if auth.Some? {
            return Stop(auth.value);
          }
          if ModelOf(rr.rtype).Some? {
            DeleteRows(RrsetRows(db, zone, rr));
          }
        }
      } else if rr.rclass == CLASS_NONE {
        if ModelOf(rr.rtype).Some? {
          if auth.Some? {
            return Stop(auth.value);
          }
          DeleteRows(OneRows(db, zone, rr));
        }
      }
    }

    method CheckPrerequisites(zone: Zone, zoneName: Name, rrs: seq<RR>) returns (r: Option<Rcode>)
      ensures PrereqsDecide(db, zone, zoneName, rrs, r)
    {
      r := None;
      for i := 0 to |rrs|
        invariant r.None? && forall j :: 0 <= j < i ==> PrereqFailure(db, zone, zoneName, rrs[j]).None?
      {
        r := PrereqFailure(db, zone, zoneName, rrs[i]);
        if r.Some? {
          return;
        }
      }
    }

    method Prescan(zoneName: Name, rrs: seq<RR>) returns (r: Option<Rcode>)
      ensures PrescanDecides(zoneName, rrs, r)
    {
      r := None;
      for i := 0 to |rrs|
        invariant r.None? && forall j :: 0 <= j < i ==> PrescanFailure(zoneName, rrs[j]).None?
      {
        r := PrescanFailure(zoneName, rrs[i]);
        if r.Some? {
          return;
        }
      }
    }

    /** All checks before the update loop. */
    method Check(env: Environment, req: Request) returns (failure: Option<Rcode>)
      ensures failure.None? <==> Admitted(db, env, req)
      ensures failure.Some? ==> RefusedWith(db, env, req, failure.value)
    {
      failure := AuthFailure(env, req);
      if failure.Some? {
        return;
      }
      var zoneName := ZoneName(req);
      var zone := FindZone(env.zones, zoneName);
      failure := CheckPrerequisites(zone.value, zoneName, req.prerequisites);
      if failure.Some? {
        return;
      }
      if !req.rrsetsMatch {
        return Some(YxRrset);
      }
      failure := Prescan(zoneName, req.updates);
    }

    method UpdateLoop(key: Key, zone: Zone, rrs: seq<RR>) returns (out: Outcome)
      modifies this
      ensures Loop(old(db), key, zone, rrs, out, db)
    {
      for i := 0 to |rrs|
        invariant Loop(old(db), key, zone, rrs[..i], Continue, db)
      {
        ghost var before := db;
        out := ApplyRr(key, zone, rrs[i]);
        LoopNext(old(db), key, zone, rrs, i, before, out, db);
        if out.Stop? {
          return;
        }
      }
      assert rrs[..|rrs|] == rrs;
      out := Continue;
    }

    /**
     A message that a check refuses leaves the whole database unchanged; any
     other message does what the update loop does, and no more.
     */
    method HandleUpdate(env: Environment, req: Request) returns (rcode: Rcode)
      modifies this
      ensures !Admitted(old(db), env, req) ==> db == old(db) && RefusedWith(old(db), env, req, rcode)
      ensures Admitted(old(db), env, req) ==>
                var key, zone := FindKey(env, req).value, ZoneNamed(env.zones, ZoneName(req)).value;
                exists out :: Loop(old(db), key, zone, req.updates, out, db)
                              && rcode == if out == Continue then NoError else out.rcode
      ensures db != old(db) || rcode == NoError ==>
                exists key, zone, out ::
                  Authentic(env, req, key, zone) && Loop(old(db), key, zone, req.updates, out, db)
      ensures (forall key, zone :: !Authentic(env, req, key, zone)) ==>
                db == old(db) && rcode == if WellPosed(req) then NotAuth else Refused
    {
      AuthExactly(env, req);
      AuthCode(env, req);
      var failure := Check(env, req);
      if failure.Some? {
        RefusalIsError(db, env, req, failure.value);
        return failure.value;
      }
      var zone := FindZone(env.zones, ZoneName(req));
      var out := UpdateLoop(FindKey(env, req).value, zone.value, req.updates);
      rcode := if out == Continue then NoError else out.rcode;
    }
  }

  /** Stopping within the rows of one model is stopping within all rows. */
  lemma StoppedInAll(db: Database, key: Key, rel: Name, all: set<Row>, gone: set<Row>, rows: set<Row>,
                     r: Row, g: set<Row>, rcode: Rcode, db': Database)
    requires StoppedAt(db - gone, key, rel, rows, r, g, rcode, db')
    requires rows <= all && gone <= all && rows !! gone
    requires forall x :: x in gone ==> Authorise(key, x.rdata.rtype, rel).None?
    ensures StoppedAt(db, key, rel, all, r, gone + g, rcode, db')
  {
    assert db - gone - g == db - (gone + g);
  }

  /** The rows of the first n models. */
  ghost function RowsOf(all: set<Row>, n: nat): set<Row>
    requires n <= |UPDATABLE_MODELS|
  {
    set r | r in all && r.model in UPDATABLE_MODELS[..n]
  }

  lemma AllListed(db: Database, zone: Zone, rr: RR)
    ensures RowsOf(AllRows(db, zone, rr), |UPDATABLE_MODELS|) == AllRows(db, zone, rr)
  {
    assert UPDATABLE_MODELS[..|UPDATABLE_MODELS|] == UPDATABLE_MODELS;
  }

  lemma NextRows(db: Database, zone: Zone, rr: RR, i: nat)
    requires i < |UPDATABLE_MODELS|
    ensures var all, rows := AllRows(db, zone, rr), FindRecords(db, zone.id, UPDATABLE_MODELS[i], Rel(zone, rr));
            && RowsOf(all, i + 1) == RowsOf(all, i) + rows
            && rows <= all && rows !! RowsOf(all, i)
            && forall r :: r in RowsOf(all, i) ==> r.model != UPDATABLE_MODELS[i]
  {
    var m := UPDATABLE_MODELS[i];
    assert Updatable(m);
    ModelRows(db, zone, rr, m);
    assert UPDATABLE_MODELS[..i + 1] == UPDATABLE_MODELS[..i] + [m];
    assert m !in UPDATABLE_MODELS[..i];
  }

  /** Deleting rows of other models does not change what a query for this model finds. */
  lemma FindUnaffected(db: Database, gone: set<Row>, zone: Zone, m: Model, rel: Name)
    requires forall r :: r in gone ==> r.model != m
    ensures FindRecords(db - gone, zone.id, m, rel) == FindRecords(db, zone.id, m, rel)
  {
    assert At(db - gone, zone.id, m, Join(rel)) == At(db, zone.id, m, Join(rel));
    assert At(db - gone, zone.id, m, Join(Wildcard(rel))) == At(db, zone.id, m, Join(Wildcard(rel)));
  }

  lemma ModelRows(db: Database, zone: Zone, rr: RR, m: Model)
    requires Updatable(m)
    ensures forall r :: r in FindRecords(db, zone.id, m, Rel(zone, rr)) <==> r in AllRows(db, zone, rr) && r.model == m
  {
  }
}
