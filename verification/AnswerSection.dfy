/**
 The answer section of a lookup for a plain record type, by the rows of the zone
 alone: which of them are answered, when a CNAME stands in for them, and when
 the lookup goes on at the CNAME's target.
 */
module AnswerSection {
  import opened Names
  import opened UpdateModel
  import opened ZoneChoice
  import opened Lookup

  // ---------- Rows at a name ----------

  predicate AtName(r: Row, rel: Name) {
    r.name == Join(rel)
  }

  /** The row is at the wildcard beside the name. */
  predicate AtWildcard(r: Row, rel: Name) {
    rel != [] && r.name == Join(["*"] + rel[1..])
  }

  predicate Bears(r: Row, rel: Name) {
    AtName(r, rel) || AtWildcard(r, rel)
  }

  /** The row keeps a CNAME from answering at the node. */
  predicate Occupies(r: Row, n: Node) {
    && r.zone == n.zone
    && match r.model
       case Https => r.service == HttpsName(n.rel).0 && Bears(r, HttpsName(n.rel).1)
       case Cname | Dhcid | GithubPages | Dnskey => false
       case _ => Bears(r, n.rel)
  }

  ghost predicate Occupied(db: Database, n: Node) {
    exists r :: r in db && Occupies(r, n)
  }

  lemma WildcardNamed(r: Row, rel: Name)
    ensures AtName(r, rel) || r.name == Join(Wildcard(rel)) <==> Bears(r, rel)
  {
  }

  /** A name reads as a service's exactly when it starts with a port and a scheme behind underscores. */
  lemma ServiceNameExactly(rel: Name, port: string, scheme: string, name: Name)
    ensures rel == ["_" + port, "_" + scheme] + name && port != "" && AllDigits(port) ==>
              HttpsName(rel) == (Service(scheme, Decimal(port)), if name == [] then ["@"] else name)
    ensures HttpsName(rel) != (DEFAULT_SERVICE, rel) ==>
              exists p, s :: p != "" && AllDigits(p) && |rel| >= 2 && rel[..2] == ["_" + p, "_" + s]
  {
    if rel == ["_" + port, "_" + scheme] + name && port != "" && AllDigits(port) {
      assert rel[0][1..] == port && rel[1][1..] == scheme && rel[2..] == name;
    }
    if HttpsName(rel) != (DEFAULT_SERVICE, rel) {
      var p, s := rel[0][1..], rel[1][1..];
      assert rel[0] == "_" + p && rel[1] == "_" + s;
      assert rel[..2] == ["_" + p, "_" + s];
    }
  }

  lemma OccupiedExactly(db: Database, n: Node)
    ensures AnyRecords(db, n.zone, n.rel, false) <==> Occupied(db, n)
  {
    var (service, name) := HttpsName(n.rel);
    forall r | r in db
      ensures AtName(r, n.rel) || r.name == Join(Wildcard(n.rel)) <==> Bears(r, n.rel)
      ensures AtName(r, name) || r.name == Join(Wildcard(name)) <==> Bears(r, name)
    {
      WildcardNamed(r, n.rel);
      WildcardNamed(r, name);
    }
    if Occupied(db, n) {
      var r :| r in db && Occupies(r, n);
      assert r.model.Https? || Covered(r.model);
    }
    if HttpsAt(db, n.zone, n.rel) {
      var r :| r in db && r.zone == n.zone && r.model == Https && r.service == service && Bears(r, name);
      assert Occupies(r, n);
    }
    if r :| r in db && r.zone == n.zone && Covered(r.model) && Bears(r, n.rel) {
      assert Occupies(r, n);
    }
  }

  /** The rows of a model that a lookup at the node takes: those at the name, or else those at its wildcard. */
  ghost predicate Takes(db: Database, m: Model, n: Node, r: Row) {
    && r in db && r.zone == n.zone && r.model == m
    && (AtName(r, n.rel)
        || (AtWildcard(r, n.rel) && forall s :: s in db && s.zone == n.zone && s.model == m ==> !AtName(s, n.rel)))
  }

  lemma TakesExactly(db: Database, m: Model, n: Node, r: Row)
    ensures r in FindRecords(db, n.zone, m, n.rel) <==> Takes(db, m, n, r)
  {
    var exact := At(db, n.zone, m, Join(n.rel));
    if exact != {} {
      var s :| s in exact;
      assert AtName(s, n.rel);
    } else {
      forall s | s in db && s.zone == n.zone && s.model == m
        ensures !AtName(s, n.rel)
      {
        assert s !in exact;
      }
    }
  }

  // ---------- The answer section ----------

  /** The CNAME's target lies closest to another zone, under another relative name. */
  predicate Onward(rs: Resolver, n: Node, target: Name, next: Node) {
    exists h :: h in rs.zones && Matches(h, target) && Choose(rs.zones, target) == Chosen(h.zone, next.rel)
                && h.zone.id == next.zone && next.zone != n.zone && next.rel != n.rel
  }

  lemma OnwardExactly(rs: Resolver, n: Node, c: Row, next: Node)
    ensures Hop(rs, n, c) == Some(next) <==> Onward(rs, n, rs.parse(c.rdata.data), next)
  {
    ChosenMatches(rs.zones, rs.parse(c.rdata.data));
  }

  lemma {:induction false} ChosenMatches(zones: seq<Hosted>, q: Name)
    ensures Choose(zones, q).Chosen? ==> exists h :: h in zones && Matches(h, q) && h.zone == Choose(zones, q).zone
  {
    if zones != [] && !Matches(zones[0], q) {
      ChosenMatches(zones[1..], q);
    }
  }

  /** The answers are the taken rows of the model, each once, under the owner. */
  ghost predicate Records(db: Database, m: Model, n: Node, owner: Name, answers: seq<AnswerRr>) {
    exists order: seq<Row> ::
      && |order| == |answers|
      && (forall i, j :: 0 <= i < j < |order| ==> order[i] != order[j])
      && (forall r :: r in order <==> Takes(db, m, n, r))
      && forall i :: 0 <= i < |order| ==>
           answers[i].owner == owner && answers[i].rdata == order[i].rdata && answers[i].ttl == order[i].ttl
  }

  /** The section is the CNAME row's record and what the lookup of its target answers, if it goes on there. */
  ghost predicate ByAlias(db: Database, rs: Resolver, m: Model, n: Node, owner: Name, depth: nat, c: Row,
                          answers: seq<AnswerRr>)
    requires depth > 0
  {
    var target := rs.parse(c.rdata.data);
    && answers != [] && answers[0].owner == owner && answers[0].rdata == c.rdata && answers[0].ttl == c.ttl
    && (forall next :: Onward(rs, n, target, next) ==> Looks(db, rs, m, next, target, depth - 1, Some(answers[1..])))
    && ((forall next :: !Onward(rs, n, target, next)) ==> |answers| == 1)
  }

  lemma {:induction false} OrdersDistinct(order: seq<Row>, rows: set<Row>)
    requires Orders(order, rows)
    ensures forall i, j :: 0 <= i < j < |order| ==> order[i] != order[j]
    decreases |order|
  {
    if order != [] {
      var r, rest := order[0], order[1..];
      assert order == [r] + rest;
      if r in rest {
        Distinct(rest);
        assert rows == set x | x in rest;
      } else {
        assert forall x :: x in rest <==> x in rows - {r};
        OrdersDistinct(rest, rows - {r});
        assert forall i, j :: 0 < i < j < |order| ==> order[i] == rest[i - 1] && order[j] == rest[j - 1];
      }
    }
  }

  lemma {:induction false} Distinct(order: seq<Row>)
    ensures |set x | x in order| <= |order|
  {
    if order != [] {
      Distinct(order[1..]);
      assert (set x | x in order) == {order[0]} + set x | x in order[1..];
    }
  }

  /**
   An answered lookup gives the model's rows at the name or its wildcard; without
   any, a CNAME's record answers exactly when one is there and no row occupies
   the name, and otherwise the section is empty.
   */
  lemma SectionExactly(db: Database, rs: Resolver, m: Model, n: Node, owner: Name, depth: nat, answers: seq<AnswerRr>)
    requires Looks(db, rs, m, n, owner, depth, Some(answers))
    ensures depth > 0
    ensures (exists r :: Takes(db, m, n, r)) ==> Records(db, m, n, owner, answers)
    ensures (forall r :: !Takes(db, m, n, r)) && !Occupied(db, n) && (exists c :: Takes(db, Cname, n, c)) ==>
              exists c :: Takes(db, Cname, n, c) && ByAlias(db, rs, m, n, owner, depth, c, answers)
    ensures (forall r :: !Takes(db, m, n, r)) && (Occupied(db, n) || forall c :: !Takes(db, Cname, n, c)) ==>
              answers == []
  {
    var rows := FindRecords(db, n.zone, m, n.rel);
    forall r
      ensures r in rows <==> Takes(db, m, n, r)
      ensures r in FindRecords(db, n.zone, Cname, n.rel) <==> Takes(db, Cname, n, r)
    {
      TakesExactly(db, m, n, r);
      TakesExactly(db, Cname, n, r);
    }
    OccupiedExactly(db, n);
    if rows != {} {
      var order :| Orders(order, rows) && ListsAs(answers, order, owner);
      OrdersDistinct(order, rows);
      assert Records(db, m, n, owner, answers);
    } else if Cnames(db, n) != {} {
      var c :| c in Cnames(db, n) && Follows(db, rs, m, n, owner, depth, Some(answers), c);
      AliasStep(db, rs, m, n, owner, depth, c, answers);
    }
  }

  lemma AliasStep(db: Database, rs: Resolver, m: Model, n: Node, owner: Name, depth: nat, c: Row,
                  answers: seq<AnswerRr>)
    requires depth > 0 && Follows(db, rs, m, n, owner, depth, Some(answers), c)
    ensures ByAlias(db, rs, m, n, owner, depth, c, answers)
  {
    forall next
      ensures Hop(rs, n, c) == Some(next) <==> Onward(rs, n, rs.parse(c.rdata.data), next)
    {
      OnwardExactly(rs, n, c, next);
    }
  }

  lemma RecordsAreNoCname(db: Database, m: Model, n: Node, owner: Name, answers: seq<AnswerRr>)
    requires WellFormed(db) && IsPlain(m) && Records(db, m, n, owner, answers) && answers != []
    ensures answers[0].rdata.rtype != CNAME
  {
    var order: seq<Row> :|
      && |order| == |answers|
      && (forall r :: r in order <==> Takes(db, m, n, r))
      && forall i :: 0 <= i < |order| ==> answers[i].rdata == order[i].rdata;
    var r := order[0];
    assert r in order && answers[0].rdata == r.rdata;
    PlainType(m, r.rdata.rtype);
  }

  /**
   An answer section begins with a CNAME only where no row occupies the name and
   the model has none there; an occupied name without rows of the model is
   answered with nothing.
   */
  lemma CnameOnlyUnoccupied(db: Database, rs: Resolver, m: Model, n: Node, owner: Name, depth: nat,
                            answers: seq<AnswerRr>)
    requires WellFormed(db) && IsPlain(m) && Looks(db, rs, m, n, owner, depth, Some(answers))
    ensures answers != [] && answers[0].rdata.rtype == CNAME ==>
              forall r :: r in db ==> !Occupies(r, n) && !(r.zone == n.zone && r.model == m && Bears(r, n.rel))
    ensures (forall r :: r in db && r.zone == n.zone && r.model == m ==> !Bears(r, n.rel)) && Occupied(db, n) ==>
              answers == []
  {
    SectionExactly(db, rs, m, n, owner, depth, answers);
    if r :| Takes(db, m, n, r) {
      if answers != [] {
        RecordsAreNoCname(db, m, n, owner, answers);
      }
    } else {
      forall r | r in db && r.zone == n.zone && r.model == m
        ensures !Bears(r, n.rel)
      {
        NoneTaken(db, m, n, r);
      }
    }
  }

  lemma NoneTaken(db: Database, m: Model, n: Node, r: Row)
    requires forall s :: !Takes(db, m, n, s)
    requires r in db && r.zone == n.zone && r.model == m
    ensures !Bears(r, n.rel)
  {
    forall s | s in db && s.zone == n.zone && s.model == m
      ensures !AtName(s, n.rel)
    {
      assert !Takes(db, m, n, s);
    }
    assert !Takes(db, m, n, r);
  }
}
