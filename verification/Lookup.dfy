/**
 Answering a query for a plain record type: the records at the name, or else the
 CNAME there and, when it points into another hosted zone, the answer for its
 target.  The recursion is the source's; `depth` is how many nested calls the
 interpreter allows before it raises, which turns the response into a failure.
 */
module Lookup {
  import opened Names
  import opened UpdateModel
  import opened ZoneChoice

  datatype AnswerRr = AnswerRr(owner: Name, rdata: Rdata, ttl: nat)

  /** The models whose lookup is records-or-CNAME and nothing else. */
  predicate IsPlain(m: Model) {
    match m
    case Mx | Txt | Srv | Naptr | Loc | Hinfo | Rp | Dhcid => true
    case _ => false
  }

  /** What lookups consult besides the records: the hosted zones, and how a name is read from text. */
  datatype Resolver = Resolver(zones: seq<Hosted>, parse: string -> Name)

  function Target(rs: Resolver, rdata: Rdata): Name {
    rs.parse(rdata.data)
  }

  function ToAnswer(r: Row, owner: Name): AnswerRr {
    AnswerRr(owner, r.rdata, r.ttl)
  }

  // ---------- Hops ----------

  /** A node of the walk: a zone and a name relative to it. */
  datatype Node = Node(zone: nat, rel: Name)

  /** Where following CNAME row c from a node leads: only to another zone and another relative name. */
  function Hop(rs: Resolver, n: Node, c: Row): Option<Node> {
    match Choose(rs.zones, Target(rs, c.rdata))
    case NoZone => None
    case Chosen(z, rel) => if z.id != n.zone && rel != n.rel then Some(Node(z.id, rel)) else None
  }

  /** The CNAME rows that a lookup at n may follow. */
  function Cnames(db: Database, n: Node): set<Row> {
    if AnyRecords(db, n.zone, n.rel, false) then {} else FindRecords(db, n.zone, Cname, n.rel)
  }

  // ---------- The lookup ----------

  /** The rows in some order, each once. */
  ghost predicate Orders(order: seq<Row>, rows: set<Row>) {
    |order| == |rows| && forall r :: r in order <==> r in rows
  }

  ghost predicate ListsAs(answers: seq<AnswerRr>, order: seq<Row>, owner: Name) {
    |answers| == |order| && forall i :: 0 <= i < |order| ==> answers[i] == ToAnswer(order[i], owner)
  }

  /** The answers are the rows, in some order, each under the given owner. */
  ghost predicate Lists(answers: seq<AnswerRr>, rows: set<Row>, owner: Name) {
    exists order :: Orders(order, rows) && ListsAs(answers, order, owner)
  }

  /** What a lookup at node n under the given owner name may append to the answer section; None when it raises. */
  ghost predicate Looks(db: Database, rs: Resolver, m: Model, n: Node, owner: Name, depth: nat,
                        out: Option<seq<AnswerRr>>)
    decreases depth
  {
    if depth == 0 then out == None
    else if FindRecords(db, n.zone, m, n.rel) != {} then
      out.Some? && Lists(out.value, FindRecords(db, n.zone, m, n.rel), owner)
    else if Cnames(db, n) == {} then out == Some([])
    else
      exists c :: c in Cnames(db, n) && Follows(db, rs, m, n, owner, depth, out, c)
  }

  ghost predicate Follows(db: Database, rs: Resolver, m: Model, n: Node, owner: Name, depth: nat,
                          out: Option<seq<AnswerRr>>, c: Row)
    requires depth > 0
    decreases depth, 0
  {
    match Hop(rs, n, c)
    case None => out == Some([ToAnswer(c, owner)])
    case Some(next) =>
      if out.None? then Looks(db, rs, m, next, Target(rs, c.rdata), depth - 1, None)
      else
        && |out.value| > 0 && out.value[0] == ToAnswer(c, owner)
        && Looks(db, rs, m, next, Target(rs, c.rdata), depth - 1, Some(out.value[1..]))
  }

  /** Find the zone of the CNAME's target, and decide whether to go on there. */
  method NextNode(rs: Resolver, n: Node, c: Row) returns (next: Option<Node>)
    requires ByLength(rs.zones)
    ensures next == Hop(rs, n, c)
    ensures next.Some? ==> next.value.zone != n.zone && next.value.rel != n.rel
  {
    var choice := FindZone(rs.zones, Target(rs, c.rdata));
    if choice.Chosen? && choice.zone.id != n.zone && choice.rel != n.rel {
      return Some(Node(choice.zone.id, choice.rel));
    }
    next := None;
  }

  class Response {
    var answers: seq<AnswerRr>

    constructor ()
      ensures answers == []
    {
      answers := [];
    }

    method AddRows(rows: set<Row>, owner: Name) returns (ghost added: seq<AnswerRr>)
      modifies this
      ensures answers == old(answers) + added && Lists(added, rows, owner)
    {
      var todo := rows;
      ghost var order: seq<Row> := [];
      added := [];
      while todo != {}
        invariant todo <= rows && Orders(order, rows - todo)
        invariant answers == old(answers) + added && ListsAs(added, order, owner)
        decreases |todo|
      {
        var r :| r in todo;
        OrdersSnoc(order, rows, todo, r);
        todo := todo - {r};
        answers := answers + [ToAnswer(r, owner)];
        order, added := order + [r], added + [ToAnswer(r, owner)];
      }
      assert rows - {} == rows;
    }

    /** `lookup_cname`, for a CNAME row that was found. */
    method FollowCname(db: Database, rs: Resolver, m: Model, n: Node, owner: Name, depth: nat, c: Row)
      returns (ok: bool, ghost out: Option<seq<AnswerRr>>)
      requires ByLength(rs.zones) && depth > 0
      modifies this
      ensures Follows(db, rs, m, n, owner, depth, out, c)
      ensures ok == out.Some? && (ok ==> answers == old(answers) + out.value)
      decreases depth, 0
    {
      answers := answers + [ToAnswer(c, owner)];
      ok, out := true, Some([ToAnswer(c, owner)]);
      var next := NextNode(rs, n, c);
      if next.Some? {
        ghost var tail;
        ok, tail := Lookup(db, rs, m, next.value, Target(rs, c.rdata), depth - 1);
        out := Prepended(c, owner, tail);
        FollowsHop(db, rs, m, n, owner, depth, c, tail);
        if ok {
          assert old(answers) + [ToAnswer(c, owner)] + tail.value == old(answers) + ([ToAnswer(c, owner)] + tail.value);
        }
      }
    }

    /** `lookup_mx`, `lookup_txt`, `lookup_srv` and their like. */
    method Lookup(db: Database, rs: Resolver, m: Model, n: Node, owner: Name, depth: nat)
      returns (ok: bool, ghost out: Option<seq<AnswerRr>>)
      requires ByLength(rs.zones)
      modifies this
      ensures Looks(db, rs, m, n, owner, depth, out)
      ensures ok == out.Some? && (ok ==> answers == old(answers) + out.value)
      decreases depth
    {
      if depth == 0 {
        return false, None;
      }
      var records := FindRecords(db, n.zone, m, n.rel);
      if records != {} {
        ghost var added := AddRows(records, owner);
        return true, Some(added);
      }
      var cnames := Cnames(db, n);
      if cnames == {} {
        return true, Some([]);
      }
      var c :| c in cnames;
      ok, out := FollowCname(db, rs, m, n, owner, depth, c);
    }
  }

  ghost function Prepended(c: Row, owner: Name, tail: Option<seq<AnswerRr>>): Option<seq<AnswerRr>> {
    if tail.None? then None else Some([ToAnswer(c, owner)] + tail.value)
  }

  lemma FollowsHop(db: Database, rs: Resolver, m: Model, n: Node, owner: Name, depth: nat, c: Row,
                   tail: Option<seq<AnswerRr>>)
    requires depth > 0 && Hop(rs, n, c).Some?
    requires Looks(db, rs, m, Hop(rs, n, c).value, Target(rs, c.rdata), depth - 1, tail)
    ensures Follows(db, rs, m, n, owner, depth, Prepended(c, owner, tail), c)
  {
    if tail.Some? {
      assert ([ToAnswer(c, owner)] + tail.value)[1..] == tail.value;
    }
  }

  lemma OrdersSnoc(order: seq<Row>, rows: set<Row>, todo: set<Row>, r: Row)
    requires todo <= rows && r in todo && Orders(order, rows - todo)
    ensures Orders(order + [r], rows - (todo - {r}))
  {
    assert rows - (todo - {r}) == (rows - todo) + {r};
  }

  // ---------- The answer section is a chain ----------

  /** CNAMEs, each owned by the target of the one before, and then records of model m owned by the last target. */
  ghost predicate Chain(rs: Resolver, m: Model, answers: seq<AnswerRr>, owner: Name)
    decreases |answers|
  {
    if answers == [] then true
    else if answers[0].rdata.rtype == CNAME then
      answers[0].owner == owner && Chain(rs, m, answers[1..], Target(rs, answers[0].rdata))
    else forall i :: 0 <= i < |answers| ==> answers[i].owner == owner && ModelOf(answers[i].rdata.rtype) == Some(m)
  }

  lemma CnameRowsAreCnames(db: Database, n: Node, c: Row)
    requires WellFormed(db) && c in Cnames(db, n)
    ensures c.rdata.rtype == CNAME
  {
    assert c in db && c.model == Cname;
  }

  lemma RowsAreChain(rs: Resolver, db: Database, n: Node, m: Model, owner: Name, answers: seq<AnswerRr>)
    requires WellFormed(db) && IsPlain(m) && Lists(answers, FindRecords(db, n.zone, m, n.rel), owner)
    ensures Chain(rs, m, answers, owner)
  {
    var rows := FindRecords(db, n.zone, m, n.rel);
    var order :| Orders(order, rows) && ListsAs(answers, order, owner);
    forall i | 0 <= i < |answers|
      ensures answers[i].owner == owner && ModelOf(answers[i].rdata.rtype) == Some(m)
    {
      assert order[i] in rows && answers[i] == ToAnswer(order[i], owner);
    }
    if answers != [] {
      PlainType(m, answers[0].rdata.rtype);
    }
  }

  lemma PlainType(m: Model, rtype: nat)
    requires IsPlain(m) && ModelOf(rtype) == Some(m)
    ensures rtype != CNAME
  {
  }

  lemma ConsIsChain(rs: Resolver, m: Model, answers: seq<AnswerRr>, owner: Name)
    requires answers != [] && answers[0].rdata.rtype == CNAME && answers[0].owner == owner
    requires Chain(rs, m, answers[1..], Target(rs, answers[0].rdata))
    ensures Chain(rs, m, answers, owner)
  {
  }

  /** The answer section of a lookup is a chain from the query name. */
  lemma {:induction false} AnswerIsChain(db: Database, rs: Resolver, m: Model, n: Node, owner: Name, depth: nat,
                                         answers: seq<AnswerRr>)
    requires WellFormed(db) && IsPlain(m) && Looks(db, rs, m, n, owner, depth, Some(answers))
    ensures Chain(rs, m, answers, owner)
    decreases depth
  {
    if FindRecords(db, n.zone, m, n.rel) != {} {
      RowsAreChain(rs, db, n, m, owner, answers);
    } else if Cnames(db, n) != {} {
      var c :| c in Cnames(db, n) && Follows(db, rs, m, n, owner, depth, Some(answers), c);
      CnameRowsAreCnames(db, n, c);
      if Hop(rs, n, c).Some? {
        AnswerIsChain(db, rs, m, Hop(rs, n, c).value, Target(rs, c.rdata), depth - 1, answers[1..]);
      } else {
        assert answers[1..] == [];
      }
      ConsIsChain(rs, m, answers, owner);
    }
  }

  // ---------- When the recursion ends ----------

  /** A lookup at n finds no records and may follow a CNAME to the next node. */
  ghost predicate Leads(db: Database, rs: Resolver, m: Model, n: Node, next: Node) {
    && FindRecords(db, n.zone, m, n.rel) == {}
    && exists c :: c in Cnames(db, n) && Hop(rs, n, c) == Some(next)
  }

  ghost predicate Walk(db: Database, rs: Resolver, m: Model, path: seq<Node>) {
    path != [] && forall i :: 0 <= i < |path| - 1 ==> Leads(db, rs, m, path[i], path[i + 1])
  }

  lemma WalkCons(db: Database, rs: Resolver, m: Model, n: Node, path: seq<Node>)
    requires Walk(db, rs, m, path) && Leads(db, rs, m, n, path[0])
    ensures Walk(db, rs, m, [n] + path)
  {
    var all := [n] + path;
    forall i | 0 <= i < |all| - 1
      ensures Leads(db, rs, m, all[i], all[i + 1])
    {
      if i > 0 {
        assert Leads(db, rs, m, path[i - 1], path[i]);
      }
    }
  }

  lemma WalkTail(db: Database, rs: Resolver, m: Model, path: seq<Node>)
    requires Walk(db, rs, m, path) && |path| > 1
    ensures Walk(db, rs, m, path[1..]) && Leads(db, rs, m, path[0], path[1])
  {
    forall i | 0 <= i < |path[1..]| - 1
      ensures Leads(db, rs, m, path[1..][i], path[1..][i + 1])
    {
      assert Leads(db, rs, m, path[i + 1], path[i + 2]);
    }
  }

  ghost predicate MayRaise(db: Database, rs: Resolver, m: Model, n: Node, owner: Name, depth: nat) {
    Looks(db, rs, m, n, owner, depth, None)
  }

  ghost predicate MayAnswer(db: Database, rs: Resolver, m: Model, n: Node, owner: Name, depth: nat) {
    exists answers :: Looks(db, rs, m, n, owner, depth, Some(answers))
  }

  /** A lookup raises along a walk as long as its depth. */
  lemma {:induction false} RaiseWalks(db: Database, rs: Resolver, m: Model, n: Node, owner: Name, depth: nat)
    returns (path: seq<Node>)
    requires MayRaise(db, rs, m, n, owner, depth)
    ensures Walk(db, rs, m, path) && path[0] == n && |path| == depth + 1
    decreases depth
  {
    path := [n];
    if depth > 0 {
      var c :| c in Cnames(db, n) && Follows(db, rs, m, n, owner, depth, None, c);
      var next := Hop(rs, n, c).value;
      var rest := RaiseWalks(db, rs, m, next, Target(rs, c.rdata), depth - 1);
      WalkCons(db, rs, m, n, rest);
      path := [n] + rest;
    }
  }

  // ---------- Cycles ----------

  /** A walk from n that comes back to a node it has been at. */
  ghost predicate Repeats(path: seq<Node>, i: nat, j: nat) {
    i < j < |path| && path[i] == path[j]
  }

  ghost predicate CycleReachable(db: Database, rs: Resolver, m: Model, n: Node) {
    exists path, i, j :: Walk(db, rs, m, path) && path[0] == n && Repeats(path, i, j)
  }

  /** From any node before the end of a cycle, some lookup raises at every depth. */
  lemma {:induction false} CycleRaises(db: Database, rs: Resolver, m: Model, path: seq<Node>, i: nat, j: nat, k: nat,
                                       owner: Name, depth: nat)
    requires Walk(db, rs, m, path) && Repeats(path, i, j) && k < j
    ensures MayRaise(db, rs, m, path[k], owner, depth)
    decreases depth
  {
    if depth > 0 {
      var n := path[k];
      assert Leads(db, rs, m, n, path[k + 1]);
      var c :| c in Cnames(db, n) && Hop(rs, n, c) == Some(path[k + 1]);
      CycleRaises(db, rs, m, path, i, j, if k + 1 == j then i else k + 1, Target(rs, c.rdata), depth - 1);
      RaiseStep(db, rs, m, n, owner, depth, c);
    }
  }

  /** Following a CNAME to a node at which the lookup raises raises. */
  lemma RaiseStep(db: Database, rs: Resolver, m: Model, n: Node, owner: Name, depth: nat, c: Row)
    requires depth > 0 && FindRecords(db, n.zone, m, n.rel) == {} && c in Cnames(db, n) && Hop(rs, n, c).Some?
    requires MayRaise(db, rs, m, Hop(rs, n, c).value, Target(rs, c.rdata), depth - 1)
    ensures MayRaise(db, rs, m, n, owner, depth)
  {
    assert Follows(db, rs, m, n, owner, depth, None, c);
  }

  /** The node that following a CNAME row leads to, if any. */
  function Landing(rs: Resolver, c: Row): Option<Node> {
    match Choose(rs.zones, Target(rs, c.rdata))
    case NoZone => None
    case Chosen(z, rel) => Some(Node(z.id, rel))
  }

  function CnameRows(db: Database): set<Row> {
    set r | r in db && r.model == Cname
  }

  ghost function Landings(rs: Resolver, rows: set<Row>): set<Option<Node>> {
    set c | c in rows :: Landing(rs, c)
  }

  lemma {:induction false} LandingsFewer(rs: Resolver, rows: set<Row>)
    ensures |Landings(rs, rows)| <= |rows|
    decreases |rows|
  {
    if rows != {} {
      var c :| c in rows;
      LandingsFewer(rs, rows - {c});
      assert Landings(rs, rows) == Landings(rs, rows - {c}) + {Landing(rs, c)};
    }
  }

  lemma {:induction false} Pigeonhole(path: seq<Node>, nodes: set<Option<Node>>) returns (i: nat, j: nat)
    requires |nodes| < |path| && forall k :: 0 <= k < |path| ==> Some(path[k]) in nodes
    ensures Repeats(path, i, j)
    decreases |path|
  {
    if path[0] in path[1..] {
      j :| 0 <= j < |path[1..]| && path[1..][j] == path[0];
      i, j := 0, j + 1;
    } else {
      i, j := Pigeonhole(path[1..], nodes - {Some(path[0])});
      i, j := i + 1, j + 1;
    }
  }

  /** A walk longer than the number of CNAME rows comes back to a node. */
  lemma LongWalkRepeats(db: Database, rs: Resolver, m: Model, path: seq<Node>) returns (i: nat, j: nat)
    requires Walk(db, rs, m, path) && |path| > |CnameRows(db)| + 1
    ensures Repeats(path, i, j)
  {
    var nodes := Landings(rs, CnameRows(db));
    forall k | 0 <= k < |path[1..]|
      ensures Some(path[1..][k]) in nodes
    {
      assert Leads(db, rs, m, path[k], path[k + 1]);
      var c :| c in Cnames(db, path[k]) && Hop(rs, path[k], c) == Some(path[k + 1]);
      assert c in CnameRows(db) && Landing(rs, c) == Some(path[k + 1]);
    }
    LandingsFewer(rs, CnameRows(db));
    i, j := Pigeonhole(path[1..], nodes);
    i, j := i + 1, j + 1;
  }

  /** No lookup raises at this depth. */
  ghost predicate Ends(db: Database, rs: Resolver, m: Model, n: Node, owner: Name, depth: nat) {
    !MayRaise(db, rs, m, n, owner, depth)
  }

  /**
   The recursion ends at some depth, whichever CNAMEs it follows, if and only if
   no cycle of cross-zone CNAMEs is reachable from its start; and then it is
   never deeper than the number of CNAME rows.
   */
  lemma EndsExactly(db: Database, rs: Resolver, m: Model, n: Node, owner: Name)
    ensures (exists depth :: Ends(db, rs, m, n, owner, depth)) <==> !CycleReachable(db, rs, m, n)
    ensures !CycleReachable(db, rs, m, n) ==>
              forall depth: nat :: depth > |CnameRows(db)| ==> Ends(db, rs, m, n, owner, depth)
  {
    if CycleReachable(db, rs, m, n) {
      var path, i, j :| Walk(db, rs, m, path) && path[0] == n && Repeats(path, i, j);
      forall depth: nat
        ensures !Ends(db, rs, m, n, owner, depth)
      {
        CycleRaises(db, rs, m, path, i, j, 0, owner, depth);
      }
    } else {
      forall depth: nat | depth > |CnameRows(db)|
        ensures Ends(db, rs, m, n, owner, depth)
      {
        if MayRaise(db, rs, m, n, owner, depth) {
          var path := RaiseWalks(db, rs, m, n, owner, depth);
          var i, j := LongWalkRepeats(db, rs, m, path);
        }
      }
      assert Ends(db, rs, m, n, owner, |CnameRows(db)| + 1);
    }
  }

  // ---------- When no lookup answers ----------

  /** A node at which a lookup may stop with an answer section. */
  ghost predicate Resting(db: Database, rs: Resolver, m: Model, n: Node) {
    || FindRecords(db, n.zone, m, n.rel) != {}
    || Cnames(db, n) == {}
    || exists c :: c in Cnames(db, n) && Hop(rs, n, c).None?
  }

  ghost predicate RestReachable(db: Database, rs: Resolver, m: Model, n: Node) {
    exists path :: Walk(db, rs, m, path) && path[0] == n && Resting(db, rs, m, path[|path| - 1])
  }

  lemma {:induction false} SomeOrder(rows: set<Row>) returns (order: seq<Row>)
    ensures Orders(order, rows)
    decreases |rows|
  {
    order := [];
    if rows != {} {
      var r :| r in rows;
      var rest := SomeOrder(rows - {r});
      assert rows == rows - {r} + {r};
      order := rest + [r];
    }
  }

  lemma RestAnswers(db: Database, rs: Resolver, m: Model, n: Node, owner: Name, depth: nat)
    requires Resting(db, rs, m, n) && depth > 0
    ensures MayAnswer(db, rs, m, n, owner, depth)
  {
    var rows := FindRecords(db, n.zone, m, n.rel);
    if rows != {} {
      var order := SomeOrder(rows);
      var answers := seq(|order|, i requires 0 <= i < |order| => ToAnswer(order[i], owner));
      assert ListsAs(answers, order, owner);
      assert Looks(db, rs, m, n, owner, depth, Some(answers));
    } else if Cnames(db, n) == {} {
      assert Looks(db, rs, m, n, owner, depth, Some([]));
    } else {
      var c :| c in Cnames(db, n) && Hop(rs, n, c).None?;
      assert Follows(db, rs, m, n, owner, depth, Some([ToAnswer(c, owner)]), c);
      assert Looks(db, rs, m, n, owner, depth, Some([ToAnswer(c, owner)]));
    }
  }

  /** Along a walk to a resting node some lookup answers. */
  lemma {:induction false} WalkAnswers(db: Database, rs: Resolver, m: Model, path: seq<Node>, owner: Name)
    requires Walk(db, rs, m, path) && Resting(db, rs, m, path[|path| - 1])
    ensures MayAnswer(db, rs, m, path[0], owner, |path|)
    decreases |path|
  {
    if |path| == 1 {
      RestAnswers(db, rs, m, path[0], owner, 1);
    } else {
      var n := path[0];
      WalkTail(db, rs, m, path);
      var c :| c in Cnames(db, n) && Hop(rs, n, c) == Some(path[1]);
      WalkAnswers(db, rs, m, path[1..], Target(rs, c.rdata));
      var tail :| Looks(db, rs, m, path[1], Target(rs, c.rdata), |path| - 1, Some(tail));
      FollowsHop(db, rs, m, n, owner, |path|, c, Some(tail));
      assert Looks(db, rs, m, n, owner, |path|, Some([ToAnswer(c, owner)] + tail));
    }
  }

  lemma {:induction false} AnswerWalks(db: Database, rs: Resolver, m: Model, n: Node, owner: Name, depth: nat,
                                       answers: seq<AnswerRr>) returns (path: seq<Node>)
    requires Looks(db, rs, m, n, owner, depth, Some(answers))
    ensures Walk(db, rs, m, path) && path[0] == n && Resting(db, rs, m, path[|path| - 1])
    decreases depth
  {
    path := [n];
    if !Resting(db, rs, m, n) {
      var c :| c in Cnames(db, n) && Follows(db, rs, m, n, owner, depth, Some(answers), c);
      var next := Hop(rs, n, c).value;
      var rest := AnswerWalks(db, rs, m, next, Target(rs, c.rdata), depth - 1, answers[1..]);
      WalkCons(db, rs, m, n, rest);
      path := [n] + rest;
    }
  }

  /** Some lookup answers at some depth, if and only if a walk leads to a node at which it may stop. */
  lemma AnswersExactly(db: Database, rs: Resolver, m: Model, n: Node, owner: Name)
    ensures (exists depth :: MayAnswer(db, rs, m, n, owner, depth)) <==> RestReachable(db, rs, m, n)
  {
    if RestReachable(db, rs, m, n) {
      var path :| Walk(db, rs, m, path) && path[0] == n && Resting(db, rs, m, path[|path| - 1]);
      WalkAnswers(db, rs, m, path, owner);
    }
    if depth :| MayAnswer(db, rs, m, n, owner, depth) {
      var answers :| Looks(db, rs, m, n, owner, depth, Some(answers));
      var path := AnswerWalks(db, rs, m, n, owner, depth, answers);
    }
  }

  // ---------- A cycle between two zones ----------

  const LEFT := Zone(1, ["l"])
  const RIGHT := Zone(2, ["r"])
  const TO_LEFT: string := "x" + "." + "l"
  const TO_RIGHT: string := "y" + "." + "r"

  /** The zones l and r, and texts read by splitting them at dots. */
  function TwoZones(): Resolver {
    Resolver([Hosted(RIGHT, true), Hosted(LEFT, true)], text => Split(text))
  }

  function Alias(id: nat, zone: Zone, name: string, target: string): Row {
    Row(id, zone.id, Cname, name, 300, Rdata(CNAME, target), DEFAULT_SERVICE)
  }

  /** x.l is an alias of y.r, and y.r of x.l. */
  function TwoAliases(): Database {
    {Alias(1, LEFT, "x", TO_RIGHT), Alias(2, RIGHT, "y", TO_LEFT)}
  }

  lemma OneAlias(n: Node, c: Row)
    requires || (n == Node(1, ["x"]) && c == Alias(1, LEFT, "x", TO_RIGHT))
             || (n == Node(2, ["y"]) && c == Alias(2, RIGHT, "y", TO_LEFT))
    ensures c in Cnames(TwoAliases(), n) && FindRecords(TwoAliases(), n.zone, Mx, n.rel) == {}
  {
    var db := TwoAliases();
    assert Join(n.rel) == c.name && Join(Wildcard(n.rel)) == "*";
    assert c in At(db, n.zone, Cname, c.name);
    assert HttpsName(n.rel) == (DEFAULT_SERVICE, n.rel);
    assert !AnyRecords(db, n.zone, n.rel, false);
  }

  lemma TwoLabels(l: Label, m: Label)
    requires '.' !in l && '.' !in m
    ensures Split(l + "." + m) == [l, m]
  {
    SplitLabel(l, m);
    SplitOne(m);
  }

  lemma TargetsRead()
    ensures Split(TO_RIGHT) == ["y", "r"] && Split(TO_LEFT) == ["x", "l"]
  {
    TwoLabels("y", "r");
    TwoLabels("x", "l");
  }

  lemma Under(l: Label, zone: Zone)
    requires zone.root != [] && l != "@"
    ensures IsSuffix(zone.root, [l] + zone.root) && RelativeTo([l] + zone.root, zone.root) == [l]
  {
    var q := [l] + zone.root;
    assert q[1..] == zone.root && q[..1] == [l];
  }

  lemma ChooseRight()
    ensures Choose(TwoZones().zones, ["y", "r"]) == Chosen(RIGHT, ["y"])
  {
    Under("y", RIGHT);
    assert ["y"] + RIGHT.root == ["y", "r"];
  }

  lemma ChooseLeft()
    ensures Choose(TwoZones().zones, ["x", "l"]) == Chosen(LEFT, ["x"])
  {
    Under("x", LEFT);
    assert ["x"] + LEFT.root == ["x", "l"];
    assert "l"[0] != "r"[0];
    assert ["x", "l"][1..] == ["l"];
    assert TwoZones().zones[1..] == [Hosted(LEFT, true)];
  }

  lemma Hops()
    ensures Hop(TwoZones(), Node(1, ["x"]), Alias(1, LEFT, "x", TO_RIGHT)) == Some(Node(2, ["y"]))
    ensures Hop(TwoZones(), Node(2, ["y"]), Alias(2, RIGHT, "y", TO_LEFT)) == Some(Node(1, ["x"]))
  {
    TargetsRead();
    ChooseRight();
    ChooseLeft();
    assert "x"[0] != "y"[0];
    assert ["x"][0] != ["y"][0];
  }

  lemma AliasesWalk()
    ensures Walk(TwoAliases(), TwoZones(), Mx, [Node(1, ["x"]), Node(2, ["y"]), Node(1, ["x"])])
  {
    var x, y := Node(1, ["x"]), Node(2, ["y"]);
    OneAlias(x, Alias(1, LEFT, "x", TO_RIGHT));
    OneAlias(y, Alias(2, RIGHT, "y", TO_LEFT));
    Hops();
    assert Leads(TwoAliases(), TwoZones(), Mx, x, y) && Leads(TwoAliases(), TwoZones(), Mx, y, x);
  }

  /** The cycle is real: no depth is enough for a lookup at x.l. */
  lemma TwoZoneCycle(owner: Name, depth: nat)
    ensures ByLength(TwoZones().zones) && CycleReachable(TwoAliases(), TwoZones(), Mx, Node(1, ["x"]))
    ensures MayRaise(TwoAliases(), TwoZones(), Mx, Node(1, ["x"]), owner, depth)
  {
    var path := [Node(1, ["x"]), Node(2, ["y"]), Node(1, ["x"])];
    AliasesWalk();
    assert Repeats(path, 0, 2);
    CycleRaises(TwoAliases(), TwoZones(), Mx, path, 0, 2, 0, owner, depth);
  }
}
