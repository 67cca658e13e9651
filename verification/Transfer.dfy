/**
 Zone transfer from both ends: the server streams a parsed zone between two
 copies of its SOA, and the secondary counts SOAs to find the end of the stream
 and replaces what it has stored.
 */
module Transfer {
  import opened Names
  import opened ZoneFile

  const CLASS_IN: nat := 1

  // ---------- The server ----------

  function SoaKey(zone: Zone): RrKey {
    RrKey(Lower(zone.origin), SOA)
  }

  /** The record sets in the order of the keys, one after the other. */
  function Concat(records: Records, keys: seq<RrKey>): seq<Record>
    requires forall k :: k in keys ==> k in records
  {
    if keys == [] then [] else Concat(records, keys[..|keys| - 1]) + records[keys[|keys| - 1]]
  }

  /** Each key of the set once. */
  ghost predicate Enumerates(keys: seq<RrKey>, s: set<RrKey>) {
    && (forall k :: k in keys <==> k in s)
    && (forall i, j :: 0 <= i < j < |keys| ==> keys[i] != keys[j])
  }

  /** The answers of a transfer: the SOA, every other record set once, the SOA. */
  ghost predicate Streams(zone: Zone, soa: Record, body: seq<Record>) {
    && SoaKey(zone) in zone.records && zone.records[SoaKey(zone)] == [soa]
    && exists keys :: Enumerates(keys, zone.records.Keys - {SoaKey(zone)}) && body == Concat(zone.records, keys)
  }

  function Stream(soa: Record, body: seq<Record>): seq<Record> {
    [soa] + body + [soa]
  }

  /** A response message with the records of its answer section, or a failure. */
  datatype Answer = Message(answers: seq<Record>) | ServFail

  function Messages(rs: seq<Record>): seq<Answer> {
    seq(|rs|, i requires 0 <= i < |rs| => Message([rs[i]]))
  }

  lemma ConcatSnoc(records: Records, keys: seq<RrKey>, k: RrKey)
    requires (forall j :: j in keys ==> j in records) && k in records
    ensures Concat(records, keys + [k]) == Concat(records, keys) + records[k]
  {
    assert (keys + [k])[..|keys|] == keys;
  }

  lemma MessagesAppend(rs: seq<Record>, more: seq<Record>)
    ensures Messages(rs + more) == Messages(rs) + Messages(more)
  {
  }

  /** The inner loop: the records of one set, a message each. */
  method SendSet(rs: seq<Record>) returns (sent: seq<Answer>)
    ensures sent == Messages(rs)
  {
    sent := [];
    for i := 0 to |rs|
      invariant sent == Messages(rs[..i])
    {
      sent := sent + [Message([rs[i]])];
    }
    assert rs[..|rs|] == rs;
  }

  /** The answer-stream part of `handle_request`: one message per record. */
  method SendZone(zone: Zone) returns (sent: seq<Answer>)
    requires Keyed(zone.records)
    ensures SoaKey(zone) !in zone.records ==> sent == [ServFail]
    ensures SoaKey(zone) in zone.records ==>
              exists soa, body :: Streams(zone, soa, body) && sent == Messages(Stream(soa, body))
    ensures SoaKey(zone) in zone.records ==>
              |sent| >= 2 && sent[0] == sent[|sent| - 1] == Message(zone.records[SoaKey(zone)])
  {
    if SoaKey(zone) !in zone.records {
      return [ServFail];
    }
    assert |zone.records[SoaKey(zone)]| == 1;
    var soa := zone.records[SoaKey(zone)][0];
    sent := [Message([soa])];
    var todo := zone.records.Keys - {SoaKey(zone)};
    ghost var keys: seq<RrKey> := [];
    ghost var body: seq<Record> := [];
    while todo != {}
      invariant todo <= zone.records.Keys - {SoaKey(zone)}
      invariant Enumerates(keys, zone.records.Keys - {SoaKey(zone)} - todo)
      invariant body == Concat(zone.records, keys)
      invariant sent == Messages([soa] + body)
      decreases |todo|
    {
      var k :| k in todo;
      todo := todo - {k};
      var set_ := zone.records[k];
      MessagesAppend([soa] + body, set_);
      assert [soa] + body + set_ == [soa] + (body + set_);
      var more := SendSet(set_);
      sent := sent + more;
      ConcatSnoc(zone.records, keys, k);
      body := body + set_;
      keys := keys + [k];
    }
    sent := sent + [Message([soa])];
    MessagesAppend([soa] + body, [soa]);
    assert zone.records.Keys - {SoaKey(zone)} - {} == zone.records.Keys - {SoaKey(zone)};
    assert [soa] == zone.records[SoaKey(zone)];
    assert Streams(zone, soa, body);
  }

  // ---------- The secondary ----------

  /** What reading one message gave: a response, with its code, or an error that ends the transfer. */
  datatype Received = Response(noError: bool, answers: seq<Record>) | Broken

  datatype Progress = Progress(seen: nat, kept: seq<Record>)

  predicate IsApexSoa(r: Record, root: Name) {
    r.rtype == SOA && Lower(r.name) == Lower(root)
  }

  function TakeOne(root: Name, p: Progress, r: Record): Progress {
    var seen := if IsApexSoa(r, root) then p.seen + 1 else p.seen;
    Progress(seen, if r.class_ == CLASS_IN && (r.rtype != SOA || seen <= 1) then p.kept + [r] else p.kept)
  }

  function TakeAll(root: Name, p: Progress, rs: seq<Record>): Progress {
    if rs == [] then p else TakeOne(root, TakeAll(root, p, rs[..|rs| - 1]), rs[|rs| - 1])
  }

  datatype Result = Complete(progress: Progress) | Aborted

  /** The receive loop: until two SOAs are seen, or the connection fails. */
  function Receive(root: Name, p: Progress, msgs: seq<Received>): Result
    decreases |msgs|
  {
    if msgs == [] || msgs[0].Broken? then Aborted
    else if !msgs[0].noError then Receive(root, p, msgs[1..])
    else
      var q := TakeAll(root, p, msgs[0].answers);
      if q.seen >= 2 then Complete(q) else Receive(root, q, msgs[1..])
  }

  const NOTHING := Progress(0, [])

  class SecondaryZone {
    const root: Name
    var records: seq<Record>
    var serial: nat
    var error: bool

    constructor (root: Name, records: seq<Record>, serial: nat)
      ensures this.root == root && this.records == records && this.serial == serial && !error
    {
      this.root, this.records, this.serial, this.error := root, records, serial, false;
    }

    /**
     The transfer replaces records and serial together, and only after seeing
     exactly two apex SOAs; otherwise it leaves both and marks the error.
     */
    method Sync(msgs: seq<Received>, newSerial: nat)
      modifies this
      ensures var r := Receive(root, NOTHING, msgs);
              if r.Complete? && r.progress.seen == 2
              then records == r.progress.kept && serial == newSerial && !error
              else records == old(records) && serial == old(serial) && error
    {
      var seen: nat, kept: seq<Record>, i := 0, [], 0;
      while seen < 2
        invariant 0 <= i <= |msgs|
        invariant records == old(records) && serial == old(serial)
        invariant Receive(root, NOTHING, msgs) ==
                  if seen >= 2 then Complete(Progress(seen, kept)) else Receive(root, Progress(seen, kept), msgs[i..])
        decreases |msgs| - i
      {
        if i == |msgs| || msgs[i].Broken? {
          error := true;
          return;
        }
        var msg := msgs[i];
        assert msgs[i..][0] == msg && msgs[i..][1..] == msgs[i + 1..];
        i := i + 1;
        if !msg.noError {
          error := true;
          continue;
        }
        ghost var before := Progress(seen, kept);
        for j := 0 to |msg.answers|
          invariant Progress(seen, kept) == TakeAll(root, before, msg.answers[..j])
        {
          var rr := msg.answers[j];
          assert msg.answers[..j + 1][..j] == msg.answers[..j];
          if IsApexSoa(rr, root) {
            seen := seen + 1;
          }
          if rr.class_ == CLASS_IN && (rr.rtype != SOA || seen <= 1) {
            kept := kept + [rr];
          }
        }
        assert msg.answers[..|msg.answers|] == msg.answers;
      }
      if seen == 2 {
        records := [];
        for j := 0 to |kept|
          invariant records == kept[..j] && serial == old(serial)
        {
          records := records + [kept[j]];
        }
        serial := newSerial;
        error := false;
      } else {
        error := true;
      }
    }
  }

  // ---------- End to end ----------

  function Flatten(groups: seq<seq<Record>>): seq<Record> {
    if groups == [] then [] else groups[0] + Flatten(groups[1..])
  }

  function AsResponses(groups: seq<seq<Record>>): seq<Received> {
    seq(|groups|, i requires 0 <= i < |groups| => Response(true, groups[i]))
  }

  function ApexSoas(root: Name, rs: seq<Record>): nat {
    if rs == [] then 0 else ApexSoas(root, rs[..|rs| - 1]) + if IsApexSoa(rs[|rs| - 1], root) then 1 else 0
  }

  function InClass(rs: seq<Record>): seq<Record> {
    if rs == [] then []
    else InClass(rs[..|rs| - 1]) + if rs[|rs| - 1].class_ == CLASS_IN then [rs[|rs| - 1]] else []
  }

  lemma TakeLast(root: Name, p: Progress, rs: seq<Record>, r: Record)
    ensures TakeAll(root, p, rs + [r]) == TakeOne(root, TakeAll(root, p, rs), r)
  {
    assert (rs + [r])[..|rs|] == rs;
  }

  lemma {:induction false} TakeAllAppend(root: Name, p: Progress, a: seq<Record>, b: seq<Record>)
    ensures TakeAll(root, p, a + b) == TakeAll(root, TakeAll(root, p, a), b)
  {
    if b == [] {
      assert a + b == a;
    } else {
      var n := |b| - 1;
      TakeAllAppend(root, p, a, b[..n]);
      TakeLast(root, p, a + b[..n], b[n]);
      TakeLast(root, TakeAll(root, p, a), b[..n], b[n]);
      assert a + b == a + b[..n] + [b[n]] && b == b[..n] + [b[n]];
    }
  }

  lemma {:induction false} SeenCounts(root: Name, p: Progress, rs: seq<Record>)
    ensures TakeAll(root, p, rs).seen == p.seen + ApexSoas(root, rs)
  {
    if rs != [] {
      SeenCounts(root, p, rs[..|rs| - 1]);
    }
  }

  lemma {:induction false} ApexSoasAppend(root: Name, a: seq<Record>, b: seq<Record>)
    ensures ApexSoas(root, a + b) == ApexSoas(root, a) + ApexSoas(root, b)
  {
    if b == [] {
      assert a + b == a;
    } else {
      ApexSoasAppend(root, a, b[..|b| - 1]);
      assert (a + b)[..|a + b| - 1] == a + b[..|b| - 1];
    }
  }

  /** While at most one SOA has been seen, exactly the records of class IN are kept. */
  lemma {:induction false} KeptIsInClass(root: Name, rs: seq<Record>)
    requires ApexSoas(root, rs) <= 1
    ensures TakeAll(root, NOTHING, rs).kept == InClass(rs)
  {
    if rs != [] {
      KeptIsInClass(root, rs[..|rs| - 1]);
      SeenCounts(root, NOTHING, rs[..|rs| - 1]);
    }
  }

  /** The second SOA of a stream is not kept, so the stored zone is what came before it. */
  lemma StreamKept(root: Name, soa: Record, body: seq<Record>)
    requires IsApexSoa(soa, root) && ApexSoas(root, body) == 0
    ensures TakeAll(root, NOTHING, Stream(soa, body)) == Progress(2, InClass([soa] + body))
  {
    var front := [soa] + body;
    ApexSoasAppend(root, [soa], body);
    assert [soa][..0] == [];
    assert ApexSoas(root, front) == 1;
    KeptIsInClass(root, front);
    SeenCounts(root, NOTHING, front);
    var all := Stream(soa, body);
    assert all[..|all| - 1] == front && all[|all| - 1] == soa;
  }

  /**
   However a run of records is grouped into messages, the loop sees it as one
   run, as long as the second SOA comes last.
   */
  lemma {:induction false} GroupingIrrelevant(root: Name, p: Progress, groups: seq<seq<Record>>)
    requires p.seen < 2
    requires Flatten(groups) != [] ==> p.seen + ApexSoas(root, Flatten(groups)[..|Flatten(groups)| - 1]) < 2
    ensures Receive(root, p, AsResponses(groups)) ==
            if TakeAll(root, p, Flatten(groups)).seen >= 2 then Complete(TakeAll(root, p, Flatten(groups))) else Aborted
    decreases |groups|
  {
    if groups != [] {
      var g, rest := groups[0], Flatten(groups[1..]);
      FirstGroup(root, p, groups);
      TakeAllAppend(root, p, g, rest);
      SeenCounts(root, p, g);
      var q := TakeAll(root, p, g);
      if rest == [] {
        assert TakeAll(root, q, rest) == q;
        if q.seen < 2 {
          GroupingIrrelevant(root, q, groups[1..]);
        }
      } else {
        LastIsLater(root, g, rest);
        GroupingIrrelevant(root, q, groups[1..]);
      }
    }
  }

  lemma FirstGroup(root: Name, p: Progress, groups: seq<seq<Record>>)
    requires groups != []
    ensures Flatten(groups) == groups[0] + Flatten(groups[1..])
    ensures var q := TakeAll(root, p, groups[0]);
            Receive(root, p, AsResponses(groups))
            == if q.seen >= 2 then Complete(q) else Receive(root, q, AsResponses(groups[1..]))
  {
    assert AsResponses(groups)[1..] == AsResponses(groups[1..]);
  }

  /** All but the last record: the first part, and all but the last of the second. */
  lemma LastIsLater(root: Name, g: seq<Record>, rest: seq<Record>)
    requires rest != []
    ensures ApexSoas(root, (g + rest)[..|g + rest| - 1])
            == ApexSoas(root, g) + ApexSoas(root, rest[..|rest| - 1])
  {
    assert (g + rest)[..|g + rest| - 1] == g + rest[..|rest| - 1];
    ApexSoasAppend(root, g, rest[..|rest| - 1]);
  }

  lemma {:induction false} NoApexSoas(root: Name, rs: seq<Record>)
    requires forall i :: 0 <= i < |rs| ==> !IsApexSoa(rs[i], root)
    ensures ApexSoas(root, rs) == 0
  {
    if rs != [] {
      NoApexSoas(root, rs[..|rs| - 1]);
    }
  }

  /** Only the set of the root's own SOA key holds an apex SOA, and it holds one. */
  lemma ApexInSet(records: Records, k: RrKey, root: Name)
    requires Keyed(records) && k in records
    ensures ApexSoas(root, records[k]) == if k == RrKey(Lower(root), SOA) then 1 else 0
  {
    if k == RrKey(Lower(root), SOA) {
      assert KeyOf(records[k][0]) == k;
      assert records[k][..0] == [];
    } else {
      forall i | 0 <= i < |records[k]|
        ensures !IsApexSoa(records[k][i], root)
      {
        assert KeyOf(records[k][i]) == k;
      }
      NoApexSoas(root, records[k]);
    }
  }

  lemma {:induction false} ApexInBody(records: Records, keys: seq<RrKey>, root: Name)
    requires Keyed(records) && forall k :: k in keys ==> k in records
    requires forall i, j :: 0 <= i < j < |keys| ==> keys[i] != keys[j]
    ensures ApexSoas(root, Concat(records, keys)) == if RrKey(Lower(root), SOA) in keys then 1 else 0
  {
    if keys != [] {
      var n := |keys| - 1;
      assert keys == keys[..n] + [keys[n]];
      ApexInBody(records, keys[..n], root);
      ApexInSet(records, keys[n], root);
      ApexSoasAppend(root, Concat(records, keys[..n]), records[keys[n]]);
    }
  }

  /** The counts that decide a transfer: in the body, and in all but the last record of the stream. */
  lemma StreamCounts(zone: Zone, soa: Record, body: seq<Record>, root: Name)
    requires Keyed(zone.records) && Streams(zone, soa, body)
    ensures if Lower(root) == Lower(zone.origin) then IsApexSoa(soa, root) && ApexSoas(root, body) == 0
            else !IsApexSoa(soa, root) && ApexSoas(root, body) <= 1
  {
    var keys :| Enumerates(keys, zone.records.Keys - {SoaKey(zone)}) && body == Concat(zone.records, keys);
    ApexInBody(zone.records, keys, root);
    assert zone.records[SoaKey(zone)][0] == soa;
    assert KeyOf(soa) == SoaKey(zone);
  }

  /**
   End to end: from a stream of a parsed zone, grouped into messages in any way,
   a secondary for root stores the SOA and then the IN-class body in order if
   the zone's origin is that root; and otherwise it aborts.
   */
  lemma TransferEndToEnd(zone: Zone, soa: Record, body: seq<Record>, root: Name, groups: seq<seq<Record>>)
    requires Keyed(zone.records) && Streams(zone, soa, body) && Flatten(groups) == Stream(soa, body)
    ensures Receive(root, NOTHING, AsResponses(groups)) ==
            if Lower(root) == Lower(zone.origin) then Complete(Progress(2, InClass([soa] + body))) else Aborted
  {
    StreamCounts(zone, soa, body, root);
    var all, front := Stream(soa, body), [soa] + body;
    assert all[..|all| - 1] == front;
    ApexSoasAppend(root, [soa], body);
    assert [soa][..0] == [];
    GroupingIrrelevant(root, NOTHING, groups);
    if Lower(root) == Lower(zone.origin) {
      StreamKept(root, soa, body);
    } else {
      SeenCounts(root, NOTHING, all);
    }
  }

  /** Every zone that parses satisfies the hypothesis of `TransferEndToEnd`. */
  lemma ParsedZoneTransfers(lib: Library, tokens: seq<Token>, origin: Name, class_: nat, zone: Zone,
                            soa: Record, body: seq<Record>, groups: seq<seq<Record>>)
    requires Parse(lib, tokens, origin, class_) == Done(zone)
    requires Streams(zone, soa, body) && Flatten(groups) == Stream(soa, body)
    ensures Receive(zone.origin, NOTHING, AsResponses(groups)) == Complete(Progress(2, InClass([soa] + body)))
  {
    ParsedZoneKeyed(lib, tokens, origin, class_);
    TransferEndToEnd(zone, soa, body, zone.origin, groups);
  }

  /** A stored zone is replaced only by messages that, read so far, hold at least two apex SOAs. */
  lemma {:induction false} CompleteNeedsTwo(root: Name, p: Progress, msgs: seq<Received>)
    returns (read: seq<seq<Record>>)
    requires p.seen < 2 && Receive(root, p, msgs).Complete?
    ensures |read| <= |msgs|
    ensures forall i :: 0 <= i < |read| ==>
                          msgs[i].Response? && read[i] == if msgs[i].noError then msgs[i].answers else []
    ensures Receive(root, p, msgs).progress == TakeAll(root, p, Flatten(read))
    ensures Receive(root, p, msgs).progress.seen == p.seen + ApexSoas(root, Flatten(read))
    decreases |msgs|
  {
    var answers := if msgs[0].noError then msgs[0].answers else [];
    var q := TakeAll(root, p, answers);
    var rest: seq<seq<Record>> := [];
    if q.seen < 2 {
      rest := CompleteNeedsTwo(root, q, msgs[1..]);
    }
    read := [answers] + rest;
    assert read[1..] == rest;
    TakeAllAppend(root, p, answers, Flatten(rest));
    SeenCounts(root, p, Flatten(read));
  }

  // ---------- When the loop completes, and what it keeps ----------

  /** What the first n messages add to the run of records: their answers, unless they carry an error code. */
  function AnswersOf(msgs: seq<Received>, n: nat): seq<Record>
    requires n <= |msgs|
  {
    if n == 0 then []
    else AnswersOf(msgs, n - 1) + match msgs[n - 1] case Response(true, answers) => answers case _ => []
  }

  /** Nothing breaks up to message n, and it brings the second apex SOA. */
  ghost predicate CompletesAt(root: Name, msgs: seq<Received>, n: nat) {
    && 0 < n <= |msgs| && (forall i :: 0 <= i < n ==> msgs[i].Response?)
    && ApexSoas(root, AnswersOf(msgs, n - 1)) < 2 <= ApexSoas(root, AnswersOf(msgs, n))
  }

  lemma {:induction false} ReceivedUpTo(root: Name, msgs: seq<Received>, n: nat)
    requires n <= |msgs| && (forall i :: 0 <= i < n ==> msgs[i].Response?)
    requires ApexSoas(root, AnswersOf(msgs, n)) < 2
    ensures Receive(root, NOTHING, msgs) == Receive(root, TakeAll(root, NOTHING, AnswersOf(msgs, n)), msgs[n..])
  {
    if n == 0 {
      assert msgs[0..] == msgs;
    } else {
      var front := AnswersOf(msgs, n - 1);
      var last := if msgs[n - 1].noError then msgs[n - 1].answers else [];
      assert AnswersOf(msgs, n) == front + last;
      ApexSoasAppend(root, front, last);
      ReceivedUpTo(root, msgs, n - 1);
      TakeAllAppend(root, NOTHING, front, last);
      SeenCounts(root, NOTHING, AnswersOf(msgs, n));
      assert msgs[n - 1..][0] == msgs[n - 1] && msgs[n - 1..][1..] == msgs[n..];
    }
  }

  lemma CompletesThere(root: Name, msgs: seq<Received>, n: nat)
    requires CompletesAt(root, msgs, n)
    ensures Receive(root, NOTHING, msgs) == Complete(TakeAll(root, NOTHING, AnswersOf(msgs, n)))
  {
    var front := AnswersOf(msgs, n - 1);
    ReceivedUpTo(root, msgs, n - 1);
    assert msgs[n - 1..][0] == msgs[n - 1];
    assert AnswersOf(msgs, n) == front + (if msgs[n - 1].noError then msgs[n - 1].answers else []);
    assert front + [] == front;
    TakeAllAppend(root, NOTHING, front, msgs[n - 1].answers);
    SeenCounts(root, NOTHING, AnswersOf(msgs, n));
  }

  lemma {:induction false} NeverCompletes(root: Name, msgs: seq<Received>, n: nat)
    requires n <= |msgs| && forall k :: 0 < k <= |msgs| ==> !CompletesAt(root, msgs, k)
    requires forall i :: 0 <= i < n ==> msgs[i].Response?
    ensures ApexSoas(root, AnswersOf(msgs, n)) < 2
  {
    if n > 0 {
      NeverCompletes(root, msgs, n - 1);
      assert !CompletesAt(root, msgs, n);
    }
  }

  /** The number of messages before the first that breaks. */
  function Unbroken(msgs: seq<Received>): (n: nat)
    ensures n <= |msgs| && (forall i :: 0 <= i < n ==> msgs[i].Response?) && (n < |msgs| ==> msgs[n].Broken?)
  {
    if msgs == [] || msgs[0].Broken? then 0 else 1 + Unbroken(msgs[1..])
  }

  /**
   The receive loop completes exactly when some message brings the second apex
   SOA before the connection breaks; messages with an error code add nothing.
   It ends with what the messages up to that one brought.
   */
  lemma ReceiveExactly(root: Name, msgs: seq<Received>)
    ensures Receive(root, NOTHING, msgs).Complete? <==> exists n :: CompletesAt(root, msgs, n)
    ensures forall n :: CompletesAt(root, msgs, n) ==>
                          Receive(root, NOTHING, msgs) == Complete(TakeAll(root, NOTHING, AnswersOf(msgs, n)))
  {
    forall n | CompletesAt(root, msgs, n)
      ensures Receive(root, NOTHING, msgs) == Complete(TakeAll(root, NOTHING, AnswersOf(msgs, n)))
    {
      CompletesThere(root, msgs, n);
    }
    if forall n :: !CompletesAt(root, msgs, n) {
      var n := Unbroken(msgs);
      NeverCompletes(root, msgs, n);
      ReceivedUpTo(root, msgs, n);
    }
  }

  /** Record i is kept: it is of class IN, and an SOA only while at most one apex SOA has come, itself counted. */
  predicate KeptAt(root: Name, rs: seq<Record>, i: nat)
    requires i < |rs|
  {
    rs[i].class_ == CLASS_IN && (rs[i].rtype == SOA ==> ApexSoas(root, rs[..i + 1]) <= 1)
  }

  /** The picks are the positions of the kept records, in order. */
  ghost predicate Picks(root: Name, rs: seq<Record>, kept: seq<Record>, picks: seq<nat>) {
    && |picks| == |kept|
    && (forall j, k :: 0 <= j < k < |picks| ==> picks[j] < picks[k])
    && (forall j :: 0 <= j < |picks| ==> picks[j] < |rs| && kept[j] == rs[picks[j]])
    && (forall i: nat :: i < |rs| ==> (KeptAt(root, rs, i) <==> i in picks))
  }

  /** What is kept of a run of records, in order: those of class IN, less the SOAs from the second apex SOA on. */
  lemma {:induction false} KeptExactly(root: Name, rs: seq<Record>) returns (picks: seq<nat>)
    ensures Picks(root, rs, TakeAll(root, NOTHING, rs).kept, picks)
  {
    picks := [];
    if rs != [] {
      var n := |rs| - 1;
      var before := KeptExactly(root, rs[..n]);
      SeenCounts(root, NOTHING, rs);
      assert rs[..n + 1] == rs;
      picks := if KeptAt(root, rs, n) then before + [n] else before;
      PicksSnoc(root, rs, TakeAll(root, NOTHING, rs[..n]).kept, before);
    }
  }

  lemma PicksSnoc(root: Name, rs: seq<Record>, kept: seq<Record>, picks: seq<nat>)
    requires rs != [] && Picks(root, rs[..|rs| - 1], kept, picks)
    ensures var n := |rs| - 1;
            if KeptAt(root, rs, n) then Picks(root, rs, kept + [rs[n]], picks + [n]) else Picks(root, rs, kept, picks)
  {
    var n, front := |rs| - 1, rs[..|rs| - 1];
    forall i: nat | i < n
      ensures KeptAt(root, rs, i) <==> i in picks
    {
      assert rs[..i + 1] == front[..i + 1];
      assert KeptAt(root, front, i) <==> i in picks;
    }
    assert n !in picks;
  }
}
