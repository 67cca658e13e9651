/**
 What a parsed zone holds: exactly the records of its lines, grouped by owner and
 type, with one SOA for each owner; and what that means for its transfer.
 */
module ZoneSets {
  import opened Names
  import opened ZoneFile
  import opened ZoneLines
  import opened ZoneRefinement
  import opened Transfer

  // ---------- Insertion in order ----------

  /** The records with a key, in order. */
  function WithKey(rs: seq<Record>, k: RrKey): seq<Record> {
    if rs == [] then []
    else WithKey(rs[..|rs| - 1], k) + if SameSet(rs[|rs| - 1], k) then [rs[|rs| - 1]] else []
  }

  /** The record is of the key's type, and its owner is the key's, up to case. */
  predicate SameSet(r: Record, k: RrKey) {
    r.rtype == k.rtype && Lower(r.name) == k.name
  }

  /** The records of a parsed zone are rs, grouped by owner and type and in order. */
  ghost predicate Groups(records: Records, rs: seq<Record>) {
    forall k :: if k in records then records[k] == WithKey(rs, k) else WithKey(rs, k) == []
  }

  /** No two SOAs have the same owner, up to case. */
  ghost predicate SoasApart(rs: seq<Record>) {
    forall i, j :: 0 <= i < j < |rs| && rs[i].rtype == SOA && rs[j].rtype == SOA ==>
                     Lower(rs[i].name) != Lower(rs[j].name)
  }

  lemma {:induction false} WithKeyMember(rs: seq<Record>, k: RrKey)
    ensures WithKey(rs, k) != [] <==> exists i :: 0 <= i < |rs| && SameSet(rs[i], k)
  {
    if rs != [] {
      var n := |rs| - 1;
      WithKeyMember(rs[..n], k);
      if i :| 0 <= i < |rs| && SameSet(rs[i], k) {
        assert i < n ==> rs[..n][i] == rs[i];
      }
    }
  }

  /** Every set of the zone has a record. */
  ghost predicate NoEmptySet(records: Records) {
    forall k :: k in records ==> records[k] != []
  }

  /** One more record keeps the SOAs apart, unless it is an SOA of an owner that has one. */
  lemma ApartSnoc(rs: seq<Record>, r: Record, records: Records)
    requires Groups(records, rs) && NoEmptySet(records)
    ensures SoasApart(rs + [r]) <==> SoasApart(rs) && !(r.rtype == SOA && KeyOf(r) in records)
  {
    var all := rs + [r];
    assert forall i :: 0 <= i < |rs| ==> all[i] == rs[i];
    assert all[|rs|] == r;
    WithKeyMember(rs, RrKey(Lower(r.name), r.rtype));
    if r.rtype == SOA && KeyOf(r) in records {
      var i :| 0 <= i < |rs| && SameSet(rs[i], KeyOf(r));
      assert all[i].rtype == SOA && Lower(all[i].name) == Lower(all[|rs|].name);
    }
  }

  lemma GroupsSnoc(rs: seq<Record>, r: Record, records: Records)
    requires Groups(records, rs) && NoEmptySet(records) && Insert(records, r).Done?
    ensures Groups(Insert(records, r).value, rs + [r]) && NoEmptySet(Insert(records, r).value)
  {
    var all, next := rs + [r], Insert(records, r).value;
    assert all[..|all| - 1] == rs && all[|all| - 1] == r;
    forall k
      ensures if k in next then next[k] == WithKey(all, k) else WithKey(all, k) == []
    {
    }
  }

  /**
   Inserting records succeeds if and only if no two SOAs have the same owner, and
   then it groups the records by key and keeps their order.
   */
  lemma {:induction false} InsertionExactly(rs: seq<Record>)
    ensures InsertAll(rs).Done? <==> SoasApart(rs)
    ensures InsertAll(rs).Done? ==> Groups(InsertAll(rs).value, rs) && NoEmptySet(InsertAll(rs).value)
  {
    if rs != [] {
      var n := |rs| - 1;
      var prefix, r := rs[..n], rs[n];
      InsertionExactly(prefix);
      assert rs == prefix + [r];
      if SoasApart(prefix) {
        var records := InsertAll(prefix).value;
        ApartSnoc(prefix, r, records);
        if Insert(records, r).Done? {
          GroupsSnoc(prefix, r, records);
        }
      } else {
        assert forall i :: 0 <= i < n ==> prefix[i] == rs[i];
      }
    }
  }

  /** Records other than SOAs are always inserted. */
  lemma InsertionGroups(rs: seq<Record>)
    requires forall i :: 0 <= i < |rs| ==> rs[i].rtype != SOA
    ensures InsertAll(rs).Done? && Groups(InsertAll(rs).value, rs)
  {
    InsertionExactly(rs);
  }

  // ---------- What a parsed zone holds ----------

  /** The records of the lines that the tokens form. */
  function LineRecords(lib: Library, tokens: seq<Token>, origin: Name, class_: nat): Option<seq<Record>> {
    match ReadLines(lib, tokens)
    case None => None
    case Some(lines) => if AllOk(lib, lines, origin) then Some(RecordsOf(lib, lines, origin, class_)) else None
  }

  /**
   A parse succeeds if and only if the lines are well formed and no two of their
   SOAs have the same owner; and then the zone holds exactly the lines' records.
   */
  lemma ParsedExactly(lib: Library, tokens: seq<Token>, origin: Name, class_: nat)
    ensures var r, rs := Parse(lib, tokens, origin, class_), LineRecords(lib, tokens, origin, class_);
            && (r.Done? <==> rs.Some? && SoasApart(rs.value))
            && (r.Done? ==> Groups(r.value.records, rs.value))
  {
    ParserRefinesLines(lib, tokens, origin, class_);
    if LineRecords(lib, tokens, origin, class_).Some? {
      InsertionExactly(LineRecords(lib, tokens, origin, class_).value);
    }
  }

  /** With the SOAs apart, the set of an SOA's owner is that SOA. */
  lemma {:induction false} OneSoa(rs: seq<Record>, i: nat)
    requires SoasApart(rs) && i < |rs| && rs[i].rtype == SOA
    ensures WithKey(rs, RrKey(Lower(rs[i].name), SOA)) == [rs[i]]
  {
    var n, k := |rs| - 1, RrKey(Lower(rs[i].name), SOA);
    assert forall j :: 0 <= j < n ==> rs[..n][j] == rs[j];
    if i < n {
      OneSoa(rs[..n], i);
    } else {
      WithKeyMember(rs[..n], k);
    }
  }

  /**
   A zone file with an SOA line for its origin is transferred, and the transfer
   starts and ends with that SOA: a file without one is not.
   */
  lemma SoaLineTransfers(lib: Library, tokens: seq<Token>, origin: Name, class_: nat, zone: Zone)
    requires Parse(lib, tokens, origin, class_) == Done(zone)
    ensures LineRecords(lib, tokens, origin, class_).Some?
    ensures var rs := LineRecords(lib, tokens, origin, class_).value;
            && (SoaKey(zone) in zone.records <==> exists i :: 0 <= i < |rs| && IsApexSoa(rs[i], zone.origin))
            && (forall i :: 0 <= i < |rs| && IsApexSoa(rs[i], zone.origin) ==>
                              SoaKey(zone) in zone.records && zone.records[SoaKey(zone)] == [rs[i]])
  {
    ParsedExactly(lib, tokens, origin, class_);
    var rs := LineRecords(lib, tokens, origin, class_).value;
    InsertionExactly(rs);
    WithKeyMember(rs, SoaKey(zone));
    ParserRefinesLines(lib, tokens, origin, class_);
    forall i | 0 <= i < |rs| && IsApexSoa(rs[i], zone.origin)
      ensures SoaKey(zone) in zone.records && zone.records[SoaKey(zone)] == [rs[i]]
    {
      OneSoa(rs, i);
    }
    if SoaKey(zone) in zone.records {
      var i :| 0 <= i < |rs| && SameSet(rs[i], SoaKey(zone));
      assert IsApexSoa(rs[i], zone.origin);
    }
  }
}
