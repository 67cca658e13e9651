/**
 The wire form of SVCB parameters: 16-bit key, 16-bit length and value, sorted
 by key (section 2.2 of RFC 9460), and the length-prefixed ALPN list inside a
 value.
 */
module SvcbWire {
  import opened Octets
  import opened SvcbText

  datatype Param = Param(key: int, data: seq<Byte>)

  datatype Packed = Packed(bytes: seq<Byte>) | KeyOutOfRange | DataTooLong

  // ---------- Stable sort ----------

  function Insert(p: Param, ps: seq<Param>): seq<Param> {
    if ps == [] || p.key <= ps[0].key then [p] + ps else [ps[0]] + Insert(p, ps[1..])
  }

  /** Python's `sorted` by key, which keeps equal keys in their given order. */
  function SortByKey(ps: seq<Param>): seq<Param> {
    if ps == [] then [] else Insert(ps[0], SortByKey(ps[1..]))
  }

  ghost predicate Sorted(ps: seq<Param>) {
    forall i, j :: 0 <= i < j < |ps| ==> ps[i].key <= ps[j].key
  }

  function WithKey(ps: seq<Param>, k: int): seq<Param> {
    if ps == [] then [] else (if ps[0].key == k then [ps[0]] else []) + WithKey(ps[1..], k)
  }

  /** Sorted, and for every key the same parameters in the same order. */
  ghost predicate IsStableSort(ps: seq<Param>, qs: seq<Param>) {
    Sorted(qs) && forall k :: WithKey(qs, k) == WithKey(ps, k)
  }

  lemma {:induction false} InsertSorted(p: Param, ps: seq<Param>)
    requires Sorted(ps)
    ensures Sorted(Insert(p, ps))
    ensures forall q :: q in Insert(p, ps) <==> q == p || q in ps
  {
    if ps != [] && p.key > ps[0].key {
      assert ps == [ps[0]] + ps[1..];
      InsertSorted(p, ps[1..]);
      var r := Insert(p, ps[1..]);
      forall j | 0 <= j < |r|
        ensures ps[0].key <= r[j].key
      {
        assert r[j] in r;
      }
    }
  }

  lemma {:induction false} InsertWithKey(p: Param, ps: seq<Param>, k: int)
    ensures WithKey(Insert(p, ps), k) == WithKey([p] + ps, k)
  {
    assert ([p] + ps)[1..] == ps;
    if ps != [] && p.key > ps[0].key {
      InsertWithKey(p, ps[1..], k);
      assert ([p] + ps[1..])[1..] == ps[1..];
      assert ([ps[0]] + Insert(p, ps[1..]))[1..] == Insert(p, ps[1..]);
    }
  }

  lemma {:induction false} SortIsStable(ps: seq<Param>)
    ensures IsStableSort(ps, SortByKey(ps))
    ensures forall q :: q in SortByKey(ps) <==> q in ps
  {
    if ps != [] {
      SortIsStable(ps[1..]);
      InsertSorted(ps[0], SortByKey(ps[1..]));
      forall k
        ensures WithKey(SortByKey(ps), k) == WithKey(ps, k)
      {
        InsertWithKey(ps[0], SortByKey(ps[1..]), k);
        assert ([ps[0]] + SortByKey(ps[1..]))[1..] == SortByKey(ps[1..]);
      }
    }
  }

  /** The stable sort of a list is unique, so any stable `sorted` is this one. */
  lemma {:induction false} StableSortUnique(ps: seq<Param>, qs: seq<Param>, rs: seq<Param>)
    requires IsStableSort(ps, qs) && IsStableSort(ps, rs)
    ensures qs == rs
    decreases |qs|
  {
    if qs == [] {
      if rs != [] {
        OneWithKey(rs, 0);
        assert false;
      }
    } else {
      FirstHasLeastKey(qs, rs, ps);
      FirstHasLeastKey(rs, qs, ps);
      var k := qs[0].key;
      assert WithKey(qs, k) == WithKey(rs, k);
      assert qs[0] == WithKey(qs, k)[0] && rs[0] == WithKey(rs, k)[0];
      forall j
        ensures WithKey(qs[1..], j) == WithKey(rs[1..], j)
      {
        assert WithKey(qs, j) == WithKey(rs, j);
        assert WithKey(qs[1..], j) == WithKey(qs, j)[if j == k then 1 else 0..];
        assert WithKey(rs[1..], j) == WithKey(rs, j)[if j == k then 1 else 0..];
      }
      StableSortUnique(qs[1..], qs[1..], rs[1..]);
    }
  }

  lemma FirstHasLeastKey(qs: seq<Param>, rs: seq<Param>, ps: seq<Param>)
    requires IsStableSort(ps, qs) && IsStableSort(ps, rs) && qs != []
    ensures rs != [] && rs[0].key <= qs[0].key
  {
    var k := qs[0].key;
    assert WithKey(rs, k) == WithKey(qs, k) && WithKey(qs, k) != [];
    WithKeyMember(rs, k);
  }

  lemma {:induction false} WithKeyMember(rs: seq<Param>, k: int)
    requires WithKey(rs, k) != []
    ensures exists i :: 0 <= i < |rs| && rs[i].key == k
  {
    if rs[0].key != k {
      WithKeyMember(rs[1..], k);
      var i :| 0 <= i < |rs[1..]| && rs[1..][i].key == k;
      assert rs[i + 1].key == k;
    }
  }

  // ---------- Packing and reading back ----------

  predicate Packable(p: Param) {
    Is16Bit(p.key) && |p.data| <= 65535
  }

  function PackParam(p: Param): seq<Byte>
    requires Packable(p)
  {
    U16(p.key) + U16(|p.data|) + p.data
  }

  function PackAll(ps: seq<Param>): seq<Byte>
    requires forall i :: 0 <= i < |ps| ==> Packable(ps[i])
  {
    if ps == [] then [] else PackParam(ps[0]) + PackAll(ps[1..])
  }

  datatype Read<T> = Value(value: T) | Malformed

  /** A reader of key, length and value triples. */
  function ReadParams(bs: seq<Byte>): Read<seq<Param>>
    decreases |bs|
  {
    if bs == [] then Value([])
    else if |bs| < 4 then Malformed
    else
      var n := ReadU16(bs[2..]);
      if |bs| < 4 + n then Malformed
      else
        match ReadParams(bs[4 + n..])
        case Malformed => Malformed
        case Value(ps) => Value([Param(ReadU16(bs), bs[4..4 + n])] + ps)
  }

  lemma ReadParamsPiece(p: Param, after: seq<Byte>)
    requires Packable(p)
    ensures var bs := PackParam(p) + after;
            |bs| >= 4 + |p.data| && ReadU16(bs) == p.key && ReadU16(bs[2..]) == |p.data|
            && bs[4..4 + |p.data|] == p.data && bs[4 + |p.data|..] == after
  {
  }

  lemma {:induction false} ReadInvertsPack(ps: seq<Param>)
    requires forall i :: 0 <= i < |ps| ==> Packable(ps[i])
    ensures ReadParams(PackAll(ps)) == Value(ps)
  {
    if ps != [] {
      ReadInvertsPack(ps[1..]);
      ReadParamsPiece(ps[0], PackAll(ps[1..]));
      assert ps == [ps[0]] + ps[1..];
    }
  }

  function FirstFault(ps: seq<Param>): Packed {
    if ps == [] then Packed([])
    else if |ps[0].data| > 65535 then DataTooLong
    else if !Is16Bit(ps[0].key) then KeyOutOfRange
    else FirstFault(ps[1..])
  }

  /** `SVCBParamList.pack`: one parameter after the other into a growing buffer. */
  method PackList(params: seq<Param>) returns (r: Packed)
    ensures (forall i :: 0 <= i < |params| ==> Packable(params[i])) ==>
              && r.Packed? && ReadParams(r.bytes) == Value(SortByKey(params))
              && IsStableSort(params, SortByKey(params))
    ensures (exists i :: 0 <= i < |params| && !Packable(params[i])) ==> r == FirstFault(SortByKey(params)) && !r.Packed?
  {
    var sorted := SortByKey(params);
    SortIsStable(params);
    var buffer: seq<Byte> := [];
    for i := 0 to |sorted|
      invariant forall j :: 0 <= j < i ==> Packable(sorted[j])
      invariant FirstFault(sorted) == FirstFault(sorted[i..])
      invariant buffer == PackAll(sorted[..i])
    {
      var p := sorted[i];
      assert sorted[i..][1..] == sorted[i + 1..];
      if |p.data| > 65535 {
        NotAllPackable(params, p);
        return DataTooLong;
      }
      if !Is16Bit(p.key) {
        NotAllPackable(params, p);
        return KeyOutOfRange;
      }
      PackAllSnoc(sorted[..i], p);
      assert sorted[..i + 1] == sorted[..i] + [p];
      buffer := buffer + (U16(p.key) + U16(|p.data|) + p.data);
    }
    assert sorted[..|sorted|] == sorted;
    ReadInvertsPack(sorted);
    forall i | 0 <= i < |params|
      ensures Packable(params[i])
    {
      assert params[i] in sorted;
    }
    r := Packed(buffer);
  }

  lemma NotAllPackable(params: seq<Param>, p: Param)
    requires p in SortByKey(params) && !Packable(p)
    ensures exists i :: 0 <= i < |params| && !Packable(params[i])
  {
    SortIsStable(params);
    assert p in params;
  }

  lemma {:induction false} PackAllSnoc(ps: seq<Param>, p: Param)
    requires (forall i :: 0 <= i < |ps| ==> Packable(ps[i])) && Packable(p)
    ensures PackAll(ps + [p]) == PackAll(ps) + PackParam(p)
  {
    if ps == [] {
      assert (ps + [p])[1..] == [];
    } else {
      PackAllSnoc(ps[1..], p);
      assert (ps + [p])[1..] == ps[1..] + [p];
      assert PackParam(ps[0]) + (PackAll(ps[1..]) + PackParam(p))
          == (PackParam(ps[0]) + PackAll(ps[1..])) + PackParam(p);
    }
  }

  /** Keys never decrease on the wire, and strictly increase when the ids are distinct. */
  lemma WireKeyOrder(params: seq<Param>)
    ensures Sorted(SortByKey(params))
    ensures (forall i, j :: 0 <= i < j < |params| ==> params[i].key != params[j].key) ==>
              forall i, j :: 0 <= i < j < |SortByKey(params)| ==> SortByKey(params)[i].key < SortByKey(params)[j].key
  {
    SortIsStable(params);
    if forall i, j :: 0 <= i < j < |params| ==> params[i].key != params[j].key {
      var qs := SortByKey(params);
      forall i, j | 0 <= i < j < |qs|
        ensures qs[i].key != qs[j].key
      {
        AtMostOne(params, qs[i].key);
        TwoWithKey(qs, i, j);
      }
    }
  }

  lemma {:induction false} AtMostOne(ps: seq<Param>, k: int)
    requires forall i, j :: 0 <= i < j < |ps| ==> ps[i].key != ps[j].key
    ensures |WithKey(ps, k)| <= 1
  {
    if ps != [] {
      AtMostOne(ps[1..], k);
      if ps[0].key == k && WithKey(ps[1..], k) != [] {
        WithKeyMember(ps[1..], k);
      }
    }
  }

  lemma {:induction false} OneWithKey(ps: seq<Param>, i: nat)
    requires i < |ps|
    ensures |WithKey(ps, ps[i].key)| >= 1
  {
    if i > 0 {
      OneWithKey(ps[1..], i - 1);
    }
  }

  lemma {:induction false} TwoWithKey(ps: seq<Param>, i: nat, j: nat)
    requires i < j < |ps|
    ensures ps[i].key == ps[j].key ==> |WithKey(ps, ps[i].key)| >= 2
  {
    if i > 0 {
      TwoWithKey(ps[1..], i - 1, j - 1);
    } else {
      OneWithKey(ps[1..], j - 1);
    }
  }

  // ---------- The ALPN list inside a value ----------

  function PackAlpn(items: seq<seq<Byte>>): seq<Byte>
    requires ShortItems(items)
  {
    if items == [] then [] else [|items[0]|] + items[0] + PackAlpn(items[1..])
  }

  function ReadAlpn(bs: seq<Byte>): Read<seq<seq<Byte>>>
    decreases |bs|
  {
    if bs == [] then Value([])
    else
      var n := bs[0] as nat;
      if |bs| < 1 + n then Malformed
      else
        match ReadAlpn(bs[1 + n..])
        case Malformed => Malformed
        case Value(items) => Value([bs[1..1 + n]] + items)
  }

  /** The length-prefixed list reads back as the items that were packed. */
  lemma {:induction false} AlpnWireRoundTrip(items: seq<seq<Byte>>)
    requires ShortItems(items)
    ensures ReadAlpn(PackAlpn(items)) == Value(items)
  {
    if items != [] {
      AlpnWireRoundTrip(items[1..]);
      var bs, n := PackAlpn(items), |items[0]|;
      assert bs[0] == n && bs[1..1 + n] == items[0] && bs[1 + n..] == PackAlpn(items[1..]);
      assert items == [items[0]] + items[1..];
    }
  }
}
