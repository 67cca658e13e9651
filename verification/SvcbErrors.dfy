/**
 Where the decoders of SVCB text fail and with which error: at the first escape
 that is none, behind a well-written part; and the character classes and wire
 bytes they rest on, in numbers.
 */
module SvcbErrors {
  import opened Octets
  import opened SvcbText
  import opened SvcbWire

  /** The classes of RFC 9460, Appendix A: visible characters less the special ones, and less the digits. */
  lemma CharacterClasses(c: Byte)
    ensures IsNonSpecial(c) <==> 33 <= c <= 126 && c !in {34, 40, 41, 59, 92}
    ensures IsNonDigit(c) <==> 33 <= c <= 126 && !(48 <= c <= 57)
    ensures IsItemAllowed(c) <==> c != 44 && c != 92
    ensures IsDigit(c) <==> 48 <= c <= 57
    ensures IsPlain(c, true) <==> IsNonSpecial(c) || c == 32
    ensures IsPlain(c, false) <==> IsNonSpecial(c)
  {
  }

  // ---------- Character strings ----------

  predicate Digit(c: Byte) {
    48 <= c <= 57
  }

  /** The number that three digits write. */
  function Number(x: int, y: int, z: int): int {
    (x - 48) * 100 + (y - 48) * 10 + (z - 48)
  }

  /** What follows a backslash is no escape, for this reason. */
  predicate BadEscape(tail: seq<Byte>, e: Error) {
    if tail == [] then e == UnterminatedEscape
    else if 33 <= tail[0] <= 126 && !Digit(tail[0]) then false
    else if |tail| < 3 then e == UnterminatedEscape
    else if !Digit(tail[0]) || !Digit(tail[1]) || !Digit(tail[2]) then e == InvalidEscape
    else Number(tail[0], tail[1], tail[2]) > 255 && e == EscapeTooLarge
  }

  /** The data starts with a writing of some bytes, and goes on with a backslash that starts no escape. */
  ghost predicate FailsBehind(data: seq<Byte>, allowSpace: bool, e: Error, ps: seq<Piece>, tail: seq<Byte>) {
    PiecesOk(ps, allowSpace) && data == Text(ps) + ([BACKSLASH] + tail) && BadEscape(tail, e)
  }

  lemma EscapedFails(tail: seq<Byte>, e: Error)
    ensures Escaped(tail) == Err(e) <==> BadEscape(tail, e)
  {
  }

  lemma {:induction false} FailsIf(data: seq<Byte>, allowSpace: bool, e: Error, ps: seq<Piece>, tail: seq<Byte>)
    requires FailsBehind(data, allowSpace, e, ps, tail)
    ensures Contiguous(data, allowSpace) == Err(e)
    decreases |ps|
  {
    if ps == [] {
      assert data == [BACKSLASH] + tail && data[1..] == tail;
      EscapedFails(tail, e);
    } else {
      var rest := Text(ps[1..]) + ([BACKSLASH] + tail);
      assert data == PieceText(ps[0]) + rest;
      FailsIf(rest, allowSpace, e, ps[1..], tail);
      ContiguousPiece(ps[0], rest, allowSpace);
    }
  }

  lemma {:induction false} FailsOnlyIf(data: seq<Byte>, allowSpace: bool, e: Error)
    returns (ps: seq<Piece>, tail: seq<Byte>)
    requires Contiguous(data, allowSpace) == Err(e)
    ensures FailsBehind(data, allowSpace, e, ps, tail)
    decreases |data|
  {
    ps, tail := [], data[1..];
    if data[0] == BACKSLASH && Escaped(tail).Err? {
      EscapedFails(tail, e);
      assert data == Text([]) + ([BACKSLASH] + tail);
    } else {
      var p: Piece, after: seq<Byte>;
      if data[0] == BACKSLASH {
        p := EscapedComplete(tail);
        after := Escaped(tail).rest;
        assert data == [BACKSLASH] + tail;
      } else {
        p, after := Literal(data[0]), tail;
      }
      ContiguousPiece(p, after, allowSpace);
      var qs: seq<Piece>;
      qs, tail := FailsOnlyIf(after, allowSpace, e);
      ps := [p] + qs;
      FailsCons(p, after, allowSpace, e, qs, tail);
    }
  }

  lemma FailsCons(p: Piece, after: seq<Byte>, allowSpace: bool, e: Error, ps: seq<Piece>, tail: seq<Byte>)
    requires PieceOk(p, allowSpace) && FailsBehind(after, allowSpace, e, ps, tail)
    ensures FailsBehind(PieceText(p) + after, allowSpace, e, [p] + ps, tail)
  {
    assert ([p] + ps)[1..] == ps;
    assert PieceText(p) + (Text(ps) + ([BACKSLASH] + tail)) == PieceText(p) + Text(ps) + ([BACKSLASH] + tail);
  }

  /** A run fails with an error exactly when it meets a backslash that starts no escape, for that reason. */
  lemma RunFailsExactly(data: seq<Byte>, allowSpace: bool, e: Error)
    ensures Contiguous(data, allowSpace) == Err(e) <==> exists ps, tail :: FailsBehind(data, allowSpace, e, ps, tail)
  {
    if Contiguous(data, allowSpace) == Err(e) {
      var ps, tail := FailsOnlyIf(data, allowSpace, e);
    }
    if ps, tail :| FailsBehind(data, allowSpace, e, ps, tail) {
      FailsIf(data, allowSpace, e, ps, tail);
    }
  }

  /** Behind the opening quote, a run that stops at anything but a quote leaves the string open. */
  lemma QuoteMissing(ps: seq<Piece>, rest: seq<Byte>)
    requires PiecesOk(ps, true) && Stops(rest, true) && (rest == [] || rest[0] != 34)
    ensures CharString([34] + (Text(ps) + rest)) == Err(UnterminatedQuote)
  {
    ContiguousInverts(ps, rest, true);
    assert ([34] + (Text(ps) + rest))[1..] == Text(ps) + rest;
  }

  /** An ALPN value is one character string: nothing may follow it. */
  lemma NothingMayFollow(ps: seq<Piece>, rest: seq<Byte>)
    requires rest != []
    ensures PiecesOk(ps, true) ==> FromText(Quoted(ps) + rest) == Bad(LeftOverData)
    ensures ps != [] && PiecesOk(ps, false) && Stops(rest, false) ==> FromText(Text(ps) + rest) == Bad(LeftOverData)
    ensures FromText([]) == Bad(EmptyInput)
  {
    if PiecesOk(ps, true) {
      QuotedInverts(ps, rest);
    }
    if ps != [] && PiecesOk(ps, false) && Stops(rest, false) {
      ContiguousInverts(ps, rest, false);
      var data := Text(ps) + rest;
      assert data[0] == PieceText(ps[0])[0];
      assert data[0] != QUOTE;
    }
  }

  // ---------- Lists ----------

  /** A backslash before anything but a comma or a backslash. */
  predicate BadItemEscape(tail: seq<Byte>, e: Error) {
    if tail == [] then e == UnterminatedEscape else tail[0] != 44 && tail[0] != 92 && e == InvalidEscapeCharacter
  }

  ghost predicate ListFailsBehind(data: seq<Byte>, e: Error, items: seq<seq<Byte>>, tail: seq<Byte>) {
    items != [] && data == JoinItems(items) + ([BACKSLASH] + tail) && BadItemEscape(tail, e)
  }

  lemma {:induction false} ItemFailsIf(item: seq<Byte>, tail: seq<Byte>, e: Error)
    requires BadItemEscape(tail, e)
    ensures Item(EscapeItem(item) + ([BACKSLASH] + tail)) == Err(e)
  {
    var bad := [BACKSLASH] + tail;
    if item == [] {
      assert EscapeItem(item) + bad == bad && bad[1..] == tail;
    } else {
      ItemFailsIf(item[1..], tail, e);
      ItemPiece(item[0], EscapeItem(item[1..]) + bad);
      EscapeCons(item[0], item[1..], bad);
      assert [item[0]] + item[1..] == item;
    }
  }

  lemma {:induction false} ItemFailsOnlyIf(data: seq<Byte>, e: Error) returns (item: seq<Byte>, tail: seq<Byte>)
    requires Item(data) == Err(e)
    ensures data == EscapeItem(item) + ([BACKSLASH] + tail) && BadItemEscape(tail, e)
    decreases |data|
  {
    item, tail := [], data[1..];
    if data[0] == BACKSLASH && BadItemEscape(tail, e) {
      assert data == EscapeItem([]) + ([BACKSLASH] + tail);
    } else {
      var b := if data[0] == BACKSLASH then data[1] else data[0];
      var after := if data[0] == BACKSLASH then data[2..] else data[1..];
      assert data == EscapeItemByte(b) + after;
      var x: seq<Byte>;
      x, tail := ItemFailsOnlyIf(after, e);
      item := [b] + x;
      EscapeCons(b, x, [BACKSLASH] + tail);
    }
  }

  lemma ListFailsCons(item: seq<Byte>, data: seq<Byte>, e: Error)
    requires CommaList(data) == Bad(e)
    ensures CommaList(EscapeItem(item) + ([COMMA] + data)) == Bad(e)
  {
    ItemInverts(item, [COMMA] + data);
    assert ([COMMA] + data)[1..] == data;
  }

  lemma JoinedBefore(item: seq<Byte>, items: seq<seq<Byte>>, after: seq<Byte>)
    requires items != []
    ensures JoinItems([item] + items) + after == EscapeItem(item) + ([COMMA] + (JoinItems(items) + after))
  {
    JoinCons(item, items);
    var first, more := EscapeItem(item), JoinItems(items);
    assert first + ([COMMA] + more) + after == first + ([COMMA] + (more + after));
  }

  lemma {:induction false} ListFailsIf(items: seq<seq<Byte>>, tail: seq<Byte>, e: Error)
    requires items != [] && BadItemEscape(tail, e)
    ensures CommaList(JoinItems(items) + ([BACKSLASH] + tail)) == Bad(e)
    decreases |items|
  {
    var bad := [BACKSLASH] + tail;
    if |items| == 1 {
      ItemFailsIf(items[0], tail, e);
    } else {
      ListFailsIf(items[1..], tail, e);
      ListFailsCons(items[0], JoinItems(items[1..]) + bad, e);
      JoinedBefore(items[0], items[1..], bad);
      assert items == [items[0]] + items[1..];
    }
  }

  lemma {:induction false} ListFailsOnlyIf(data: seq<Byte>, e: Error) returns (items: seq<seq<Byte>>, tail: seq<Byte>)
    requires CommaList(data) == Bad(e)
    ensures ListFailsBehind(data, e, items, tail)
    decreases |data|
  {
    if Item(data).Err? {
      var item;
      item, tail := ItemFailsOnlyIf(data, e);
      items := [item];
      assert JoinItems(items) == EscapeItem(item);
    } else {
      var item, after := ListGoesOn(data, e);
      var more;
      more, tail := ListFailsOnlyIf(after, e);
      items := [item] + more;
      JoinedBefore(item, more, [BACKSLASH] + tail);
    }
  }

  /** A list that fails behind its first item fails behind the comma. */
  lemma ListGoesOn(data: seq<Byte>, e: Error) returns (item: seq<Byte>, after: seq<Byte>)
    requires CommaList(data) == Bad(e) && Item(data).Ok?
    ensures data == EscapeItem(item) + ([COMMA] + after) && CommaList(after) == Bad(e) && |after| < |data|
  {
    ItemComplete(data);
    var rest := Item(data).rest;
    item, after := Item(data).value, rest[1..];
    assert rest == [COMMA] + after;
  }

  /** A list fails with an error exactly behind well-escaped items, at a backslash that escapes nothing. */
  lemma ListFailsExactly(data: seq<Byte>, e: Error)
    ensures CommaList(data) == Bad(e) <==> exists items, tail :: ListFailsBehind(data, e, items, tail)
  {
    if CommaList(data) == Bad(e) {
      var items, tail := ListFailsOnlyIf(data, e);
    }
    if items, tail :| ListFailsBehind(data, e, items, tail) {
      ListFailsIf(items, tail, e);
    }
  }

  // ---------- The wire ----------

  /** A parameter's bytes: key and length, high byte first, and the data. */
  lemma ParamBytes(p: Param)
    requires Packable(p)
    ensures PackParam(p) == [p.key / 256, p.key % 256, |p.data| / 256, |p.data| % 256] + p.data
  {
  }

  predicate KeyFits(p: Param) {
    0 <= p.key < 0x1_0000
  }

  /** The fault that packing reports is that of the first parameter in sorted order that has one: the length first. */
  lemma {:induction false} FaultExactly(ps: seq<Param>, i: nat)
    ensures i < |ps| && (forall j :: 0 <= j < i ==> KeyFits(ps[j]) && |ps[j].data| < 0x1_0000) ==>
              && (|ps[i].data| >= 0x1_0000 ==> FirstFault(ps) == DataTooLong)
              && (|ps[i].data| < 0x1_0000 && !KeyFits(ps[i]) ==> FirstFault(ps) == KeyOutOfRange)
    decreases i
  {
    if 0 < i < |ps| && forall j :: 0 <= j < i ==> KeyFits(ps[j]) && |ps[j].data| < 0x1_0000 {
      FaultExactly(ps[1..], i - 1);
    }
  }
}
