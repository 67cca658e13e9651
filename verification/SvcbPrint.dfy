/**
 The repository's own printer of opaque parameter values, read back by its own
 decoder. The printer writes an unpadded decimal escape and leaves every
 printable byte alone, so it does not round-trip in general; this module says
 exactly when it does.
 */
module SvcbPrint {
  import opened Octets
  import opened SvcbText

  function Digits(n: nat): seq<Byte> {
    if n < 10 then [0x30 + n] else Digits(n / 10) + [0x30 + n % 10]
  }

  /** `OctetParamData.__repr__` on one byte: the decimal escape is not padded. */
  function PrintByte(b: Byte): seq<Byte> {
    if 32 <= b <= 126 then [b] else [BACKSLASH] + Digits(b)
  }

  function Print(bs: seq<Byte>): seq<Byte> {
    if bs == [] then [] else PrintByte(bs[0]) + Print(bs[1..])
  }

  predicate PrintsSafely(b: Byte) {
    IsNonSpecial(b) || b >= 127
  }

  lemma PrintSafeByte(b: Byte)
    requires PrintsSafely(b)
    ensures PrintByte(b) == PieceText(if b >= 127 then DecimalEscape(b) else Literal(b))
  {
    if b >= 127 {
      assert Digits(b / 10) == Digits(b / 100) + [0x30 + b / 10 % 10];
      assert Digits(b) == Decimal3(b);
    }
  }

  function SafePieces(bs: seq<Byte>): seq<Piece> {
    seq(|bs|, i requires 0 <= i < |bs| => if bs[i] >= 127 then DecimalEscape(bs[i]) else Literal(bs[i]))
  }

  lemma {:induction false} PrintIsText(bs: seq<Byte>)
    requires forall i :: 0 <= i < |bs| ==> PrintsSafely(bs[i])
    ensures Print(bs) == Text(SafePieces(bs)) && Values(SafePieces(bs)) == bs
  {
    if bs != [] {
      PrintSafeByte(bs[0]);
      PrintIsText(bs[1..]);
      var ps := SafePieces(bs);
      assert ps[1..] == SafePieces(bs[1..]);
      assert Text(ps) == PieceText(ps[0]) + Text(ps[1..]) && Values(ps) == [bs[0]] + Values(ps[1..]);
    }
  }

  /** A non-empty string of safe bytes reads back, and what follows it is left. */
  lemma PrintRoundTrip(bs: seq<Byte>, rest: seq<Byte>)
    requires bs != [] && forall i :: 0 <= i < |bs| ==> PrintsSafely(bs[i])
    requires Stops(rest, false)
    ensures CharString(Print(bs) + rest) == Ok(bs, rest)
  {
    PrintIsText(bs);
    ContiguousInverts(SafePieces(bs), rest, false);
    assert (Print(bs) + rest)[0] == PrintByte(bs[0])[0] != QUOTE;
  }

  // ---------- When the printed form does not read back ----------

  lemma DigitsShape(b: Byte)
    ensures 1 <= |Digits(b)| <= 3 && (b < 32 ==> |Digits(b)| <= 2)
    ensures forall i :: 0 <= i < |Digits(b)| ==> IsDigit(Digits(b)[i])
  {
    if 10 <= b {
      assert Digits(b) == Digits(b / 10) + [0x30 + b % 10];
      if 100 <= b {
        assert Digits(b / 10) == Digits(b / 100) + [0x30 + b / 10 % 10];
      }
    }
  }

  /** Printed text that goes on with a digit goes on with a digit byte printed as itself. */
  lemma DigitComesFromDigit(bs: seq<Byte>)
    requires Print(bs) != [] && IsDigit(Print(bs)[0])
    ensures bs != [] && IsDigit(bs[0]) && Print(bs) == [bs[0]] + Print(bs[1..])
  {
  }

  lemma {:induction false} DigitsRead(ds: seq<Byte>, after: seq<Byte>, allowSpace: bool)
    requires forall i :: 0 <= i < |ds| ==> IsDigit(ds[i])
    ensures Contiguous(ds + after, allowSpace) == Prepend(ds, Contiguous(after, allowSpace))
  {
    if ds == [] {
      assert ds + after == after;
      PrependNothing(Contiguous(after, allowSpace));
    } else {
      DigitsRead(ds[1..], after, allowSpace);
      assert (ds + after)[1..] == ds[1..] + after;
      PrependTwice([ds[0]], ds[1..], Contiguous(after, allowSpace));
      assert [ds[0]] + ds[1..] == ds;
    }
  }

  /** Inside quotes a space is read as itself, too. */
  predicate ReadsSafely(b: Byte, allowSpace: bool) {
    PrintsSafely(b) || (allowSpace && b == SPACE)
  }

  /** Decoding bs's text takes its first u bytes to be the bytes o. */
  ghost predicate ReadsAs(bs: seq<Byte>, u: nat, o: seq<Byte>, allowSpace: bool) {
    1 <= u <= |bs| && Contiguous(Print(bs), allowSpace) == Prepend(o, Contiguous(Print(bs[u..]), allowSpace))
  }

  predicate Faithful(bs: seq<Byte>, u: nat, o: seq<Byte>, allowSpace: bool) {
    1 == u <= |bs| && ReadsSafely(bs[0], allowSpace) && o == [bs[0]]
  }

  /** Several bytes are taken for one. */
  predicate Swallowed(bs: seq<Byte>, u: nat, o: seq<Byte>) {
    |o| == 1 < u <= |bs|
  }

  /** A backslash escapes the next byte's own escape, whose digits then stand for themselves. */
  predicate Exposed(bs: seq<Byte>, u: nat, o: seq<Byte>) {
    2 == u <= |bs| && bs[0] == BACKSLASH && !(32 <= bs[1] <= 126) && o == [BACKSLASH] + Digits(bs[1])
  }

  lemma SafeUnit(bs: seq<Byte>, allowSpace: bool)
    requires bs != [] && ReadsSafely(bs[0], allowSpace)
    ensures ReadsAs(bs, 1, [bs[0]], allowSpace)
  {
    if PrintsSafely(bs[0]) {
      PrintSafeByte(bs[0]);
    }
    ContiguousPiece(if bs[0] >= 127 then DecimalEscape(bs[0]) else Literal(bs[0]), Print(bs[1..]), allowSpace);
  }

  lemma ExposedText(bs: seq<Byte>)
    requires |bs| >= 2 && bs[0] == BACKSLASH && !(32 <= bs[1] <= 126)
    ensures Print(bs) == PieceText(CharEscape(BACKSLASH)) + (Digits(bs[1]) + Print(bs[2..]))
  {
    var tail := bs[1..];
    assert tail[1..] == bs[2..];
    assert Print(bs) == [BACKSLASH] + Print(tail);
    Backslashes(Digits(bs[1]), Print(bs[2..]));
  }

  lemma Backslashes(ds: seq<Byte>, after: seq<Byte>)
    ensures [BACKSLASH] + ([BACKSLASH] + ds + after) == [BACKSLASH, BACKSLASH] + (ds + after)
  {
  }

  lemma ExposedUnit(bs: seq<Byte>, allowSpace: bool)
    requires |bs| >= 2 && bs[0] == BACKSLASH && !(32 <= bs[1] <= 126)
    ensures ReadsAs(bs, 2, [BACKSLASH] + Digits(bs[1]), allowSpace)
  {
    var after, ds := Print(bs[2..]), Digits(bs[1]);
    ExposedText(bs);
    ContiguousPiece(CharEscape(BACKSLASH), ds + after, allowSpace);
    DigitsShape(bs[1]);
    DigitsRead(ds, after, allowSpace);
    PrependTwice([BACKSLASH], ds, Contiguous(after, allowSpace));
  }

  /** A backslash byte before a printable one that is not a digit. */
  lemma EscapingUnit(bs: seq<Byte>, allowSpace: bool)
    requires |bs| >= 2 && bs[0] == BACKSLASH && IsNonDigit(bs[1])
    ensures ReadsAs(bs, 2, [bs[1]], allowSpace)
  {
    assert bs[1..][1..] == bs[2..];
    assert Print(bs) == PieceText(CharEscape(bs[1])) + Print(bs[2..]);
    ContiguousPiece(CharEscape(bs[1]), Print(bs[2..]), allowSpace);
  }

  /** Digit bytes that a short escape goes on to read. */
  lemma {:induction false} TakenDigits(bs: seq<Byte>, n: nat)
    requires n <= |Print(bs)| && forall i :: 0 <= i < n ==> IsDigit(Print(bs)[i])
    ensures n <= |bs| && Print(bs)[n..] == Print(bs[n..])
  {
    if n == 0 {
      assert bs[0..] == bs;
    } else {
      DigitComesFromDigit(bs);
      var tail := bs[1..];
      assert Print(tail) == Print(bs)[1..];
      TakenDigits(tail, n - 1);
      assert tail[n - 1..] == bs[n..];
      assert Print(bs)[n..] == Print(tail)[n - 1..];
    }
  }

  lemma ThreeDigits(ds: seq<Byte>, after: seq<Byte>)
    requires |ds| < 3
    requires var text := ds + after; text != [] && !IsNonDigit(text[0]) && Escaped(text).Ok?
    ensures var n := 3 - |ds|; n <= |after| && Escaped(ds + after).rest == after[n..]
    ensures forall i :: 0 <= i < 3 - |ds| ==> IsDigit(after[i])
  {
    var text := ds + after;
    assert text[3..] == after[3 - |ds|..];
    assert forall i :: 0 <= i < 3 - |ds| ==> after[i] == text[|ds| + i];
  }

  /** An escape with fewer than three digits of its own takes the rest from the digit bytes after it. */
  lemma ShortEscape(ds: seq<Byte>, tail: seq<Byte>)
    requires |ds| < 3
    requires var text := ds + Print(tail); text != [] && !IsNonDigit(text[0]) && Escaped(text).Ok?
    ensures var n := 3 - |ds|; n <= |tail| && Escaped(ds + Print(tail)).rest == Print(tail[n..])
  {
    ThreeDigits(ds, Print(tail));
    TakenDigits(tail, 3 - |ds|);
  }

  /** A short escape, or a bare backslash before digits, swallows the digit bytes after it. */
  lemma SwallowingUnit(bs: seq<Byte>, ds: seq<Byte>, allowSpace: bool) returns (u: nat, o: seq<Byte>)
    requires bs != [] && PrintByte(bs[0]) == [BACKSLASH] + ds
    requires |ds| < 3
    requires var text := ds + Print(bs[1..]); text != [] && !IsNonDigit(text[0])
    requires Contiguous(Print(bs), allowSpace).Ok?
    ensures Swallowed(bs, u, o) && ReadsAs(bs, u, o, allowSpace)
  {
    var text := ds + Print(bs[1..]);
    assert Print(bs)[1..] == text;
    ShortEscape(ds, bs[1..]);
    u, o := 4 - |ds|, [Escaped(text).value];
    assert bs[1..][3 - |ds|..] == bs[u..];
  }

  lemma BareBackslash(bs: seq<Byte>, allowSpace: bool)
    requires bs != [] && 32 <= bs[0] <= 126 && !IsPlain(bs[0], allowSpace)
    requires |bs| >= 2 ==> 32 <= bs[1] <= 126 && !IsNonDigit(bs[1])
    requires Contiguous(Print(bs), allowSpace).Ok? && !Stops(Print(bs), allowSpace)
    ensures bs[0] == BACKSLASH && |bs| >= 2
    ensures var text := [] + Print(bs[1..]); text != [] && !IsNonDigit(text[0])
  {
    assert Print(bs) == [bs[0]] + Print(bs[1..]);
    assert Print(bs)[1..] == Print(bs[1..]);
  }

  /** Printed text is read unit by unit, unless decoding stops at once. */
  lemma FirstUnit(bs: seq<Byte>, allowSpace: bool) returns (u: nat, o: seq<Byte>)
    requires bs != [] && Contiguous(Print(bs), allowSpace).Ok? && !Stops(Print(bs), allowSpace)
    ensures ReadsAs(bs, u, o, allowSpace)
    ensures Faithful(bs, u, o, allowSpace) || Swallowed(bs, u, o) || Exposed(bs, u, o)
  {
    if ReadsSafely(bs[0], allowSpace) {
      SafeUnit(bs, allowSpace);
      u, o := 1, [bs[0]];
    } else if bs[0] == BACKSLASH && |bs| >= 2 && IsNonDigit(bs[1]) {
      EscapingUnit(bs, allowSpace);
      u, o := 2, [bs[1]];
    } else if bs[0] == BACKSLASH && |bs| >= 2 && !(32 <= bs[1] <= 126) {
      ExposedUnit(bs, allowSpace);
      u, o := 2, [BACKSLASH] + Digits(bs[1]);
    } else if bs[0] < 32 {
      DigitsShape(bs[0]);
      u, o := SwallowingUnit(bs, Digits(bs[0]), allowSpace);
    } else {
      BareBackslash(bs, allowSpace);
      u, o := SwallowingUnit(bs, [], allowSpace);
    }
  }

  /** What an exposed escape leaves owing is never nothing. */
  lemma ExposedOwes(owed: seq<Byte>, bs: seq<Byte>, u: nat, o: seq<Byte>, more: seq<Byte>)
    requires Exposed(bs, u, o) && o + more == owed + bs
    ensures |o| < |owed| + u
  {
    DigitsShape(bs[1]);
    assert (o + more)[1] == (owed + bs)[1];
    assert (owed + bs)[|owed|] == bs[0];
    assert |owed| < |o| ==> (o + more)[|owed|] == o[|owed|];
  }

  lemma StillOwed(owed: seq<Byte>, bs: seq<Byte>, u: nat, o: seq<Byte>, more: seq<Byte>)
    requires u <= |bs| && |o| <= |owed| + u && o + more == owed + bs
    ensures more == (owed + bs[..u])[|o|..] + bs[u..]
  {
    var due := owed + bs[..u];
    assert owed + bs == due + bs[u..];
    assert (o + more)[|o|..] == more;
    assert (due + bs[u..])[|o|..] == due[|o|..] + bs[u..];
  }

  /**
   The decoder never catches up: once it owes bytes (owed) that it has not
   produced, or is about to misread one, it does not produce the bytes printed,
   whatever it leaves behind.
   */
  lemma {:induction false} NeverCatchesUp(owed: seq<Byte>, bs: seq<Byte>, allowSpace: bool)
    requires owed != [] || (bs != [] && !ReadsSafely(bs[0], allowSpace))
    ensures var r := Contiguous(Print(bs), allowSpace); r.Ok? ==> r.value != owed + bs
    decreases |bs|
  {
    var r := Contiguous(Print(bs), allowSpace);
    if bs != [] && r.Ok? && r.value == owed + bs {
      assert !Stops(Print(bs), allowSpace);
      var u, o := FirstUnit(bs, allowSpace);
      var after := bs[u..];
      var more := Contiguous(Print(after), allowSpace).value;
      assert o + more == owed + bs;
      if Exposed(bs, u, o) {
        ExposedOwes(owed, bs, u, o, more);
      }
      assert |o| <= |owed| + u;
      StillOwed(owed, bs, u, o, more);
      NeverCatchesUp((owed + bs[..u])[|o|..], after, allowSpace);
    }
  }

  /** Read as a bare string, a printed string comes back exactly when every byte prints safely. */
  lemma {:induction false} BareExact(bs: seq<Byte>)
    ensures Contiguous(Print(bs), false) == Ok(bs, []) <==> forall i :: 0 <= i < |bs| ==> PrintsSafely(bs[i])
  {
    if bs != [] {
      var tail := bs[1..];
      if PrintsSafely(bs[0]) {
        BareExact(tail);
        SafeUnit(bs, false);
        assert bs == [bs[0]] + tail;
        assert forall i :: 0 <= i < |tail| ==> tail[i] == bs[i + 1];
      } else {
        NeverCatchesUp([], bs, false);
        assert [] + bs == bs;
      }
    }
  }

  /** A string that starts with a quote is read as a quoted one, and never comes back. */
  lemma QuoteNeverReadsBack(bs: seq<Byte>)
    requires bs != [] && bs[0] == QUOTE
    ensures CharString(Print(bs)).Ok? ==> CharString(Print(bs)).value != bs
  {
    var tail := bs[1..];
    assert Print(bs)[1..] == Print(tail);
    NeverCatchesUp([QUOTE], tail, true);
    assert [QUOTE] + tail == bs;
  }

  /**
   A byte string reads back from its printed form exactly when it is not empty
   and every byte is non-special or at least 127.
   */
  lemma PrintRoundTripExact(bs: seq<Byte>)
    ensures CharString(Print(bs)) == Ok(bs, []) <==> bs != [] && forall i :: 0 <= i < |bs| ==> PrintsSafely(bs[i])
  {
    if bs != [] {
      if bs[0] == QUOTE {
        QuoteNeverReadsBack(bs);
      } else {
        BareExact(bs);
        assert Print(bs)[0] == PrintByte(bs[0])[0] != QUOTE;
      }
    }
  }
}
