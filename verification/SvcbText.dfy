/**
 The presentation format of SVCB parameter values: character strings with their
 escapes, and the comma-separated lists nested inside them (Appendix A of
 RFC 9460).
 */
module SvcbText {
  import opened Octets

  const COMMA: Byte := 44
  const BACKSLASH: Byte := 92
  const QUOTE: Byte := 34
  const SPACE: Byte := 32

  datatype Error =
    | UnterminatedEscape
    | InvalidEscape
    | EscapeTooLarge
    | UnterminatedQuote
    | InvalidEscapeCharacter
    | InvalidListCharacter
    | EmptyInput
    | LeftOverData
    | ItemTooLong

  /** A value taken from the front of a buffer, with what is left of the buffer. */
  datatype Parsed<+T> = Ok(value: T, rest: seq<Byte>) | Err(error: Error)

  // ---------- Character classes ----------

  predicate IsItemAllowed(c: Byte) {
    0x00 <= c <= 0x2b || 0x2d <= c <= 0x5b || 0x5d <= c <= 0xff
  }

  predicate IsNonSpecial(c: Byte) {
    c == 0x21 || 0x23 <= c <= 0x27 || 0x2a <= c <= 0x3a || 0x3c <= c <= 0x5b || 0x5d <= c <= 0x7e
  }

  predicate IsNonDigit(c: Byte) {
    0x21 <= c <= 0x2f || 0x3a <= c <= 0x7e
  }

  predicate IsDigit(c: Byte) {
    0x30 <= c <= 0x39
  }

  predicate IsPlain(c: Byte, allowSpace: bool) {
    IsNonSpecial(c) || (c == SPACE && allowSpace)
  }

  // ---------- Character strings ----------

  function DecimalValue(x: Byte, y: Byte, z: Byte): int {
    var a: int, b: int, c: int := x, y, z;
    (a - 0x30) * 100 + (b - 0x30) * 10 + (c - 0x30)
  }

  /** One escape, read after its backslash. */
  function Escaped(data: seq<Byte>): (r: Parsed<Byte>)
    ensures r.Ok? ==> |r.rest| < |data|
  {
    if |data| == 0 then Err(UnterminatedEscape)
    else if IsNonDigit(data[0]) then Ok(data[0], data[1..])
    else if |data| < 3 then Err(UnterminatedEscape)
    else if !(IsDigit(data[0]) && IsDigit(data[1]) && IsDigit(data[2])) then Err(InvalidEscape)
    else
      var v := DecimalValue(data[0], data[1], data[2]);
      if v > 255 then Err(EscapeTooLarge) else Ok(v, data[3..])
  }

  function Prepend<T>(front: seq<T>, p: Parsed<seq<T>>): Parsed<seq<T>> {
    match p
    case Ok(v, rest) => Ok(front + v, rest)
    case Err(e) => Err(e)
  }

  lemma PrependNothing<T>(p: Parsed<seq<T>>)
    ensures Prepend([], p) == p
  {
    if p.Ok? {
      assert [] + p.value == p.value;
    }
  }

  lemma PrependTwice<T>(a: seq<T>, b: seq<T>, p: Parsed<seq<T>>)
    ensures Prepend(a, Prepend(b, p)) == Prepend(a + b, p)
  {
    if p.Ok? {
      assert a + (b + p.value) == (a + b) + p.value;
    }
  }

  /** The longest run of plain and escaped bytes. */
  function Contiguous(data: seq<Byte>, allowSpace: bool): (r: Parsed<seq<Byte>>)
    ensures r.Ok? ==> |r.rest| <= |data|
    decreases |data|
  {
    if data == [] then Ok([], [])
    else if data[0] == BACKSLASH then
      match Escaped(data[1..])
      case Err(e) => Err(e)
      case Ok(b, rest) => Prepend([b], Contiguous(rest, allowSpace))
    else if IsPlain(data[0], allowSpace) then Prepend([data[0]], Contiguous(data[1..], allowSpace))
    else Ok([], data)
  }

  function CharString(data: seq<Byte>): Parsed<seq<Byte>> {
    if data == [] then Err(EmptyInput)
    else if data[0] == QUOTE then
      match Contiguous(data[1..], true)
      case Err(e) => Err(e)
      case Ok(v, rest) => if rest == [] || rest[0] != QUOTE then Err(UnterminatedQuote) else Ok(v, rest[1..])
    else Contiguous(data, false)
  }

  // ---------- Every way of writing a byte ----------

  /** The three ways the grammar lets a byte be written. */
  datatype Piece = Literal(b: Byte) | CharEscape(b: Byte) | DecimalEscape(b: Byte)

  predicate PieceOk(p: Piece, allowSpace: bool) {
    match p
    case Literal(b) => IsPlain(b, allowSpace)
    case CharEscape(b) => IsNonDigit(b)
    case DecimalEscape(_) => true
  }

  function PieceText(p: Piece): seq<Byte> {
    match p
    case Literal(b) => [b]
    case CharEscape(b) => [BACKSLASH, b]
    case DecimalEscape(b) => [BACKSLASH] + Decimal3(b)
  }

  function Decimal3(b: Byte): seq<Byte> {
    [0x30 + b / 100, 0x30 + b / 10 % 10, 0x30 + b % 10]
  }

  ghost predicate PiecesOk(ps: seq<Piece>, allowSpace: bool) {
    forall i :: 0 <= i < |ps| ==> PieceOk(ps[i], allowSpace)
  }

  function Text(ps: seq<Piece>): seq<Byte> {
    if ps == [] then [] else PieceText(ps[0]) + Text(ps[1..])
  }

  function Values(ps: seq<Piece>): seq<Byte> {
    if ps == [] then [] else [ps[0].b] + Values(ps[1..])
  }

  /** Nothing that a character string would go on to read. */
  predicate Stops(rest: seq<Byte>, allowSpace: bool) {
    rest == [] || (rest[0] != BACKSLASH && !IsPlain(rest[0], allowSpace))
  }

  lemma DecimalReads(b: Byte)
    ensures var d := Decimal3(b);
            IsDigit(d[0]) && IsDigit(d[1]) && IsDigit(d[2]) && DecimalValue(d[0], d[1], d[2]) == b
  {
  }

  lemma EscapedInverts(p: Piece, rest: seq<Byte>)
    requires PieceOk(p, true) && !p.Literal?
    ensures Escaped(PieceText(p)[1..] + rest) == Ok(p.b, rest)
  {
    var data := PieceText(p)[1..] + rest;
    match p
    case CharEscape(b) => assert data[1..] == rest;
    case DecimalEscape(b) =>
      DecimalReads(b);
      assert data[0] == Decimal3(b)[0] && data[1] == Decimal3(b)[1] && data[2] == Decimal3(b)[2];
      assert data[3..] == rest;
  }

  lemma ContiguousPiece(p: Piece, after: seq<Byte>, allowSpace: bool)
    requires PieceOk(p, allowSpace)
    ensures Contiguous(PieceText(p) + after, allowSpace) == Prepend([p.b], Contiguous(after, allowSpace))
  {
    var data := PieceText(p) + after;
    if p.Literal? {
      assert data[1..] == after;
    } else {
      assert data[1..] == PieceText(p)[1..] + after;
      EscapedInverts(p, after);
    }
  }

  /** Decoding undoes every way of writing a byte string, and leaves what follows intact. */
  lemma {:induction false} ContiguousInverts(ps: seq<Piece>, rest: seq<Byte>, allowSpace: bool)
    requires PiecesOk(ps, allowSpace) && Stops(rest, allowSpace)
    ensures Contiguous(Text(ps) + rest, allowSpace) == Ok(Values(ps), rest)
  {
    if ps == [] {
      assert Text(ps) + rest == rest;
    } else {
      ContiguousInverts(ps[1..], rest, allowSpace);
      ContiguousPiece(ps[0], Text(ps[1..]) + rest, allowSpace);
      assert Text(ps) + rest == PieceText(ps[0]) + (Text(ps[1..]) + rest);
    }
  }

  lemma DecimalUnique(x: Byte, y: Byte, z: Byte)
    requires IsDigit(x) && IsDigit(y) && IsDigit(z) && DecimalValue(x, y, z) <= 255
    ensures Decimal3(DecimalValue(x, y, z)) == [x, y, z]
  {
    var a: int, b: int, c: int := x, y, z;
    var v := DecimalValue(x, y, z);
    assert v == 10 * (10 * (a - 0x30) + (b - 0x30)) + (c - 0x30);
    assert v / 10 == 10 * (a - 0x30) + (b - 0x30) && v % 10 == c - 0x30;
    assert v / 100 == a - 0x30 && v / 10 % 10 == b - 0x30;
  }

  /** The piece that one escape was written as. */
  lemma EscapedComplete(data: seq<Byte>) returns (p: Piece)
    requires Escaped(data).Ok?
    ensures PieceOk(p, false) && !p.Literal? && p.b == Escaped(data).value
    ensures [BACKSLASH] + data == PieceText(p) + Escaped(data).rest
  {
    var b := Escaped(data).value;
    if IsNonDigit(data[0]) {
      p := CharEscape(b);
      assert data == [data[0]] + data[1..];
    } else {
      p := DecimalEscape(b);
      DecimalUnique(data[0], data[1], data[2]);
      assert data == data[..3] + data[3..];
    }
  }

  /** The first piece of what decoding accepts, unless it stops at once. */
  lemma FirstPiece(data: seq<Byte>, allowSpace: bool) returns (p: Piece, after: seq<Byte>)
    requires Contiguous(data, allowSpace).Ok? && !Stops(data, allowSpace)
    ensures PieceOk(p, allowSpace) && data == PieceText(p) + after && |after| < |data|
  {
    if data[0] == BACKSLASH {
      p := EscapedComplete(data[1..]);
      after := Escaped(data[1..]).rest;
      assert data == [BACKSLASH] + data[1..];
    } else {
      p, after := Literal(data[0]), data[1..];
    }
  }

  /** The pieces ps are a writing of what was decoded from data, up to where decoding had to stop. */
  ghost predicate WrittenAs(data: seq<Byte>, ps: seq<Piece>, value: seq<Byte>, rest: seq<Byte>, allowSpace: bool) {
    PiecesOk(ps, allowSpace) && data == Text(ps) + rest && value == Values(ps) && Stops(rest, allowSpace)
  }

  lemma WrittenAsCons(p: Piece, after: seq<Byte>, ps: seq<Piece>, value: seq<Byte>, rest: seq<Byte>, allowSpace: bool)
    requires PieceOk(p, allowSpace) && WrittenAs(after, ps, value, rest, allowSpace)
    ensures WrittenAs(PieceText(p) + after, [p] + ps, [p.b] + value, rest, allowSpace)
  {
    assert ([p] + ps)[1..] == ps;
    assert PieceText(p) + (Text(ps) + rest) == (PieceText(p) + Text(ps)) + rest;
  }

  /** Whatever decoding accepts was written in one of the grammar's ways. */
  lemma {:induction false} ContiguousComplete(data: seq<Byte>, allowSpace: bool) returns (ps: seq<Piece>)
    requires Contiguous(data, allowSpace).Ok?
    ensures var r := Contiguous(data, allowSpace); WrittenAs(data, ps, r.value, r.rest, allowSpace)
    decreases |data|
  {
    if Stops(data, allowSpace) {
      ps := [];
      assert Text([]) + data == data;
    } else {
      var p, after := FirstPiece(data, allowSpace);
      ContiguousPiece(p, after, allowSpace);
      var r := Contiguous(after, allowSpace);
      var qs := ContiguousComplete(after, allowSpace);
      WrittenAsCons(p, after, qs, r.value, r.rest, allowSpace);
      ps := [p] + qs;
    }
  }

  // ---------- Comma-separated lists ----------

  function Item(data: seq<Byte>): (r: Parsed<seq<Byte>>)
    ensures r.Ok? ==> |r.rest| <= |data|
    decreases |data|
  {
    if data == [] then Ok([], [])
    else if IsItemAllowed(data[0]) then Prepend([data[0]], Item(data[1..]))
    else if data[0] == BACKSLASH then
      if |data| == 1 then Err(UnterminatedEscape)
      else if data[1] == BACKSLASH || data[1] == COMMA then Prepend([data[1]], Item(data[2..]))
      else Err(InvalidEscapeCharacter)
    else Ok([], data)
  }

  datatype List = Items(items: seq<seq<Byte>>) | Bad(error: Error)

  function CommaList(data: seq<Byte>): List
    decreases |data|
  {
    match Item(data)
    case Err(e) => Bad(e)
    case Ok(item, rest) =>
      if rest == [] then Items([item])
      else if rest[0] != COMMA then Bad(InvalidListCharacter)
      else
        match CommaList(rest[1..])
        case Bad(e) => Bad(e)
        case Items(items) => Items([item] + items)
  }

  function EscapeItemByte(b: Byte): seq<Byte> {
    if b == COMMA || b == BACKSLASH then [BACKSLASH, b] else [b]
  }

  function EscapeItem(item: seq<Byte>): seq<Byte> {
    if item == [] then [] else EscapeItemByte(item[0]) + EscapeItem(item[1..])
  }

  function JoinItems(items: seq<seq<Byte>>): seq<Byte>
    requires items != []
  {
    if |items| == 1 then EscapeItem(items[0])
    else EscapeItem(items[0]) + [COMMA] + JoinItems(items[1..])
  }

  lemma ItemPiece(b: Byte, after: seq<Byte>)
    ensures Item(EscapeItemByte(b) + after) == Prepend([b], Item(after))
  {
    var data := EscapeItemByte(b) + after;
    if IsItemAllowed(b) {
      assert data[1..] == after;
    } else {
      assert data[2..] == after;
    }
  }

  lemma {:induction false} ItemInverts(item: seq<Byte>, rest: seq<Byte>)
    requires rest == [] || rest[0] == COMMA
    ensures Item(EscapeItem(item) + rest) == Ok(item, rest)
  {
    if item == [] {
      assert EscapeItem(item) + rest == rest;
      assert Item(rest) == Ok([], rest);
    } else {
      ItemInverts(item[1..], rest);
      ItemPiece(item[0], EscapeItem(item[1..]) + rest);
      EscapeCons(item[0], item[1..], rest);
      assert [item[0]] + item[1..] == item;
    }
  }

  lemma EscapeCons(b: Byte, item: seq<Byte>, rest: seq<Byte>)
    ensures EscapeItem([b] + item) + rest == EscapeItemByte(b) + (EscapeItem(item) + rest)
  {
    assert ([b] + item)[1..] == item;
  }

  lemma {:induction false} ItemComplete(data: seq<Byte>)
    requires Item(data).Ok?
    ensures data == EscapeItem(Item(data).value) + Item(data).rest
    ensures Item(data).rest == [] || Item(data).rest[0] == COMMA
    decreases |data|
  {
    if data != [] {
      if IsItemAllowed(data[0]) {
        ItemComplete(data[1..]);
        assert data == EscapeItemByte(data[0]) + data[1..];
        EscapeCons(data[0], Item(data[1..]).value, Item(data[1..]).rest);
      } else if data[0] == BACKSLASH {
        ItemComplete(data[2..]);
        assert data == EscapeItemByte(data[1]) + data[2..];
        EscapeCons(data[1], Item(data[2..]).value, Item(data[2..]).rest);
      } else {
        assert EscapeItem([]) + data == data;
      }
    }
  }

  lemma ListPiece(item: seq<Byte>, data: seq<Byte>, items: seq<seq<Byte>>)
    requires CommaList(data) == Items(items)
    ensures CommaList(EscapeItem(item) + ([COMMA] + data)) == Items([item] + items)
  {
    ItemInverts(item, [COMMA] + data);
    assert ([COMMA] + data)[1..] == data;
  }

  /** Decoding undoes escape-and-join for every non-empty list of byte strings. */
  lemma {:induction false} ListDecodeInverts(items: seq<seq<Byte>>)
    requires items != []
    ensures CommaList(JoinItems(items)) == Items(items)
    decreases |items|
  {
    if |items| == 1 {
      ItemInverts(items[0], []);
      assert EscapeItem(items[0]) + [] == EscapeItem(items[0]);
      assert items == [items[0]];
    } else {
      ListDecodeInverts(items[1..]);
      ListPiece(items[0], JoinItems(items[1..]), items[1..]);
      JoinCons(items[0], items[1..]);
      assert items == [items[0]] + items[1..];
    }
  }

  lemma JoinCons(item: seq<Byte>, items: seq<seq<Byte>>)
    requires items != []
    ensures JoinItems([item] + items) == EscapeItem(item) + ([COMMA] + JoinItems(items))
  {
    var all := [item] + items;
    assert all[0] == item && all[1..] == items;
  }

  /** A decoded list starts with a decoded item, and goes on behind its comma. */
  lemma FirstItem(data: seq<Byte>)
    requires CommaList(data).Items?
    ensures Item(data).Ok?
    ensures var item, rest := Item(data).value, Item(data).rest;
            if rest == [] then CommaList(data) == Items([item]) && data == EscapeItem(item)
            else CommaList(rest[1..]).Items? && CommaList(data) == Items([item] + CommaList(rest[1..]).items)
                 && data == EscapeItem(item) + ([COMMA] + rest[1..])
  {
    ItemComplete(data);
    var item, rest := Item(data).value, Item(data).rest;
    if rest == [] {
      assert EscapeItem(item) + rest == EscapeItem(item);
    } else {
      assert rest == [COMMA] + rest[1..];
    }
  }

  /** Re-encoding any accepted input gives the same bytes. */
  lemma {:induction false} ListDecodeInjective(data: seq<Byte>)
    requires CommaList(data).Items?
    ensures CommaList(data).items != [] && JoinItems(CommaList(data).items) == data
    decreases |data|
  {
    FirstItem(data);
    var item, rest := Item(data).value, Item(data).rest;
    if rest != [] {
      ListDecodeInjective(rest[1..]);
      JoinCons(item, CommaList(rest[1..]).items);
    }
  }

  /** No input meets the list-character error. */
  lemma {:induction false} ListCharacterNeverInvalid(data: seq<Byte>)
    ensures CommaList(data) != Bad(InvalidListCharacter)
    decreases |data|
  {
    ItemErrors(data);
    if Item(data).Ok? {
      ItemComplete(data);
      if Item(data).rest != [] {
        ListCharacterNeverInvalid(Item(data).rest[1..]);
      }
    }
  }

  lemma {:induction false} ItemErrors(data: seq<Byte>)
    ensures Item(data).Err? ==> Item(data).error == UnterminatedEscape || Item(data).error == InvalidEscapeCharacter
    decreases |data|
  {
    if data != [] {
      if IsItemAllowed(data[0]) {
        ItemErrors(data[1..]);
      } else if data[0] == BACKSLASH && |data| > 1 {
        ItemErrors(data[2..]);
      }
    }
  }

  // ---------- ALPN lists: both layers ----------

  const MAX_ALPN_LENGTH := 255

  function FromText(data: seq<Byte>): List {
    match CharString(data)
    case Err(e) => Bad(e)
    case Ok(value, rest) =>
      if rest != [] then Bad(LeftOverData)
      else
        match CommaList(value)
        case Bad(e) => Bad(e)
        case Items(items) =>
          if exists i :: 0 <= i < |items| && |items[i]| > MAX_ALPN_LENGTH then Bad(ItemTooLong) else Items(items)
  }

  ghost predicate ShortItems(items: seq<seq<Byte>>) {
    forall i :: 0 <= i < |items| ==> |items[i]| <= MAX_ALPN_LENGTH
  }

  function Quoted(ps: seq<Piece>): seq<Byte> {
    [QUOTE] + Text(ps) + [QUOTE]
  }

  lemma QuotedInverts(ps: seq<Piece>, rest: seq<Byte>)
    requires PiecesOk(ps, true)
    ensures CharString(Quoted(ps) + rest) == Ok(Values(ps), rest)
  {
    var data := Quoted(ps) + rest;
    assert data[1..] == Text(ps) + ([QUOTE] + rest);
    ContiguousInverts(ps, [QUOTE] + rest, true);
    assert ([QUOTE] + rest)[1..] == rest;
  }

  /**
   Reading an ALPN value inverts the two nested escapings, however the outer
   one was written, for every non-empty list of items of at most 255 bytes; a
   longer item is refused.
   */
  lemma AlpnTextRoundTrip(items: seq<seq<Byte>>, ps: seq<Piece>)
    requires items != [] && PiecesOk(ps, true) && Values(ps) == JoinItems(items)
    ensures FromText(Quoted(ps)) == if ShortItems(items) then Items(items) else Bad(ItemTooLong)
  {
    QuotedInverts(ps, []);
    assert Quoted(ps) + [] == Quoted(ps);
    ListDecodeInverts(items);
  }

  /** Such a writing exists for every byte string: escape every byte that is not plain. */
  function EscapeAll(bs: seq<Byte>): (ps: seq<Piece>)
    ensures PiecesOk(ps, false) && Values(ps) == bs
  {
    if bs == [] then []
    else
      var p := if IsNonSpecial(bs[0]) then Literal(bs[0]) else DecimalEscape(bs[0]);
      var ps := [p] + EscapeAll(bs[1..]);
      assert ps[1..] == EscapeAll(bs[1..]);
      ps
  }
}
