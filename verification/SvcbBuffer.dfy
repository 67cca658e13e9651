/**
 The decoders as the source runs them: loops that take bytes off the front of
 one mutable buffer, proved against the functions of SvcbText.
 */
module SvcbBuffer {
  import opened Octets
  import opened SvcbText

  class ByteBuffer {
    var data: seq<Byte>

    constructor (data: seq<Byte>)
      ensures this.data == data
    {
      this.data := data;
    }

    method Pop() returns (c: Byte)
      requires data != []
      modifies this
      ensures c == old(data)[0] && data == old(data)[1..]
    {
      c := data[0];
      data := data[1..];
    }

    method DecodeEscaped() returns (r: Parsed<Byte>)
      modifies this
      ensures r == Escaped(old(data))
      ensures r.Ok? ==> data == r.rest
    {
      if data == [] {
        return Err(UnterminatedEscape);
      }
      var f := Pop();
      if IsNonDigit(f) {
        return Ok(f, data);
      }
      if |data| < 2 {
        return Err(UnterminatedEscape);
      }
      var d2 := Pop();
      var d3 := Pop();
      assert old(data)[3..] == data;
      if !(IsDigit(f) && IsDigit(d2) && IsDigit(d3)) {
        return Err(InvalidEscape);
      }
      var val := DecimalValue(f, d2, d3);
      if val > 255 {
        return Err(EscapeTooLarge);
      }
      r := Ok(val, data);
    }

    method DecodeContiguous(allowSpace: bool) returns (r: Parsed<seq<Byte>>)
      modifies this
      ensures r == Contiguous(old(data), allowSpace)
      ensures r.Ok? ==> data == r.rest
    {
      var out: seq<Byte> := [];
      PrependNothing(Contiguous(data, allowSpace));
      while data != []
        invariant Contiguous(old(data), allowSpace) == Prepend(out, Contiguous(data, allowSpace))
        decreases |data|
      {
        ghost var before := data;
        ghost var outBefore := out;
        var c := Pop();
        if c == BACKSLASH {
          var e := DecodeEscaped();
          if e.Err? {
            return Err(e.error);
          }
          out := out + [e.value];
          PrependTwice(outBefore, [e.value], Contiguous(data, allowSpace));
        } else if IsPlain(c, allowSpace) {
          out := out + [c];
          PrependTwice(outBefore, [c], Contiguous(data, allowSpace));
        } else {
          data := [c] + data;
          assert data == before;
          break;
        }
      }
      assert out + [] == out;
      r := Ok(out, data);
    }

    method DecodeCharString() returns (r: Parsed<seq<Byte>>)
      modifies this
      ensures r == CharString(old(data))
      ensures r.Ok? ==> data == r.rest
    {
      if data == [] {
        return Err(EmptyInput);
      }
      if data[0] == QUOTE {
        var _ := Pop();
        r := DecodeContiguous(true);
        if r.Ok? {
          if data == [] {
            return Err(UnterminatedQuote);
          }
          var c := Pop();
          if c != QUOTE {
            return Err(UnterminatedQuote);
          }
          r := Ok(r.value, data);
        }
      } else {
        r := DecodeContiguous(false);
      }
    }

    method DecodeItem() returns (r: Parsed<seq<Byte>>)
      modifies this
      ensures r == Item(old(data))
      ensures r.Ok? ==> data == r.rest
    {
      var out: seq<Byte> := [];
      PrependNothing(Item(data));
      while data != []
        invariant Item(old(data)) == Prepend(out, Item(data))
        decreases |data|
      {
        ghost var before := data;
        ghost var outBefore := out;
        var c := Pop();
        if IsItemAllowed(c) {
          out := out + [c];
          PrependTwice(outBefore, [c], Item(data));
        } else if c == BACKSLASH {
          if data == [] {
            return Err(UnterminatedEscape);
          }
          c := Pop();
          assert before[2..] == data;
          if c == BACKSLASH || c == COMMA {
            out := out + [c];
            PrependTwice(outBefore, [c], Item(data));
          } else {
            return Err(InvalidEscapeCharacter);
          }
        } else {
          data := [c] + data;
          assert data == before;
          break;
        }
      }
      assert out + [] == out;
      r := Ok(out, data);
    }

    method DecodeCommaList() returns (r: List)
      modifies this
      ensures r == CommaList(old(data))
    {
      var out: seq<seq<Byte>> := [];
      assert CommaList(data).Items? ==> [] + CommaList(data).items == CommaList(data).items;
      while true
        invariant CommaList(old(data)) == PrependItems(out, CommaList(data))
        decreases |data|
      {
        ghost var before := data;
        var item := DecodeItem();
        if item.Err? {
          return Bad(item.error);
        }
        ghost var outBefore := out;
        out := out + [item.value];
        if data == [] {
          break;
        }
        var c := Pop();
        if c != COMMA {
          return Bad(InvalidListCharacter);
        }
        PrependItemsTwice(outBefore, item.value, CommaList(data));
      }
      r := Items(out);
    }
  }

  function PrependItems(front: seq<seq<Byte>>, l: List): List {
    match l
    case Items(items) => Items(front + items)
    case Bad(e) => Bad(e)
  }

  lemma PrependItemsTwice(out: seq<seq<Byte>>, item: seq<Byte>, l: List)
    ensures PrependItems(out, PrependItems([item], l)) == PrependItems(out + [item], l)
  {
    if l.Items? {
      assert out + ([item] + l.items) == (out + [item]) + l.items;
    }
  }

  /** `ALPNData.from_str` on the encoded text. */
  method AlpnFromText(text: seq<Byte>) returns (r: List)
    ensures r == FromText(text)
  {
    var buffer := new ByteBuffer(text);
    var value := buffer.DecodeCharString();
    if value.Err? {
      return Bad(value.error);
    }
    if buffer.data != [] {
      return Bad(LeftOverData);
    }
    var inner := new ByteBuffer(value.value);
    r := inner.DecodeCommaList();
    if r.Items? {
      for i := 0 to |r.items|
        invariant forall j :: 0 <= j < i ==> |r.items[j]| <= MAX_ALPN_LENGTH
      {
        if |r.items[i]| > MAX_ALPN_LENGTH {
          return Bad(ItemTooLong);
        }
      }
    }
  }
}
