/**
 The record lines that the zone generator writes, `name ttl IN TYPE data`, parse
 back to exactly the records they were written for.
 */
module ZoneRender {
  import opened Names
  import opened ZoneFile
  import opened ZoneLines
  import opened ZoneRefinement
  import opened ZoneSets

  const CLASS_IN: nat := 1

  /** The fields of one line, as text. */
  datatype Written = Written(owner: string, ttl: string, rtype: string, parts: seq<string>)

  function PartTokens(parts: seq<string>): seq<Token> {
    if parts == [] then [] else [CharData(parts[0])] + PartTokens(parts[1..])
  }

  function OwnerToken(w: Written): Token {
    if w.owner == "@" then At else CharData(w.owner)
  }

  /** The tokens of a line, followed by others. */
  function LineThen(w: Written, rest: seq<Token>): seq<Token> {
    [OwnerToken(w)]
    + ([CharData(w.ttl)] + ([CharData("IN")] + ([CharData(w.rtype)] + (PartTokens(w.parts) + [EOL] + rest))))
  }

  function RenderAll(ws: seq<Written>): seq<Token> {
    if ws == [] then [] else LineThen(ws[0], RenderAll(ws[1..]))
  }

  /** The generator grows the file line by line. */
  method Render(ws: seq<Written>) returns (tokens: seq<Token>)
    ensures tokens == RenderAll(ws)
  {
    tokens := [];
    for i := 0 to |ws|
      invariant tokens == RenderAll(ws[..i])
    {
      RenderSnoc(ws[..i], ws[i]);
      assert ws[..i + 1] == ws[..i] + [ws[i]];
      tokens := tokens + LineThen(ws[i], []);
    }
    assert ws[..|ws|] == ws;
  }

  lemma LineThenMore(w: Written, x: seq<Token>, y: seq<Token>)
    ensures LineThen(w, x) + y == LineThen(w, x + y)
  {
    assert PartTokens(w.parts) + [EOL] + x + y == PartTokens(w.parts) + [EOL] + (x + y);
  }

  lemma {:induction false} RenderSnoc(ws: seq<Written>, w: Written)
    ensures RenderAll(ws + [w]) == RenderAll(ws) + LineThen(w, [])
  {
    if ws == [] {
      assert (ws + [w])[1..] == [];
    } else {
      RenderSnoc(ws[1..], w);
      assert (ws + [w])[0] == ws[0] && (ws + [w])[1..] == ws[1..] + [w];
      LineThenMore(ws[0], RenderAll(ws[1..]), LineThen(w, []));
    }
  }

  /** The library reads the line's words as what they were written for. */
  predicate Writable(lib: Library, w: Written, origin: Name) {
    && Classify(lib, "IN") == ClassWord(CLASS_IN)
    && Classify(lib, w.ttl).TimeWord?
    && Classify(lib, w.rtype) == TypeWord(w.rtype)
    && w.rtype != SOA && w.rtype != "KEY" && w.rtype != "NSEC"
    && (w.owner == "@" || lib.parseName(w.owner, Some(origin)).Some?)
    && lib.parseRdata(w.rtype, w.parts, origin).Some?
  }

  function RecordFor(lib: Library, w: Written, origin: Name): Record
    requires Writable(lib, w, origin)
  {
    Record(if w.owner == "@" then origin else lib.parseName(w.owner, Some(origin)).value,
           w.rtype, CLASS_IN, Classify(lib, w.ttl).time, lib.parseRdata(w.rtype, w.parts, origin).value)
  }

  function LineFor(lib: Library, w: Written): Line {
    Entry(if w.owner == "@" then AtOrigin else Named(w.owner),
          [Classify(lib, w.ttl), ClassWord(CLASS_IN)], Some(Body(w.rtype, w.parts)))
  }

  /** With the parser's own type table: the words of a line mean what they were written for. */
  lemma TableWrites(lib: Library, w: Written, origin: Name)
    requires TableWord(lib, w, origin)
    ensures Writable(WithTypeTable(lib), w, origin)
  {
    assert Upper("IN") == "IN" && AllLetters("IN");
  }

  /** Times and classes are told from types, and the fields can be read. */
  predicate TableWord(lib: Library, w: Written, origin: Name) {
    && lib.parseTime("IN").None? && lib.parseClass("IN") == Some(CLASS_IN) && lib.parseTime(w.ttl).Some?
    && w.rtype in KNOWN_TYPES && UpperWord(w.rtype) && w.rtype != SOA && w.rtype != "KEY" && w.rtype != "NSEC"
    && lib.parseTime(w.rtype).None? && lib.parseClass(w.rtype).None?
    && (w.owner == "@" || lib.parseName(w.owner, Some(origin)).Some?)
    && lib.parseRdata(w.rtype, w.parts, origin).Some?
  }

  /** A word without lower-case letters that is not the asterisk. */
  predicate UpperWord(s: string) {
    s != "" && s[0] != '*' && Upper(s) == s
  }

  // ---------- Reading a written line ----------

  lemma {:induction false} ReadPartTokens(parts: seq<string>, rest: seq<Token>)
    ensures ReadParts(PartTokens(parts) + [EOL] + rest) == Parts(parts, rest)
  {
    var tokens := PartTokens(parts) + [EOL] + rest;
    if parts == [] {
      assert tokens[0] == EOL && tokens[1..] == rest;
    } else {
      ReadPartTokens(parts[1..], rest);
      assert tokens[0] == CharData(parts[0]);
      assert tokens[1..] == PartTokens(parts[1..]) + [EOL] + rest;
      assert parts == [parts[0]] + parts[1..];
    }
  }

  lemma ReadTypeWord(lib: Library, w: Written, rest: seq<Token>)
    requires Classify(lib, w.rtype) == TypeWord(w.rtype)
    ensures ReadWords(lib, [CharData(w.rtype)] + (PartTokens(w.parts) + [EOL] + rest)) ==
            Words([], Some(Body(w.rtype, w.parts)), rest)
  {
    var tokens := [CharData(w.rtype)] + (PartTokens(w.parts) + [EOL] + rest);
    assert tokens[1..] == PartTokens(w.parts) + [EOL] + rest;
    ReadPartTokens(w.parts, rest);
  }

  lemma ReadWordCons(lib: Library, text: string, tokens: seq<Token>)
    requires Classify(lib, text).TimeWord? || Classify(lib, text).ClassWord?
    requires ReadWords(lib, tokens).Words?
    ensures var r := ReadWords(lib, tokens);
            ReadWords(lib, [CharData(text)] + tokens) == Words([Classify(lib, text)] + r.words, r.body, r.rest)
  {
    assert ([CharData(text)] + tokens)[1..] == tokens;
  }

  lemma ReadWritten(lib: Library, w: Written, rest: seq<Token>, origin: Name)
    requires Writable(lib, w, origin)
    ensures ReadLine(lib, LineThen(w, rest)) == Read(LineFor(lib, w), rest)
  {
    var typed := [CharData(w.rtype)] + (PartTokens(w.parts) + [EOL] + rest);
    var classed := [CharData("IN")] + typed;
    var timed := [CharData(w.ttl)] + classed;
    ReadTypeWord(lib, w, rest);
    ReadWordCons(lib, "IN", typed);
    ReadWordCons(lib, w.ttl, classed);
    assert [Classify(lib, w.ttl)] + ([ClassWord(CLASS_IN)] + []) == LineFor(lib, w).words;
    var tokens := LineThen(w, rest);
    assert tokens[0] == OwnerToken(w) && tokens[1..] == timed;
  }

  function LinesFor(lib: Library, ws: seq<Written>): seq<Line> {
    seq(|ws|, i requires 0 <= i < |ws| => LineFor(lib, ws[i]))
  }

  lemma ReadOneMore(lib: Library, w: Written, rest: seq<Token>, lines: seq<Line>, origin: Name)
    requires Writable(lib, w, origin) && ReadLines(lib, rest) == Some(lines)
    ensures ReadLines(lib, LineThen(w, rest)) == Some([LineFor(lib, w)] + lines)
  {
    ReadWritten(lib, w, rest, origin);
  }

  lemma {:induction false} ReadRendered(lib: Library, ws: seq<Written>, origin: Name)
    requires forall i :: 0 <= i < |ws| ==> Writable(lib, ws[i], origin)
    ensures ReadLines(lib, RenderAll(ws)) == Some(LinesFor(lib, ws))
    decreases |ws|
  {
    if ws != [] {
      ReadRendered(lib, ws[1..], origin);
      ReadOneMore(lib, ws[0], RenderAll(ws[1..]), LinesFor(lib, ws[1..]), origin);
      assert [LineFor(lib, ws[0])] + LinesFor(lib, ws[1..]) == LinesFor(lib, ws);
    }
  }

  // ---------- The meaning of the written lines ----------

  lemma {:induction false} OriginUnchanged(lib: Library, ws: seq<Written>, origin: Name)
    ensures OriginAfter(lib, LinesFor(lib, ws), origin) == origin
  {
    if ws != [] {
      var n := |ws| - 1;
      OriginUnchanged(lib, ws[..n], origin);
      assert LinesFor(lib, ws)[..n] == LinesFor(lib, ws[..n]);
    }
  }

  /** A written line states everything itself, so its record does not depend on the lines before it. */
  lemma WrittenRecord(lib: Library, before: seq<Written>, w: Written, origin: Name, class_: nat)
    requires Writable(lib, w, origin)
    ensures LineOk(lib, LinesFor(lib, before), LineFor(lib, w), origin)
    ensures RecordAt(lib, LinesFor(lib, before), LineFor(lib, w), origin, class_) == RecordFor(lib, w, origin)
  {
    OriginUnchanged(lib, before, origin);
    var lines, line := LinesFor(lib, before), LineFor(lib, w);
    var all := lines + [line];
    assert all[|all| - 1] == line && all[..|all| - 1] == lines;
    TwoWords(Classify(lib, w.ttl), CLASS_IN);
  }

  lemma TwoWords(time: Word, class_: nat)
    requires time.TimeWord?
    ensures LastTime([time, ClassWord(class_)]) == Some(time.time)
    ensures LastClass([time, ClassWord(class_)]) == Some(class_)
  {
    var words := [time, ClassWord(class_)];
    assert words[..1] == [time];
  }

  function RecordsFor(lib: Library, ws: seq<Written>, origin: Name): seq<Record>
    requires forall i :: 0 <= i < |ws| ==> Writable(lib, ws[i], origin)
  {
    if ws == [] then [] else RecordsFor(lib, ws[..|ws| - 1], origin) + [RecordFor(lib, ws[|ws| - 1], origin)]
  }

  lemma {:induction false} NoSoa(lib: Library, ws: seq<Written>, origin: Name)
    requires forall i :: 0 <= i < |ws| ==> Writable(lib, ws[i], origin)
    ensures forall i :: 0 <= i < |RecordsFor(lib, ws, origin)| ==> RecordsFor(lib, ws, origin)[i].rtype != SOA
  {
    if ws != [] {
      NoSoa(lib, ws[..|ws| - 1], origin);
    }
  }

  lemma {:induction false} WrittenOk(lib: Library, ws: seq<Written>, origin: Name, class_: nat)
    requires forall i :: 0 <= i < |ws| ==> Writable(lib, ws[i], origin)
    ensures AllOk(lib, LinesFor(lib, ws), origin)
    ensures RecordsOf(lib, LinesFor(lib, ws), origin, class_) ==
            RecordsFor(lib, ws, origin)
  {
    if ws != [] {
      var n := |ws| - 1;
      WrittenOk(lib, ws[..n], origin, class_);
      assert LinesFor(lib, ws)[..n] == LinesFor(lib, ws[..n]);
      WrittenRecord(lib, ws[..n], ws[n], origin, class_);
      AllOkSnoc(lib, LinesFor(lib, ws), origin);
    }
  }

  // ---------- What the written lines mean ----------

  lemma WrittenMeaning(lib: Library, ws: seq<Written>, origin: Name, class_: nat)
    requires forall i :: 0 <= i < |ws| ==> Writable(lib, ws[i], origin)
    ensures var z := Meaning(lib, LinesFor(lib, ws), origin, class_);
            z.Some? && z.value.origin == origin && Groups(z.value.records, RecordsFor(lib, ws, origin))
  {
    WrittenOk(lib, ws, origin, class_);
    NoSoa(lib, ws, origin);
    InsertionExactly(RecordsFor(lib, ws, origin));
    OriginUnchanged(lib, ws, origin);
  }

  /**
   Parsing the written lines succeeds, leaves the origin alone and gives back
   the records they were written for, grouped by owner and type and in order.
   */
  lemma RenderRoundTrip(lib: Library, ws: seq<Written>, origin: Name, class_: nat)
    requires forall i :: 0 <= i < |ws| ==> Writable(lib, ws[i], origin)
    ensures var r := Parse(lib, RenderAll(ws), origin, class_);
            r.Done? && r.value.origin == origin && Groups(r.value.records, RecordsFor(lib, ws, origin))
  {
    ReadRendered(lib, ws, origin);
    WrittenMeaning(lib, ws, origin, class_);
    ParserRefinesLines(lib, RenderAll(ws), origin, class_);
  }

  /** The same with the parser's own type table, whose words the generator writes in upper case. */
  lemma TableRoundTrip(lib: Library, ws: seq<Written>, origin: Name, class_: nat)
    requires forall i :: 0 <= i < |ws| ==> TableWord(lib, ws[i], origin)
    ensures forall i :: 0 <= i < |ws| ==> Writable(WithTypeTable(lib), ws[i], origin)
    ensures var r := Parse(WithTypeTable(lib), RenderAll(ws), origin, class_);
            r.Done? && r.value.origin == origin && Groups(r.value.records, RecordsFor(WithTypeTable(lib), ws, origin))
  {
    forall i | 0 <= i < |ws|
      ensures Writable(WithTypeTable(lib), ws[i], origin)
    {
      TableWrites(lib, ws[i], origin);
    }
    RenderRoundTrip(WithTypeTable(lib), ws, origin, class_);
  }
}
