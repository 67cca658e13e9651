/**
 The token automaton computes the line-by-line meaning: its tokens form lines,
 and carrying state from line to line gives what looking back gives.
 */
module ZoneRefinement {
  import opened Names
  import opened ZoneFile
  import opened ZoneLines

  // ---------- From tokens to lines ----------

  function ZoneOf(o: Outcome<Machine>): Option<Zone> {
    match o
    case Failed(_) => None
    case Done(m) => Some(Zone(m.origin, m.records))
  }

  function Then(lib: Library, o: Outcome<Machine>, rest: seq<Token>): Option<Zone> {
    match o
    case Failed(_) => None
    case Done(m) => ZoneOf(Run(lib, m, rest))
  }

  /** In a record, the automaton collects the parts of the line and flushes them. */
  lemma {:induction false} PartsRun(lib: Library, m: Machine, ps: seq<string>, tokens: seq<Token>)
    requires m.state == InRecord(ps)
    ensures var p := ReadParts(tokens);
            ZoneOf(Run(lib, m, tokens)) == if p.NoParts? then None else Then(lib, Flush(lib, m, ps + p.parts), p.rest)
    decreases |tokens|
  {
    if tokens == [] {
      assert ps + [] == ps;
      FlushEndsLine(lib, m, ps);
    } else {
      match tokens[0]
      case EOL =>
        assert ps + [] == ps;
      case CharData(text) =>
        var next := m.(state := InRecord(ps + [text]));
        PartsRun(lib, next, ps + [text], tokens[1..]);
        FlushIgnoresState(lib, m, next);
        if ReadParts(tokens[1..]).Parts? {
          assert ps + [text] + ReadParts(tokens[1..]).parts == ps + ReadParts(tokens).parts;
        }
      case List(texts) =>
        var next := m.(state := InRecord(ps + texts));
        PartsRun(lib, next, ps + texts, tokens[1..]);
        FlushIgnoresState(lib, m, next);
        if ReadParts(tokens[1..]).Parts? {
          assert ps + texts + ReadParts(tokens[1..]).parts == ps + ReadParts(tokens).parts;
        }
      case _ =>
    }
  }

  lemma FlushIgnoresState(lib: Library, m: Machine, n: Machine)
    requires n == m.(state := n.state)
    ensures forall parts :: Flush(lib, m, parts) == Flush(lib, n, parts)
  {
  }

  /** The rest of an entry, after its words: nothing, or a record to flush. */
  function EntryThen(lib: Library, s: Sticky, body: Option<Body>, rest: seq<Token>): Option<Zone> {
    match body
    case None => ZoneOf(Run(lib, With(s, StartLine, None), rest))
    case Some(Body(rtype, parts)) => Then(lib, Flush(lib, With(s, StartLine, Some(rtype)), parts), rest)
  }

  lemma {:induction false} WordsRun(lib: Library, s: Sticky, tokens: seq<Token>)
    ensures var w := ReadWords(lib, tokens);
            ZoneOf(Run(lib, With(s, TtlClassType, None), tokens)) ==
            if w.NoWords? then None else EntryThen(lib, ApplyWords(s, w.words), w.body, w.rest)
    decreases |tokens|
  {
    var m := With(s, TtlClassType, None);
    if tokens != [] && tokens[0].CharData? {
      var rest := tokens[1..];
      match Classify(lib, tokens[0].text)
      case BadWord =>
      case TypeWord(rtype) =>
        var n := m.(rtype := Some(rtype), state := InRecord([]));
        PartsRun(lib, n, [], rest);
        FlushIgnoresState(lib, With(s, StartLine, Some(rtype)), n);
        if ReadParts(rest).Parts? {
          assert [] + ReadParts(rest).parts == ReadParts(rest).parts;
        }
      case TimeWord(time) =>
        WordsRun(lib, s.(ttl := Some(time)), rest);
        ApplyFirst(s, Classify(lib, tokens[0].text), ReadWords(lib, rest));
      case ClassWord(c) =>
        WordsRun(lib, s.(class_ := c), rest);
        ApplyFirst(s, Classify(lib, tokens[0].text), ReadWords(lib, rest));
    }
  }

  lemma ApplyFirst(s: Sticky, w: Word, ws: Words)
    ensures ws.Words? ==> ([w] + ws.words)[1..] == ws.words
  {
  }

  /** The rtype of the line before has no effect on a line. */
  lemma StartForgetsType(lib: Library, m: Machine, tokens: seq<Token>)
    requires m.state == StartLine
    ensures ZoneOf(Run(lib, m, tokens)) == ZoneOf(Run(lib, With(Of(m), StartLine, None), tokens))
  {
  }

  function EvalThen(lib: Library, s: Option<Sticky>, rest: seq<Token>): Option<Zone> {
    match s
    case None => None
    case Some(t) => ZoneOf(Run(lib, With(t, StartLine, None), rest))
  }

  lemma EntryRun(lib: Library, s: Sticky, body: Option<Body>, rest: seq<Token>)
    ensures EntryThen(lib, s, body, rest) == EvalThen(lib, EvalBody(lib, s, body), rest)
  {
    if body.Some? {
      var flushed := Flush(lib, With(s, StartLine, Some(body.value.rtype)), body.value.parts);
      FlushEndsLine(lib, With(s, StartLine, Some(body.value.rtype)), body.value.parts);
      if flushed.Done? {
        StartForgetsType(lib, flushed.value, rest);
      }
    }
  }

  /** One line of tokens moves the automaton as the line's evaluation says. */
  lemma LineRun(lib: Library, s: Sticky, tokens: seq<Token>)
    requires tokens != []
    ensures var r := ReadLine(lib, tokens);
            ZoneOf(Run(lib, With(s, StartLine, None), tokens)) ==
            if r.Unreadable? then None else EvalThen(lib, EvalLine(lib, s, r.line), r.rest)
  {
    var t, rest := tokens[0], tokens[1..];
    if t.CharData? || t.At? || t.Blank? {
      var owner := if t.CharData? then Named(t.text) else if t.At? then AtOrigin else Same;
      var name := if owner.Same? then s.name else ResolveOwner(lib, owner, s.origin);
      if owner.Same? || name.Some? {
        var s' := s.(name := name);
        WordsRun(lib, s', rest);
        var w := ReadWords(lib, rest);
        if w.Words? {
          EntryRun(lib, ApplyWords(s', w.words), w.body, w.rest);
        }
      }
    } else if t.Origin? || t.Ttl? {
      DirectiveRun(lib, s, tokens);
    }
  }

  lemma DirectiveRun(lib: Library, s: Sticky, tokens: seq<Token>)
    requires tokens != [] && (tokens[0].Origin? || tokens[0].Ttl?)
    ensures var r := ReadLine(lib, tokens);
            ZoneOf(Run(lib, With(s, StartLine, None), tokens)) ==
            if r.Unreadable? then None else EvalThen(lib, EvalLine(lib, s, r.line), r.rest)
  {
    var m := With(s, if tokens[0].Origin? then OriginDirective else TtlDirective, None);
    assert Run(lib, With(s, StartLine, None), tokens) == Run(lib, m, tokens[1..]);
    if |tokens| > 1 {
      assert tokens[1..][0] == tokens[1] && tokens[1..][1..] == tokens[2..];
    }
  }

  /** Reading the tokens as lines and evaluating these is running the automaton. */
  lemma {:induction false} TokensAreLines(lib: Library, s: Sticky, tokens: seq<Token>)
    ensures ZoneOf(Run(lib, With(s, StartLine, None), tokens)) ==
            match ReadLines(lib, tokens)
            case None => None
            case Some(lines) =>
              match EvalLines(lib, s, lines)
              case None => None
              case Some(t) => Some(Zone(t.origin, t.records))
    decreases |tokens|
  {
    if tokens != [] {
      LineRun(lib, s, tokens);
      var r := ReadLine(lib, tokens);
      if r.Read? {
        var t := EvalLine(lib, s, r.line);
        if t.Some? {
          TokensAreLines(lib, t.value, r.rest);
        }
        if ReadLines(lib, r.rest).Some? {
          var lines := ReadLines(lib, r.rest).value;
          assert ([r.line] + lines)[0] == r.line && ([r.line] + lines)[1..] == lines;
        }
      }
    }
  }

  // ---------- From forward evaluation to what was last stated ----------

  lemma {:induction false} WordsLast(s: Sticky, words: seq<Word>)
    ensures ApplyWords(s, words) ==
            s.(ttl := if LastTime(words).Some? then LastTime(words) else s.ttl,
               class_ := if LastClass(words).Some? then LastClass(words).value else s.class_)
    decreases |words|
  {
    if words != [] {
      WordsLast(ApplyWord(s, words[0]), words[1..]);
      LastCons(words);
    }
  }

  lemma {:induction false} LastCons(words: seq<Word>)
    requires words != []
    ensures LastTime(words) == if LastTime(words[1..]).Some? then LastTime(words[1..])
                               else if words[0].TimeWord? then Some(words[0].time) else None
    ensures LastClass(words) == if LastClass(words[1..]).Some? then LastClass(words[1..])
                                else if words[0].ClassWord? then Some(words[0].class_) else None
    decreases |words|
  {
    var n := |words| - 1;
    if n > 0 {
      LastCons(words[..n]);
      assert words[..n][1..] == words[1..][..n - 1];
      assert words[1..][n - 1] == words[n];
    }
  }

  lemma {:induction false} EvalSnoc(lib: Library, s: Sticky, lines: seq<Line>, line: Line)
    ensures EvalLines(lib, s, lines + [line]) ==
            match EvalLines(lib, s, lines)
            case None => None
            case Some(t) => EvalLine(lib, t, line)
    decreases |lines|
  {
    var all := lines + [line];
    if lines == [] {
      assert all[0] == line && all[1..] == [];
    } else {
      assert all[0] == lines[0] && all[1..] == lines[1..] + [line];
      var t := EvalLine(lib, s, lines[0]);
      if t.Some? {
        EvalSnoc(lib, t.value, lines[1..], line);
      }
    }
  }

  function StickyWith(lib: Library, lines: seq<Line>, origin: Name, class_: nat, records: Records): Sticky {
    Sticky(OriginAfter(lib, lines, origin), ClassAfter(lines, class_), OwnerAfter(lib, lines, origin),
           TtlAfter(lib, lines, origin), records)
  }

  /** A line that is not a record changes what was last stated, and no record. */
  lemma QuietLine(lib: Library, before: seq<Line>, line: Line, origin: Name, class_: nat, records: Records)
    requires !line.Entry? || line.body.None?
    ensures EvalLine(lib, StickyWith(lib, before, origin, class_, records), line) ==
            if LineOk(lib, before, line, origin)
            then Some(StickyWith(lib, before + [line], origin, class_, records)) else None
  {
    var lines := before + [line];
    assert lines[|lines| - 1] == line && lines[..|lines| - 1] == before;
    if line.Entry? {
      var s := StickyWith(lib, before, origin, class_, records);
      var name := if line.owner.Same? then s.name else ResolveOwner(lib, line.owner, s.origin);
      WordsLast(s.(name := name), line.words);
    }
  }

  /** The state in which the body of a line is flushed, by what was last stated. */
  lemma BeforeFlush(lib: Library, before: seq<Line>, line: Line, origin: Name, class_: nat, records: Records)
    requires line.Entry?
    requires !line.owner.Same? ==> ResolveOwner(lib, line.owner, OriginAfter(lib, before, origin)).Some?
    ensures var s := StickyWith(lib, before, origin, class_, records);
            var name := if line.owner.Same? then s.name else ResolveOwner(lib, line.owner, s.origin);
            var lines := before + [line];
            ApplyWords(s.(name := name), line.words) ==
            Sticky(OriginAfter(lib, before, origin), ClassAfter(lines, class_), OwnerAfter(lib, lines, origin),
                   if StatedTtl(lib, lines).Some? then StatedTtl(lib, lines) else FirstMinimum(lib, before, origin),
                   records)
  {
    var lines := before + [line];
    assert lines[|lines| - 1] == line && lines[..|lines| - 1] == before;
    var s := StickyWith(lib, before, origin, class_, records);
    var name := if line.owner.Same? then s.name else ResolveOwner(lib, line.owner, s.origin);
    WordsLast(s.(name := name), line.words);
  }

  /** A line with a body adds the record it stands for. */
  lemma RecordLine(lib: Library, before: seq<Line>, line: Line, origin: Name, class_: nat, records: Records)
    requires line.Entry? && line.body.Some?
    ensures EvalLine(lib, StickyWith(lib, before, origin, class_, records), line) ==
            if !LineOk(lib, before, line, origin) then None
            else
              match Insert(records, RecordAt(lib, before, line, origin, class_))
              case Failed(_) => None
              case Done(more) => Some(StickyWith(lib, before + [line], origin, class_, more))
  {
    var lines := before + [line];
    assert lines[|lines| - 1] == line && lines[..|lines| - 1] == before;
    if line.owner.Same? || ResolveOwner(lib, line.owner, OriginAfter(lib, before, origin)).Some? {
      BeforeFlush(lib, before, line, origin, class_, records);
    }
  }

  lemma AllOkSnoc(lib: Library, lines: seq<Line>, origin: Name)
    requires lines != []
    ensures var n := |lines| - 1;
            AllOk(lib, lines, origin) <==> AllOk(lib, lines[..n], origin) && LineOk(lib, lines[..n], lines[n], origin)
  {
    var n := |lines| - 1;
    assert forall i :: 0 <= i < n ==> lines[..n][..i] == lines[..i];
    if AllOk(lib, lines[..n], origin) && LineOk(lib, lines[..n], lines[n], origin) {
      forall i | 0 <= i < |lines|
        ensures LineOk(lib, lines[..i], lines[i], origin)
      {
        if i < n {
          assert LineOk(lib, lines[..n][..i], lines[..n][i], origin);
        }
      }
    }
    if AllOk(lib, lines, origin) {
      AllOkPrefix(lib, lines, n, origin);
    }
  }

  function StickyAfter(lib: Library, lines: seq<Line>, origin: Name, class_: nat): Option<Sticky> {
    match Meaning(lib, lines, origin, class_)
    case None => None
    case Some(zone) => Some(StickyWith(lib, lines, origin, class_, zone.records))
  }

  /** Evaluating the lines forwards gives what looking back over them gives. */
  lemma {:induction false} LinesMean(lib: Library, lines: seq<Line>, origin: Name, class_: nat)
    ensures EvalLines(lib, Sticky(origin, class_, None, None, map[]), lines) == StickyAfter(lib, lines, origin, class_)
    decreases |lines|
  {
    if lines != [] {
      var n := |lines| - 1;
      var before, line := lines[..n], lines[n];
      LinesMean(lib, before, origin, class_);
      assert lines == before + [line];
      EvalSnoc(lib, Sticky(origin, class_, None, None, map[]), before, line);
      AllOkSnoc(lib, lines, origin);
      if AllOk(lib, lines, origin) {
        RecordsSnoc(lib, lines, origin, class_);
      }
      var zone := Meaning(lib, before, origin, class_);
      if zone.Some? {
        if line.Entry? && line.body.Some? {
          RecordLine(lib, before, line, origin, class_, zone.value.records);
        } else {
          QuietLine(lib, before, line, origin, class_, zone.value.records);
        }
      }
    }
  }

  lemma RecordsSnoc(lib: Library, lines: seq<Line>, origin: Name, class_: nat)
    requires lines != [] && AllOk(lib, lines, origin)
    ensures var n := |lines| - 1;
            && AllOk(lib, lines[..n], origin) && LineOk(lib, lines[..n], lines[n], origin)
            && InsertAll(RecordsOf(lib, lines, origin, class_)) ==
               match InsertAll(RecordsOf(lib, lines[..n], origin, class_))
               case Failed(e) => Failed(e)
               case Done(records) =>
                 if lines[n].Entry? && lines[n].body.Some?
                 then Insert(records, RecordAt(lib, lines[..n], lines[n], origin, class_)) else Done(records)
  {
    AllOkSnoc(lib, lines, origin);
    var n, rs := |lines| - 1, RecordsOf(lib, lines, origin, class_);
    if lines[n].Entry? && lines[n].body.Some? {
      assert rs[..|rs| - 1] == RecordsOf(lib, lines[..n], origin, class_);
    } else {
      assert rs == RecordsOf(lib, lines[..n], origin, class_);
    }
  }

  /**
   The parser computes the line-by-line meaning: it succeeds exactly when the
   tokens form lines that are all well formed and no owner has two SOAs, and
   then every record has the owner, class and TTL last stated where it stands.
   */
  lemma ParserRefinesLines(lib: Library, tokens: seq<Token>, origin: Name, class_: nat)
    ensures var r := Parse(lib, tokens, origin, class_);
            (if r.Done? then Some(r.value) else None) ==
            match ReadLines(lib, tokens)
            case None => None
            case Some(lines) => Meaning(lib, lines, origin, class_)
  {
    TokensAreLines(lib, Sticky(origin, class_, None, None, map[]), tokens);
    assert With(Sticky(origin, class_, None, None, map[]), StartLine, None) == Initial(origin, class_);
    match ReadLines(lib, tokens)
    case None =>
    case Some(lines) => LinesMean(lib, lines, origin, class_);
  }
}
