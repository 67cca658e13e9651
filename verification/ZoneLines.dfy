/**
 The line-by-line meaning of a zone file (section 5.1 of RFC 1035), defined by
 looking back over the lines for what was last stated, and the same evaluated
 forwards, line after line.
 */
module ZoneLines {
  import opened Names
  import opened ZoneFile

  // ---------- Lines ----------

  datatype Owner = Same | AtOrigin | Named(text: string)

  datatype Body = Body(rtype: RecordType, parts: seq<string>)

  datatype Line =
    | EmptyLine
    | OriginLine(text: string)
    | TtlLine(text: string)
    | Dangling
    | Entry(owner: Owner, words: seq<Word>, body: Option<Body>)

  datatype Parts = Parts(parts: seq<string>, rest: seq<Token>) | NoParts

  /** The record data up to the end of the line or of the input. */
  function ReadParts(tokens: seq<Token>): (r: Parts)
    ensures r.Parts? ==> |r.rest| <= |tokens|
  {
    if tokens == [] then Parts([], [])
    else
      match tokens[0]
      case EOL => Parts([], tokens[1..])
      case CharData(text) => PrependParts([text], ReadParts(tokens[1..]))
      case List(texts) => PrependParts(texts, ReadParts(tokens[1..]))
      case _ => NoParts
  }

  function PrependParts(front: seq<string>, p: Parts): (r: Parts)
    ensures r.Parts? <==> p.Parts?
    ensures r.Parts? ==> r.rest == p.rest
  {
    match p
    case NoParts => NoParts
    case Parts(parts, rest) => Parts(front + parts, rest)
  }

  datatype Words = Words(words: seq<Word>, body: Option<Body>, rest: seq<Token>) | NoWords

  /** The words before the type, and then the type and the record data unless the line ends first. */
  function ReadWords(lib: Library, tokens: seq<Token>): (r: Words)
    ensures r.Words? ==> |r.rest| <= |tokens|
  {
    if tokens == [] then Words([], None, [])
    else if tokens[0].EOL? then Words([], None, tokens[1..])
    else if !tokens[0].CharData? then NoWords
    else
      var w := Classify(lib, tokens[0].text);
      match w
      case BadWord => NoWords
      case TypeWord(rtype) =>
        (match ReadParts(tokens[1..])
         case NoParts => NoWords
         case Parts(parts, rest) => Words([], Some(Body(rtype, parts)), rest))
      case _ =>
        (match ReadWords(lib, tokens[1..])
         case NoWords => NoWords
         case Words(words, body, rest) => Words([w] + words, body, rest))
  }

  datatype Reading = Read(line: Line, rest: seq<Token>) | Unreadable

  function ReadEntry(lib: Library, owner: Owner, tokens: seq<Token>): (r: Reading)
    ensures r.Read? ==> |r.rest| <= |tokens|
  {
    match ReadWords(lib, tokens)
    case NoWords => Unreadable
    case Words(words, body, rest) => Read(Entry(owner, words, body), rest)
  }

  function ReadLine(lib: Library, tokens: seq<Token>): (r: Reading)
    requires tokens != []
    ensures r.Read? ==> |r.rest| < |tokens|
  {
    match tokens[0]
    case EOL => Read(EmptyLine, tokens[1..])
    case CharData(text) => ReadEntry(lib, Named(text), tokens[1..])
    case At => ReadEntry(lib, AtOrigin, tokens[1..])
    case Blank => ReadEntry(lib, Same, tokens[1..])
    case Origin =>
      if |tokens| == 1 then Read(Dangling, [])
      else if tokens[1].CharData? then Read(OriginLine(tokens[1].text), tokens[2..]) else Unreadable
    case Ttl =>
      if |tokens| == 1 then Read(Dangling, [])
      else if tokens[1].CharData? then Read(TtlLine(tokens[1].text), tokens[2..]) else Unreadable
    case Include => Unreadable
    case List(_) => Unreadable
  }

  function ReadLines(lib: Library, tokens: seq<Token>): Option<seq<Line>>
    decreases |tokens|
  {
    if tokens == [] then Some([])
    else
      match ReadLine(lib, tokens)
      case Unreadable => None
      case Read(line, rest) =>
        match ReadLines(lib, rest)
        case None => None
        case Some(lines) => Some([line] + lines)
  }

  // ---------- What was last stated ----------

  function LastTime(words: seq<Word>): Option<nat> {
    if words == [] then None
    else if words[|words| - 1].TimeWord? then Some(words[|words| - 1].time)
    else LastTime(words[..|words| - 1])
  }

  function LastClass(words: seq<Word>): Option<nat> {
    if words == [] then None
    else if words[|words| - 1].ClassWord? then Some(words[|words| - 1].class_)
    else LastClass(words[..|words| - 1])
  }

  /** The origin in force after the lines: the one of the last $ORIGIN. */
  function OriginAfter(lib: Library, lines: seq<Line>, origin: Name): Name {
    if lines == [] then origin
    else
      var last, before := lines[|lines| - 1], lines[..|lines| - 1];
      if last.OriginLine? && lib.parseName(last.text, None).Some? then lib.parseName(last.text, None).value
      else OriginAfter(lib, before, origin)
  }

  /** The owner last stated, resolved against the origin in force where it was stated. */
  function OwnerAfter(lib: Library, lines: seq<Line>, origin: Name): Option<Name> {
    if lines == [] then None
    else
      var last, before := lines[|lines| - 1], lines[..|lines| - 1];
      if last.Entry? && !last.owner.Same? then ResolveOwner(lib, last.owner, OriginAfter(lib, before, origin))
      else OwnerAfter(lib, before, origin)
  }

  function ResolveOwner(lib: Library, owner: Owner, origin: Name): Option<Name>
    requires !owner.Same?
  {
    if owner.AtOrigin? then Some(origin) else lib.parseName(owner.text, Some(origin))
  }

  /** The class last stated. */
  function ClassAfter(lines: seq<Line>, class_: nat): nat {
    if lines == [] then class_
    else
      var last, before := lines[|lines| - 1], lines[..|lines| - 1];
      if last.Entry? && LastClass(last.words).Some? then LastClass(last.words).value
      else ClassAfter(before, class_)
  }

  /** The TTL last stated, in a $TTL line or before a type. */
  function StatedTtl(lib: Library, lines: seq<Line>): Option<nat> {
    if lines == [] then None
    else
      var last, before := lines[|lines| - 1], lines[..|lines| - 1];
      if last.TtlLine? && lib.parseTime(last.text).Some? then lib.parseTime(last.text)
      else if last.Entry? && LastTime(last.words).Some? then LastTime(last.words)
      else StatedTtl(lib, before)
  }

  /** The minimum of the first SOA. */
  function FirstMinimum(lib: Library, lines: seq<Line>, origin: Name): Option<nat> {
    if lines == [] then None
    else
      var last, before := lines[|lines| - 1], lines[..|lines| - 1];
      if FirstMinimum(lib, before, origin).Some? then FirstMinimum(lib, before, origin)
      else if last.Entry? && last.body.Some? && last.body.value.rtype == SOA
              && RdataAt(lib, before, last.body.value, origin).Some?
              && RdataAt(lib, before, last.body.value, origin).value.Soa?
      then Some(RdataAt(lib, before, last.body.value, origin).value.minimum)
      else None
  }

  function RdataAt(lib: Library, before: seq<Line>, body: Body, origin: Name): Option<Rdata> {
    lib.parseRdata(body.rtype, body.parts, OriginAfter(lib, before, origin))
  }

  /** The default TTL: the last one stated, or else the minimum of the first SOA. */
  function TtlAfter(lib: Library, lines: seq<Line>, origin: Name): Option<nat> {
    if StatedTtl(lib, lines).Some? then StatedTtl(lib, lines) else FirstMinimum(lib, lines, origin)
  }

  // ---------- The meaning of a line and of a file ----------

  predicate LineOk(lib: Library, before: seq<Line>, line: Line, origin: Name) {
    match line
    case OriginLine(text) => lib.parseName(text, None).Some?
    case TtlLine(text) => lib.parseTime(text).Some?
    case Entry(owner, words, body) =>
      && (!owner.Same? ==> ResolveOwner(lib, owner, OriginAfter(lib, before, origin)).Some?)
      && (body.Some? ==> BodyOk(lib, before, line, body.value, origin))
    case _ => true
  }

  predicate BodyOk(lib: Library, before: seq<Line>, line: Line, body: Body, origin: Name) {
    && body.rtype != "KEY" && body.rtype != "NSEC"
    && RdataAt(lib, before, body, origin).Some?
    && OwnerAfter(lib, before + [line], origin).Some?
    && (if body.rtype == SOA then RdataAt(lib, before, body, origin).value.Soa?
        else TtlAfter(lib, before + [line], origin).Some?)
  }

  /** The record that a line with a body stands for. */
  function RecordAt(lib: Library, before: seq<Line>, line: Line, origin: Name, class_: nat): Record
    requires line.Entry? && line.body.Some? && LineOk(lib, before, line, origin)
  {
    var body, lines := line.body.value, before + [line];
    var rdata := RdataAt(lib, before, body, origin).value;
    Record(OwnerAfter(lib, lines, origin).value, body.rtype, ClassAfter(lines, class_),
           if body.rtype == SOA then AsU32(rdata.expire) else TtlAfter(lib, lines, origin).value,
           rdata)
  }

  predicate AllOk(lib: Library, lines: seq<Line>, origin: Name) {
    forall i :: 0 <= i < |lines| ==> LineOk(lib, lines[..i], lines[i], origin)
  }

  /** The records of the file, line by line. */
  function RecordsOf(lib: Library, lines: seq<Line>, origin: Name, class_: nat): seq<Record>
    requires AllOk(lib, lines, origin)
  {
    if lines == [] then []
    else
      var n := |lines| - 1;
      AllOkPrefix(lib, lines, n, origin);
      RecordsOf(lib, lines[..n], origin, class_)
      + if lines[n].Entry? && lines[n].body.Some? then [RecordAt(lib, lines[..n], lines[n], origin, class_)] else []
  }

  lemma AllOkPrefix(lib: Library, lines: seq<Line>, n: nat, origin: Name)
    requires AllOk(lib, lines, origin) && n <= |lines|
    ensures AllOk(lib, lines[..n], origin)
  {
    forall i | 0 <= i < n
      ensures LineOk(lib, lines[..n][..i], lines[..n][i], origin)
    {
      assert lines[..n][..i] == lines[..i];
    }
  }

  function InsertAll(rs: seq<Record>): Outcome<Records> {
    if rs == [] then Done(map[])
    else
      match InsertAll(rs[..|rs| - 1])
      case Failed(e) => Failed(e)
      case Done(records) => Insert(records, rs[|rs| - 1])
  }

  function Meaning(lib: Library, lines: seq<Line>, origin: Name, class_: nat): Option<Zone> {
    if !AllOk(lib, lines, origin) then None
    else
      match InsertAll(RecordsOf(lib, lines, origin, class_))
      case Failed(_) => None
      case Done(records) => Some(Zone(OriginAfter(lib, lines, origin), records))
  }

  // ---------- Evaluating lines forwards ----------

  /** What the automaton carries from line to line. */
  datatype Sticky = Sticky(origin: Name, class_: nat, name: Option<Name>, ttl: Option<nat>, records: Records)

  function Of(m: Machine): Sticky {
    Sticky(m.origin, m.class_, m.name, m.ttl, m.records)
  }

  function With(s: Sticky, state: State, rtype: Option<RecordType>): Machine {
    Machine(state, s.origin, s.class_, s.name, rtype, s.ttl, s.records)
  }

  function ApplyWord(s: Sticky, w: Word): Sticky {
    match w
    case TimeWord(time) => s.(ttl := Some(time))
    case ClassWord(c) => s.(class_ := c)
    case _ => s
  }

  function ApplyWords(s: Sticky, words: seq<Word>): Sticky
    decreases |words|
  {
    if words == [] then s else ApplyWords(ApplyWord(s, words[0]), words[1..])
  }

  function EvalBody(lib: Library, s: Sticky, body: Option<Body>): Option<Sticky> {
    match body
    case None => Some(s)
    case Some(Body(rtype, parts)) =>
      match Flush(lib, With(s, StartLine, Some(rtype)), parts)
      case Failed(_) => None
      case Done(m) => Some(Of(m))
  }

  function EvalLine(lib: Library, s: Sticky, line: Line): Option<Sticky> {
    match line
    case EmptyLine => Some(s)
    case Dangling => Some(s)
    case OriginLine(text) =>
      (match lib.parseName(text, None)
       case None => None
       case Some(name) => Some(s.(origin := name)))
    case TtlLine(text) => if lib.parseTime(text).Some? then Some(s.(ttl := lib.parseTime(text))) else None
    case Entry(owner, words, body) =>
      var name := if owner.Same? then s.name else ResolveOwner(lib, owner, s.origin);
      if !owner.Same? && name.None? then None
      else EvalBody(lib, ApplyWords(s.(name := name), words), body)
  }

  function EvalLines(lib: Library, s: Sticky, lines: seq<Line>): Option<Sticky>
    decreases |lines|
  {
    if lines == [] then Some(s)
    else
      match EvalLine(lib, s, lines[0])
      case None => None
      case Some(t) => EvalLines(lib, t, lines[1..])
  }
}
