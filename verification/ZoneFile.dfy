/**
 The zone-file parser: an automaton over lexer tokens with a sticky owner name,
 class, TTL and origin.
 */
module ZoneFile {
  import opened Names

  datatype Token =
    | Blank
    | CharData(text: string)
    | List(texts: seq<string>)
    | At
    | Include
    | Origin
    | Ttl
    | EOL

  /** The mnemonic of a record type stands for the type. */
  type RecordType = string

  datatype Rdata = Soa(expire: int, minimum: nat, text: string) | Other(text: string)

  /** The functions that the parser calls on token text. */
  datatype Library = Library(
    parseTime: string -> Option<nat>,
    parseName: (string, Option<Name>) -> Option<Name>,
    parseClass: string -> Option<nat>,
    parseType: string -> Option<RecordType>,
    parseRdata: (RecordType, seq<string>, Name) -> Option<Rdata>)

  datatype Record = Record(name: Name, rtype: RecordType, class_: nat, ttl: nat, rdata: Rdata)

  datatype RrKey = RrKey(name: Name, rtype: RecordType)

  /** Record sets by folded owner name and type, each in insertion order. */
  type Records = map<RrKey, seq<Record>>

  datatype Error =
    | UnexpectedToken | IncludeUnsupported | BadName | BadTime | UnknownType
    | BadRdata | NotImplemented | NoName | NoTtl | NoType | DuplicateSoa

  datatype State = StartLine | TtlClassType | TtlDirective | OriginDirective | InRecord(parts: seq<string>)

  datatype Machine = Machine(
    state: State, origin: Name, class_: nat, name: Option<Name>, rtype: Option<RecordType>, ttl: Option<nat>,
    records: Records)

  datatype Outcome<+T> = Done(value: T) | Failed(error: Error)

  // ---------- Words ----------

  const KNOWN_TYPES: seq<string> := [
    "A", "AAAA", "ANAME", "AXFR", "CAA", "CDNSKEY", "CDS", "CNAME", "CSYNC", "DHCID", "DNSKEY", "DS", "HINFO",
    "HTTPS", "KEY", "LOC", "MX", "NAPTR", "NSEC", "NSEC3", "NSEC3PARAM", "NS", "NULL", "OPENPGPKEY", "PTR", "RP",
    "RRSIG", "SIG", "SOA", "SRV", "SSHFP", "SVCB", "TLSA", "TXT", "TSIG", "ANY"]

  const SOA: RecordType := "SOA"

  function TypeOf(word: string): Option<RecordType> {
    if word == "*" then Some("ANY") else if word in KNOWN_TYPES then Some(word) else None
  }

  /** The library with the parser's own table of record types. */
  function WithTypeTable(lib: Library): Library {
    lib.(parseType := TypeOf)
  }

  function UpperChar(c: char): char {
    if 'a' <= c <= 'z' then 'A' + (c - 'a') else c
  }

  function Upper(s: string): string {
    seq(|s|, i requires 0 <= i < |s| => UpperChar(s[i]))
  }

  predicate AllLetters(s: string) {
    forall i :: 0 <= i < |s| ==> 'A' <= s[i] <= 'Z'
  }

  /** What a word between the owner and the record data means. */
  datatype Word = TimeWord(time: nat) | ClassWord(class_: nat) | TypeWord(rtype: RecordType) | BadWord

  function Classify(lib: Library, text: string): Word {
    if lib.parseTime(text).Some? then TimeWord(lib.parseTime(text).value)
    else
      var upper := Upper(text);
      if AllLetters(upper) && lib.parseClass(upper).Some? then ClassWord(lib.parseClass(upper).value)
      else if lib.parseType(upper).Some? then TypeWord(lib.parseType(upper).value)
      else BadWord
  }

  /** What a word means, outright: a time first, then an alphabetic class, then a type. */
  lemma WordMeaning(lib: Library, text: string)
    ensures var w, upper := Classify(lib, text), Upper(text);
            && (w.TimeWord? <==> lib.parseTime(text).Some?)
            && (w.TimeWord? ==> lib.parseTime(text) == Some(w.time))
            && (w.ClassWord? <==> !w.TimeWord? && AllLetters(upper) && lib.parseClass(upper).Some?)
            && (w.ClassWord? ==> lib.parseClass(upper) == Some(w.class_))
            && (w.TypeWord? <==> !w.TimeWord? && !w.ClassWord? && lib.parseType(upper).Some?)
            && (w.TypeWord? ==> lib.parseType(upper) == Some(w.rtype))
  {
  }

  /** Classes and types are read without regard to case. */
  lemma CaseIgnored(lib: Library, s: string, t: string)
    requires lib.parseTime(s).None? && lib.parseTime(t).None? && |s| == |t|
    requires forall i :: 0 <= i < |s| ==> LowerChar(s[i]) == LowerChar(t[i])
    ensures Classify(lib, s) == Classify(lib, t)
  {
    assert Upper(s) == Upper(t);
  }

  /** An expire value is taken as an unsigned 32-bit integer. */
  lemma ExpireAsUnsigned(n: int)
    ensures 0 <= n < 0x1_0000_0000 ==> AsU32(n) == n
    ensures -0x8000_0000 <= n < 0 ==> AsU32(n) == n + 0x1_0000_0000
  {
  }

  // ---------- Flushing a record ----------

  function AsU32(n: int): nat {
    n % 0x1_0000_0000
  }

  function KeyOf(r: Record): RrKey {
    RrKey(Lower(r.name), r.rtype)
  }

  /** A second SOA for an owner is an error; other records join their set. */
  function Insert(records: Records, r: Record): Outcome<Records> {
    if r.rtype == SOA then
      if KeyOf(r) in records then Failed(DuplicateSoa) else Done(records[KeyOf(r) := [r]])
    else if KeyOf(r) in records then Done(records[KeyOf(r) := records[KeyOf(r)] + [r]])
    else Done(records[KeyOf(r) := [r]])
  }

  function Flush(lib: Library, m: Machine, parts: seq<string>): Outcome<Machine> {
    if m.rtype.None? then Failed(NoType)
    else
      var rtype := m.rtype.value;
      if rtype == "KEY" || rtype == "NSEC" then Failed(NotImplemented)
      else
        match lib.parseRdata(rtype, parts, m.origin)
        case None => Failed(BadRdata)
        case Some(rdata) =>
          if m.name.None? then Failed(NoName)
          else if rtype == SOA then
            if !rdata.Soa? then Failed(BadRdata)
            else
              var r := Record(m.name.value, rtype, m.class_, AsU32(rdata.expire), rdata);
              var ttl := if m.ttl.None? then Some(rdata.minimum) else m.ttl;
              Insertion(m.(ttl := ttl), r)
          else if m.ttl.None? then Failed(NoTtl)
          else Insertion(m, Record(m.name.value, rtype, m.class_, m.ttl.value, rdata))
  }

  function Insertion(m: Machine, r: Record): Outcome<Machine> {
    match Insert(m.records, r)
    case Failed(e) => Failed(e)
    case Done(records) => Done(m.(records := records, state := StartLine))
  }

  // ---------- The automaton ----------

  function StartStep(lib: Library, m: Machine, t: Token): Outcome<Machine> {
    var m := m.(rtype := None);
    match t
    case Include => Failed(IncludeUnsupported)
    case Origin => Done(m.(state := OriginDirective))
    case Ttl => Done(m.(state := TtlDirective))
    case CharData(text) =>
      (match lib.parseName(text, Some(m.origin))
       case None => Failed(BadName)
       case Some(name) => Done(m.(name := Some(name), state := TtlClassType)))
    case At => Done(m.(name := Some(m.origin), state := TtlClassType))
    case Blank => Done(m.(state := TtlClassType))
    case EOL => Done(m)
    case List(_) => Failed(UnexpectedToken)
  }

  function WordStep(lib: Library, m: Machine, t: Token): Outcome<Machine> {
    match t
    case CharData(text) =>
      (match Classify(lib, text)
       case TimeWord(time) => Done(m.(ttl := Some(time)))
       case ClassWord(c) => Done(m.(class_ := c))
       case TypeWord(rtype) => Done(m.(rtype := Some(rtype), state := InRecord([])))
       case BadWord => Failed(UnknownType))
    case EOL => Done(m.(state := StartLine))
    case _ => Failed(UnexpectedToken)
  }

  function Step(lib: Library, m: Machine, t: Token): Outcome<Machine> {
    match m.state
    case StartLine => StartStep(lib, m, t)
    case TtlDirective =>
      if !t.CharData? then Failed(UnexpectedToken)
      else if lib.parseTime(t.text).None? then Failed(BadTime)
      else Done(m.(ttl := lib.parseTime(t.text), state := StartLine))
    case OriginDirective =>
      if !t.CharData? then Failed(UnexpectedToken)
      else if lib.parseName(t.text, None).None? then Failed(BadName)
      else Done(m.(origin := lib.parseName(t.text, None).value, state := StartLine))
    case TtlClassType => WordStep(lib, m, t)
    case InRecord(parts) =>
      match t
      case EOL => Flush(lib, m, parts)
      case CharData(text) => Done(m.(state := InRecord(parts + [text])))
      case List(texts) => Done(m.(state := InRecord(parts + texts)))
      case _ => Failed(UnexpectedToken)
  }

  /** The end of the input flushes a record that has no end of line. */
  function Finish(lib: Library, m: Machine): Outcome<Machine> {
    if m.state.InRecord? then Flush(lib, m, m.state.parts) else Done(m)
  }

  function Run(lib: Library, m: Machine, tokens: seq<Token>): Outcome<Machine>
    decreases |tokens|
  {
    if tokens == [] then Finish(lib, m)
    else
      match Step(lib, m, tokens[0])
      case Failed(e) => Failed(e)
      case Done(next) => Run(lib, next, tokens[1..])
  }

  function Initial(origin: Name, class_: nat): Machine {
    Machine(StartLine, origin, class_, None, None, None, map[])
  }

  datatype Zone = Zone(origin: Name, records: Records)

  function Parse(lib: Library, tokens: seq<Token>, origin: Name, class_: nat): Outcome<Zone> {
    match Run(lib, Initial(origin, class_), tokens)
    case Failed(e) => Failed(e)
    case Done(m) => Done(Zone(m.origin, m.records))
  }

  // ---------- The parser as it runs ----------

  /** `Parser::parse`: one pass over the tokens, changing the state in place. */
  method ParseTokens(lib: Library, tokens: seq<Token>, origin: Name, class_: nat) returns (r: Outcome<Zone>)
    ensures r == Parse(lib, tokens, origin, class_)
  {
    var machine := Initial(origin, class_);
    var i := 0;
    while i < |tokens|
      invariant 0 <= i <= |tokens|
      invariant Run(lib, machine, tokens[i..]) == Run(lib, Initial(origin, class_), tokens)
    {
      var next: Outcome<Machine>;
      var t := tokens[i];
      match machine.state {
        case StartLine =>
          next := StartStep(lib, machine, t);
        case TtlDirective =>
          if t.CharData? {
            var time := lib.parseTime(t.text);
            next := if time.None? then Failed(BadTime) else Done(machine.(ttl := time, state := StartLine));
          } else {
            next := Failed(UnexpectedToken);
          }
        case OriginDirective =>
          if t.CharData? {
            var name := lib.parseName(t.text, None);
            next := if name.None? then Failed(BadName) else Done(machine.(origin := name.value, state := StartLine));
          } else {
            next := Failed(UnexpectedToken);
          }
        case TtlClassType =>
          next := WordStep(lib, machine, t);
        case InRecord(parts) =>
          match t {
            case EOL => next := Flush(lib, machine, parts);
            case CharData(text) => next := Done(machine.(state := InRecord(parts + [text])));
            case List(texts) => next := Done(machine.(state := InRecord(parts + texts)));
            case _ => next := Failed(UnexpectedToken);
          }
      }
      assert tokens[i..][1..] == tokens[i + 1..];
      if next.Failed? {
        return Failed(next.error);
      }
      machine := next.value;
      i := i + 1;
    }
    var last := Finish(lib, machine);
    r := if last.Failed? then Failed(last.error) else Done(Zone(last.value.origin, last.value.records));
  }

  // ---------- A missing final end of line ----------

  /** The state in which the automaton has read all tokens, if it gets there. */
  function EndState(lib: Library, m: Machine, tokens: seq<Token>): Option<State>
    decreases |tokens|
  {
    if tokens == [] then Some(m.state)
    else
      match Step(lib, m, tokens[0])
      case Failed(_) => None
      case Done(next) => EndState(lib, next, tokens[1..])
  }

  predicate InDirective(s: Option<State>) {
    s == Some(TtlDirective) || s == Some(OriginDirective)
  }

  lemma OneEol(lib: Library, m: Machine)
    ensures Run(lib, m, [EOL]) ==
            match Step(lib, m, EOL)
            case Failed(e) => Failed(e)
            case Done(next) => Finish(lib, next)
  {
    assert [EOL][1..] == [];
  }

  lemma FlushEndsLine(lib: Library, m: Machine, parts: seq<string>)
    ensures Flush(lib, m, parts).Done? ==> Flush(lib, m, parts).value.state == StartLine
  {
  }

  /**
   Adding the final end of line changes nothing, except when the input stops
   inside a directive: then the input is accepted without it and refused with it.
   */
  lemma {:induction false} FinalEol(lib: Library, m: Machine, tokens: seq<Token>)
    ensures if InDirective(EndState(lib, m, tokens))
            then Run(lib, m, tokens).Done? && Run(lib, m, tokens + [EOL]) == Failed(UnexpectedToken)
            else match (Run(lib, m, tokens), Run(lib, m, tokens + [EOL]))
                 case (Done(a), Done(b)) => a.origin == b.origin && a.records == b.records
                 case (Failed(e), Failed(f)) => e == f
                 case _ => false
    decreases |tokens|
  {
    var more := tokens + [EOL];
    if tokens == [] {
      assert more == [EOL];
      OneEol(lib, m);
      if m.state.InRecord? {
        FlushEndsLine(lib, m, m.state.parts);
      }
    } else {
      assert more[0] == tokens[0] && more[1..] == tokens[1..] + [EOL];
      match Step(lib, m, tokens[0])
      case Failed(_) =>
      case Done(next) => FinalEol(lib, next, tokens[1..]);
    }
  }

  // ---------- Record sets ----------

  /** Every record sits in the set of its own owner and type, and an SOA is alone in its set. */
  ghost predicate Keyed(records: Records) {
    && (forall k, i :: k in records && 0 <= i < |records[k]| ==> KeyOf(records[k][i]) == k)
    && (forall k :: k in records && k.rtype == SOA ==> |records[k]| == 1)
  }

  lemma InsertKeyed(records: Records, r: Record)
    requires Keyed(records)
    ensures Insert(records, r).Done? ==> Keyed(Insert(records, r).value)
  {
  }

  lemma StepKeyed(lib: Library, m: Machine, t: Token)
    requires Keyed(m.records) && Step(lib, m, t).Done?
    ensures Keyed(Step(lib, m, t).value.records)
  {
    if m.state.InRecord? && t.EOL? {
      FlushKeyed(lib, m, m.state.parts);
    }
  }

  lemma FlushKeyed(lib: Library, m: Machine, parts: seq<string>)
    requires Keyed(m.records) && Flush(lib, m, parts).Done?
    ensures Keyed(Flush(lib, m, parts).value.records)
  {
    var rdata := lib.parseRdata(m.rtype.value, parts, m.origin).value;
    if m.rtype.value == SOA {
      InsertKeyed(m.records, Record(m.name.value, SOA, m.class_, AsU32(rdata.expire), rdata));
    } else {
      InsertKeyed(m.records, Record(m.name.value, m.rtype.value, m.class_, m.ttl.value, rdata));
    }
  }

  lemma {:induction false} RunKeyed(lib: Library, m: Machine, tokens: seq<Token>)
    requires Keyed(m.records) && Run(lib, m, tokens).Done?
    ensures Keyed(Run(lib, m, tokens).value.records)
    decreases |tokens|
  {
    if tokens == [] {
      if m.state.InRecord? {
        FlushKeyed(lib, m, m.state.parts);
      }
    } else {
      StepKeyed(lib, m, tokens[0]);
      RunKeyed(lib, Step(lib, m, tokens[0]).value, tokens[1..]);
    }
  }

  /** A successful parse holds at most one SOA for each owner, and every record under its own key. */
  lemma ParsedZoneKeyed(lib: Library, tokens: seq<Token>, origin: Name, class_: nat)
    requires Parse(lib, tokens, origin, class_).Done?
    ensures Keyed(Parse(lib, tokens, origin, class_).value.records)
  {
    RunKeyed(lib, Initial(origin, class_), tokens);
  }
}
