/**
 The DNS response cache as a transition system.  Lookups, fetches, background
 revalidations, the periodic updater and the flush listener are tasks that
 interleave; one event is one section of a task between two points at which
 another task can run.  The state is the program's state and holds no history:
 what happened is read off the trace of states and events.
 */
module CacheModel {
  import opened Names
  import opened LruMap

  // Instants are nanoseconds.
  const SECOND: nat := 1_000_000_000
  const SOFT_LIFETIME: nat := 300 * SECOND
  const HARD_LIFETIME: nat := 43200 * SECOND
  const CAPACITY: nat := 65535
  const SERVFAIL: nat := 2

  // ---------- Messages and cache entries ----------

  datatype Record = Record(text: string)

  datatype Edns = Edns(dnssecOk: bool, options: seq<string>)

  datatype Question = Question(name: Name, qclass: nat, qtype: nat)

  datatype Request = Request(id: nat, recursionDesired: bool, edns: Option<Edns>, question: Question)

  datatype Payload = Payload(code: nat, answers: seq<Record>, nameServers: seq<Record>, additionals: seq<Record>)

  datatype Message = Message(
    id: nat, authoritative: bool, recursionDesired: bool, question: Question,
    payload: Payload, edns: Option<Edns>)

  datatype CacheKey = CacheKey(name: Name, qclass: nat, qtype: nat, isDnssec: bool)

  datatype CacheData = CacheData(validUntil: nat, hardValidUntil: nat, payload: Payload, edns: Edns)

  function WantsDnssec(r: Request): bool {
    r.edns.Some? && r.edns.value.dnssecOk
  }

  function KeyOf(r: Request): CacheKey {
    CacheKey(Lower(r.question.name), r.question.qclass, r.question.qtype, WantsDnssec(r))
  }

  /** The query that the updater rebuilds from a cache key. */
  function UpdaterRequest(k: CacheKey): Request {
    Request(0, false, Some(Edns(k.isDnssec, [])), Question(k.name, k.qclass, k.qtype))
  }

  function DataOf(m: Message, validUntil: nat, hardValidUntil: nat): CacheData {
    CacheData(validUntil, hardValidUntil, m.payload, if m.edns.Some? then m.edns.value else Edns(false, []))
  }

  /** The answer built from a cache entry for one particular request. */
  function CachedAnswer(r: Request, d: CacheData): Message {
    Message(r.id, true, r.recursionDesired, r.question, d.payload, Some(d.edns.(dnssecOk := WantsDnssec(r))))
  }

  /** A reply that `fetch_and_insert` stores: a server failure only for a new entry. */
  predicate Storable(m: Message, isNew: bool) {
    m.payload.code != SERVFAIL || isNew
  }

  predicate Normal(k: CacheKey) {
    Lower(k.name) == k.name
  }

  // ---------- Tasks ----------

  datatype FetchPhase =
    | Queued
    | Querying
    | Replied(reply: Message)
    | SoftStamped(reply: Message, validUntil: nat)
    | Stamped(reply: Message, data: CacheData)
    | Releasing(outcome: Option<Message>)
    | Finished(outcome: Option<Message>)

  datatype Fetch = Fetch(request: Request, key: CacheKey, isNew: bool, phase: FetchPhase)

  datatype LookupPhase =
    | Polling
    | Reading
    | Have(data: CacheData)
    | NotHardExpired(data: CacheData, checkedAt: nat)
    | Fetching(fetch: nat)
    | Answered(answer: Message)
    | Failed

  datatype Lookup = Lookup(request: Request, phase: LookupPhase)

  datatype Updater =
    | Sleeping
    | Scanning(entries: seq<Entry<CacheKey, CacheData>>, toUpdate: seq<CacheKey>)
    | Updating(toUpdate: seq<CacheKey>)
    | Awaiting(toUpdate: seq<CacheKey>, fetch: nat)

  datatype State = State(
    clock: nat,
    cache: seq<Entry<CacheKey, CacheData>>,
    inFlight: set<CacheKey>,
    fetches: map<nat, Fetch>,
    lookups: map<nat, Lookup>,
    updater: Updater,
    nextId: nat)

  const INITIAL: State := State(0, [], {}, map[], map[], Sleeping, 0)

  // ---------- Events ----------

  datatype Event =
    | Tick(elapsed: nat)
    | Arrive(request: Request)
    | Poll(l: nat)
    | Read(l: nat)
    | HardCheck(l: nat)
    | SoftCheck(l: nat)
    | Collect(l: nat)
    | Begin(f: nat)
    | Reply(f: nat, reply: Message)
    | Fail(f: nat)
    | StampSoft(f: nat)
    | StampHard(f: nat)
    | Store(f: nat)
    | Release(f: nat)
    | UpdaterLock
    | UpdaterScan
    | UpdaterLaunch
    | UpdaterJoin
    | Pop(key: CacheKey)

  predicate Enabled(s: State, e: Event) {
    match e
    case Tick(_) => true
    case Arrive(_) => true
    case Poll(l) => l in s.lookups && s.lookups[l].phase.Polling?
    case Read(l) => l in s.lookups && s.lookups[l].phase.Reading?
    case HardCheck(l) => l in s.lookups && s.lookups[l].phase.Have?
    case SoftCheck(l) => l in s.lookups && s.lookups[l].phase.NotHardExpired?
    case Collect(l) =>
      && l in s.lookups && s.lookups[l].phase.Fetching?
      && s.lookups[l].phase.fetch in s.fetches && s.fetches[s.lookups[l].phase.fetch].phase.Finished?
    case Begin(f) => f in s.fetches && s.fetches[f].phase.Queued?
    case Reply(f, _) => f in s.fetches && s.fetches[f].phase.Querying?
    case Fail(f) => f in s.fetches && s.fetches[f].phase.Querying?
    case StampSoft(f) => f in s.fetches && s.fetches[f].phase.Replied?
    case StampHard(f) => f in s.fetches && s.fetches[f].phase.SoftStamped?
    case Store(f) => f in s.fetches && s.fetches[f].phase.Stamped?
    case Release(f) => f in s.fetches && s.fetches[f].phase.Releasing?
    case UpdaterLock => s.updater.Sleeping?
    case UpdaterScan => s.updater.Scanning?
    case UpdaterLaunch => s.updater.Updating?
    case UpdaterJoin =>
      && s.updater.Awaiting?
      && s.updater.fetch in s.fetches && s.fetches[s.updater.fetch].phase.Finished?
    case Pop(_) => true
  }

  function WithLookup(s: State, l: nat, p: LookupPhase): State
    requires l in s.lookups
  {
    s.(lookups := s.lookups[l := s.lookups[l].(phase := p)])
  }

  function WithFetch(s: State, f: nat, p: FetchPhase): State
    requires f in s.fetches
  {
    s.(fetches := s.fetches[f := s.fetches[f].(phase := p)])
  }

  function Spawn(s: State, r: Request, k: CacheKey, isNew: bool): State {
    s.(fetches := s.fetches[s.nextId := Fetch(r, k, isNew, Queued)], nextId := s.nextId + 1)
  }

  /** A miss: the lookup starts its own fetch and waits for it. */
  function Miss(s: State, l: nat): State
    requires l in s.lookups
  {
    var r := s.lookups[l].request;
    Spawn(WithLookup(s, l, Fetching(s.nextId)), r, KeyOf(r), true)
  }

  function Apply(s: State, e: Event): State
    requires Enabled(s, e)
  {
    match e
    case Tick(elapsed) => s.(clock := s.clock + elapsed)
    case Arrive(r) =>
      s.(lookups := s.lookups[s.nextId := Lookup(r, Polling)], nextId := s.nextId + 1)
    case Poll(l) =>
      if KeyOf(s.lookups[l].request) in s.inFlight then s else WithLookup(s, l, Reading)
    case Read(l) =>
      var k := KeyOf(s.lookups[l].request);
      var touched := s.(cache := Touch(s.cache, k));
      (match Find(s.cache, k)
       case Some(d) => WithLookup(touched, l, Have(d))
       case None => Miss(touched, l))
    case HardCheck(l) =>
      var d := s.lookups[l].phase.data;
      if d.hardValidUntil < s.clock then Miss(s, l) else WithLookup(s, l, NotHardExpired(d, s.clock))
    case SoftCheck(l) =>
      var r := s.lookups[l].request;
      var d := s.lookups[l].phase.data;
      var done := WithLookup(s, l, Answered(CachedAnswer(r, d)));
      if d.validUntil < s.clock then Spawn(done, r, KeyOf(r), false) else done
    case Collect(l) =>
      var outcome := s.fetches[s.lookups[l].phase.fetch].phase.outcome;
      WithLookup(s, l, if outcome.Some? then Answered(outcome.value.(authoritative := true)) else Failed)
    case Begin(f) =>
      WithFetch(s, f, Querying).(inFlight := s.inFlight + {s.fetches[f].key})
    case Reply(f, m) => WithFetch(s, f, Replied(m))
    case Fail(f) => WithFetch(s, f, Releasing(None))
    case StampSoft(f) =>
      var m := s.fetches[f].phase.reply;
      if Storable(m, s.fetches[f].isNew)
      then WithFetch(s, f, SoftStamped(m, s.clock + SOFT_LIFETIME))
      else WithFetch(s, f, Releasing(Some(m)))
    case StampHard(f) =>
      var p := s.fetches[f].phase;
      WithFetch(s, f, Stamped(p.reply, DataOf(p.reply, p.validUntil, s.clock + HARD_LIFETIME)))
    case Store(f) =>
      var p := s.fetches[f].phase;
      WithFetch(s, f, Releasing(Some(p.reply))).(cache := Put(s.cache, s.fetches[f].key, p.data, CAPACITY))
    case Release(f) =>
      WithFetch(s, f, Finished(s.fetches[f].phase.outcome)).(inFlight := s.inFlight - {s.fetches[f].key})
    case UpdaterLock => s.(updater := Scanning(s.cache, []))
    case UpdaterScan =>
      var u := s.updater;
      if u.entries == [] then s.(updater := Updating(u.toUpdate))
      else if u.entries[0].value.validUntil < s.clock
      then s.(updater := Scanning(u.entries[1..], u.toUpdate + [u.entries[0].key]))
      else s.(updater := Scanning(u.entries[1..], u.toUpdate))
    case UpdaterLaunch =>
      var u := s.updater;
      if u.toUpdate == [] then s.(updater := Sleeping)
      else Spawn(s.(updater := Awaiting(u.toUpdate[1..], s.nextId)),
                 UpdaterRequest(u.toUpdate[0]), u.toUpdate[0], false)
    case UpdaterJoin => s.(updater := Updating(s.updater.toUpdate))
    case Pop(k) => s.(cache := Without(s.cache, k))
  }

  // ---------- Traces ----------

  datatype Trace = Trace(states: seq<State>, events: seq<Event>)

  ghost predicate StepAt(tr: Trace, i: nat)
    requires i < |tr.events| < |tr.states|
  {
    Enabled(tr.states[i], tr.events[i]) && tr.states[i + 1] == Apply(tr.states[i], tr.events[i])
  }

  /** Every interleaving of the tasks, from an empty cache. */
  ghost predicate Valid(tr: Trace) {
    && |tr.states| == |tr.events| + 1
    && tr.states[0] == INITIAL
    && forall i :: 0 <= i < |tr.events| ==> StepAt(tr, i)
  }

  function Extend(tr: Trace, e: Event): Trace
    requires |tr.states| > 0 && Enabled(tr.states[|tr.states| - 1], e)
  {
    Trace(tr.states + [Apply(tr.states[|tr.states| - 1], e)], tr.events + [e])
  }

  lemma ExtendValid(tr: Trace, e: Event)
    requires Valid(tr) && Enabled(tr.states[|tr.events|], e)
    ensures Valid(Extend(tr, e))
  {
    var t := Extend(tr, e);
    forall i | 0 <= i < |t.events|
      ensures StepAt(t, i)
    {
      if i < |tr.events| {
        assert StepAt(tr, i);
      }
    }
  }
}
