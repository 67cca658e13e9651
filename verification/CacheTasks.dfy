/**
 The task bodies of the response cache as they are written, run without
 interruption on the shared object, and their agreement with the events of the
 transition system.
 */
module CacheTasks {
  import opened Names
  import opened LruMap
  import opened CacheModel

  const CLASS_IN: nat := 1
  const CLASS_CH: nat := 3
  const CLASS_HS: nat := 4
  const CLASS_NONE: nat := 254
  const CLASS_ANY: nat := 255
  const TYPE_ANY: nat := 255

  const KNOWN_RECORD_TYPES: seq<nat> := [1, 28, 257, 5, 13, 65, 15, 35, 2, 61, 12, 6, 33, 44, 64, 52, 16, 49]

  predicate KnownClass(c: nat) {
    c == CLASS_IN || c == CLASS_CH || c == CLASS_HS || c == CLASS_NONE || c == CLASS_ANY
  }

  /** The keys that a flush message is about. */
  predicate Flushes(name: Name, qclass: nat, qtype: nat, k: CacheKey) {
    && k.name == Lower(name)
    && KnownClass(qclass)
    && (if qclass == CLASS_ANY
        then k.qclass == CLASS_IN || k.qclass == CLASS_CH || k.qclass == CLASS_HS
        else k.qclass == qclass)
    && (if qtype == TYPE_ANY then k.qtype in KNOWN_RECORD_TYPES else k.qtype == qtype)
  }

  method AddKeys(name: Name, qclass: nat, qtype: nat) returns (keys: seq<CacheKey>)
    ensures forall k :: k in keys <==>
                          k.name == Lower(name) && k.qclass == qclass
                          && (if qtype == TYPE_ANY then k.qtype in KNOWN_RECORD_TYPES else k.qtype == qtype)
  {
    keys := [];
    if qtype == TYPE_ANY {
      for i := 0 to |KNOWN_RECORD_TYPES|
        invariant forall k :: k in keys <==>
                                k.name == Lower(name) && k.qclass == qclass && k.qtype in KNOWN_RECORD_TYPES[..i]
      {
        var t := KNOWN_RECORD_TYPES[i];
        assert KNOWN_RECORD_TYPES[..i + 1] == KNOWN_RECORD_TYPES[..i] + [t];
        keys := keys + [CacheKey(Lower(name), qclass, t, false)];
        keys := keys + [CacheKey(Lower(name), qclass, t, true)];
      }
      assert KNOWN_RECORD_TYPES[..|KNOWN_RECORD_TYPES|] == KNOWN_RECORD_TYPES;
    } else {
      keys := keys + [CacheKey(Lower(name), qclass, qtype, false)];
      keys := keys + [CacheKey(Lower(name), qclass, qtype, true)];
    }
  }

  /** The flush listener clears exactly the keys that its message is about, with and without DNSSEC. */
  method KeysToClear(name: Name, qclass: nat, qtype: nat) returns (keys: seq<CacheKey>)
    ensures forall k :: k in keys <==> Flushes(name, qclass, qtype, k)
  {
    if !KnownClass(qclass) {
      return [];
    }
    if qclass == CLASS_ANY {
      keys := AddKeys(name, CLASS_IN, qtype);
      var ch := AddKeys(name, CLASS_CH, qtype);
      var hs := AddKeys(name, CLASS_HS, qtype);
      keys := keys + ch + hs;
    } else {
      keys := AddKeys(name, qclass, qtype);
    }
  }

  /** Position i of the scan found a stale entry. */
  predicate StaleAt(entries: seq<Entry<CacheKey, CacheData>>, clock: seq<nat>, i: nat)
    requires i < |entries| == |clock|
  {
    entries[i].value.validUntil < clock[i]
  }

  function StaleKeys(entries: seq<Entry<CacheKey, CacheData>>, clock: seq<nat>): seq<CacheKey>
    requires |entries| == |clock|
  {
    if entries == [] then []
    else
      var n := |entries| - 1;
      StaleKeys(entries[..n], clock[..n]) + if StaleAt(entries, clock, n) then [entries[n].key] else []
  }

  /** The updater's scan, one clock reading per entry. */
  method CollectStale(entries: seq<Entry<CacheKey, CacheData>>, clock: seq<nat>) returns (toUpdate: seq<CacheKey>)
    requires |entries| == |clock|
    ensures toUpdate == StaleKeys(entries, clock)
    ensures forall k :: k in toUpdate <==>
                          exists i :: 0 <= i < |entries| && StaleAt(entries, clock, i) && entries[i].key == k
  {
    toUpdate := [];
    for i := 0 to |entries|
      invariant toUpdate == StaleKeys(entries[..i], clock[..i])
      invariant forall k :: k in toUpdate <==>
                              exists j :: 0 <= j < i && StaleAt(entries, clock, j) && entries[j].key == k
    {
      assert entries[..i + 1][..i] == entries[..i] && clock[..i + 1][..i] == clock[..i];
      assert StaleAt(entries[..i + 1], clock[..i + 1], i) == StaleAt(entries, clock, i);
      if entries[i].value.validUntil < clock[i] {
        toUpdate := toUpdate + [entries[i].key];
      }
    }
    assert entries[..|entries|] == entries && clock[..|entries|] == clock;
  }

  /** What one uninterrupted fetch leaves in the cache. */
  function AfterFetch(cache: seq<Entry<CacheKey, CacheData>>, k: CacheKey, upstream: Option<Message>, isNew: bool,
                      softNow: nat, hardNow: nat): seq<Entry<CacheKey, CacheData>>
  {
    if upstream.Some? && Storable(upstream.value, isNew)
    then Put(cache, k, DataOf(upstream.value, softNow + SOFT_LIFETIME, hardNow + HARD_LIFETIME), CAPACITY)
    else cache
  }

  class Shared {
    const cache: LruCache<CacheKey, CacheData>
    var inFlight: set<CacheKey>

    constructor ()
      ensures cache.Valid() && cache.entries == [] && cache.capacity == CAPACITY && inFlight == {}
      ensures fresh(cache)
    {
      cache := new LruCache(CAPACITY);
      inFlight := {};
    }

    /** `fetch_and_insert`, the upstream's answer and the two clock readings given. */
    method FetchAndInsert(k: CacheKey, upstream: Option<Message>, isNew: bool, softNow: nat, hardNow: nat)
      returns (r: Option<Message>)
      requires cache.Valid() && cache.capacity == CAPACITY
      modifies this, cache
      ensures cache.Valid()
      ensures cache.entries == AfterFetch(old(cache.entries), k, upstream, isNew, softNow, hardNow)
      ensures inFlight == old(inFlight) - {k}
      ensures r == upstream
    {
      inFlight := inFlight + {k};
      if upstream.None? {
        inFlight := inFlight - {k};
        return None;
      }
      var m := upstream.value;
      if m.payload.code != SERVFAIL || isNew {
        var data := DataOf(m, softNow + SOFT_LIFETIME, hardNow + HARD_LIFETIME);
        cache.Insert(k, data);
      }
      inFlight := inFlight - {k};
      r := Some(m);
    }
  }

  // ---------- The same, as events ----------

  /** The events lead from s to t, one after the other. */
  ghost predicate Leads(s: State, events: seq<Event>, t: State)
    decreases |events|
  {
    if events == [] then t == s else Enabled(s, events[0]) && Leads(Apply(s, events[0]), events[1..], t)
  }

  lemma LeadsCons(s: State, e: Event, events: seq<Event>, t: State)
    requires Enabled(s, e) && Leads(Apply(s, e), events, t)
    ensures Leads(s, [e] + events, t)
  {
    assert ([e] + events)[1..] == events;
  }

  /** State t is s after fetch f ended with the outcome, left the cache as given and released its key. */
  ghost predicate Ended(s: State, f: nat, outcome: Option<Message>, cache: seq<Entry<CacheKey, CacheData>>, t: State)
    requires f in s.fetches
  {
    && t.cache == cache && t.inFlight == s.inFlight - {s.fetches[f].key}
    && t.fetches == s.fetches[f := s.fetches[f].(phase := Finished(outcome))]
    && t.lookups == s.lookups && t.updater == s.updater
  }

  /** The cache after fetch f, started in s, with the given time between its two stamps. */
  function CacheAfter(s: State, f: nat, upstream: Option<Message>, elapsed: nat): seq<Entry<CacheKey, CacheData>>
    requires f in s.fetches
  {
    AfterFetch(s.cache, s.fetches[f].key, upstream, s.fetches[f].isNew, s.clock, s.clock + elapsed)
  }

  lemma ReleaseEnds(s: State, f: nat) returns (t: State)
    requires f in s.fetches && s.fetches[f].phase.Releasing?
    ensures Leads(s, [Release(f)], t) && Ended(s, f, s.fetches[f].phase.outcome, s.cache, t)
  {
    t := Apply(s, Release(f));
    LeadsCons(s, Release(f), [], t);
  }

  lemma StoreEnds(s: State, f: nat) returns (t: State)
    requires f in s.fetches && s.fetches[f].phase.Stamped?
    ensures Leads(s, [Store(f)] + [Release(f)], t)
    ensures var p := s.fetches[f].phase;
            Ended(s, f, Some(p.reply), Put(s.cache, s.fetches[f].key, p.data, CAPACITY), t)
  {
    t := ReleaseEnds(Apply(s, Store(f)), f);
    LeadsCons(s, Store(f), [Release(f)], t);
  }

  /** From the first stamp on, with the given time passing before the second. */
  function StoringEvents(f: nat, elapsed: nat): seq<Event> {
    [Tick(elapsed)] + ([StampHard(f)] + ([Store(f)] + [Release(f)]))
  }

  lemma StampsEnd(s: State, f: nat, elapsed: nat) returns (t: State)
    requires f in s.fetches && s.fetches[f].phase.SoftStamped?
    ensures Leads(s, StoringEvents(f, elapsed), t)
    ensures var p := s.fetches[f].phase;
            var d := DataOf(p.reply, p.validUntil, s.clock + elapsed + HARD_LIFETIME);
            Ended(s, f, Some(p.reply), Put(s.cache, s.fetches[f].key, d, CAPACITY), t)
  {
    var later := Apply(s, Tick(elapsed));
    t := StoreEnds(Apply(later, StampHard(f)), f);
    LeadsCons(later, StampHard(f), [Store(f)] + [Release(f)], t);
    LeadsCons(s, Tick(elapsed), [StampHard(f)] + ([Store(f)] + [Release(f)]), t);
  }

  /** From the upstream's reply on. */
  function ReplyEvents(f: nat, stores: bool, elapsed: nat): seq<Event> {
    [StampSoft(f)] + if stores then StoringEvents(f, elapsed) else [Release(f)]
  }

  lemma ReplyEnds(s: State, f: nat, elapsed: nat) returns (t: State)
    requires f in s.fetches && s.fetches[f].phase.Replied?
    ensures var m, isNew := s.fetches[f].phase.reply, s.fetches[f].isNew;
            && Leads(s, ReplyEvents(f, Storable(m, isNew), elapsed), t)
            && Ended(s, f, Some(m), CacheAfter(s, f, Some(m), elapsed), t)
  {
    var next := Apply(s, StampSoft(f));
    if Storable(s.fetches[f].phase.reply, s.fetches[f].isNew) {
      t := StampsEnd(next, f, elapsed);
      LeadsCons(s, StampSoft(f), StoringEvents(f, elapsed), t);
    } else {
      t := ReleaseEnds(next, f);
      LeadsCons(s, StampSoft(f), [Release(f)], t);
    }
  }

  function FetchEvents(f: nat, isNew: bool, upstream: Option<Message>, elapsed: nat): seq<Event> {
    [Begin(f)] + match upstream
                 case None => [Fail(f)] + [Release(f)]
                 case Some(m) => [Reply(f, m)] + ReplyEvents(f, Storable(m, isNew), elapsed)
  }

  lemma AnswerEnds(s: State, f: nat, upstream: Option<Message>, elapsed: nat) returns (t: State)
    requires f in s.fetches && s.fetches[f].phase.Querying?
    ensures Leads(s, FetchEvents(f, s.fetches[f].isNew, upstream, elapsed)[1..], t)
    ensures Ended(s, f, upstream, CacheAfter(s, f, upstream, elapsed), t)
  {
    if upstream.Some? {
      t := ReplyEnds(Apply(s, Reply(f, upstream.value)), f, elapsed);
      LeadsCons(s, Reply(f, upstream.value), ReplyEvents(f, Storable(upstream.value, s.fetches[f].isNew), elapsed), t);
    } else {
      t := ReleaseEnds(Apply(s, Fail(f)), f);
      LeadsCons(s, Fail(f), [Release(f)], t);
    }
  }

  /**
   From every state, the events of a fetch with no other task between them leave
   the cache, the in-flight set and the outcome that `FetchAndInsert` leaves, and
   no other task changed.
   */
  lemma UninterruptedFetch(s: State, f: nat, upstream: Option<Message>, elapsed: nat) returns (t: State)
    requires f in s.fetches && s.fetches[f].phase.Queued?
    ensures Leads(s, FetchEvents(f, s.fetches[f].isNew, upstream, elapsed), t)
    ensures Ended(s, f, upstream, CacheAfter(s, f, upstream, elapsed), t)
  {
    var begun := Apply(s, Begin(f));
    t := AnswerEnds(begun, f, upstream, elapsed);
    var events := FetchEvents(f, s.fetches[f].isNew, upstream, elapsed);
    LeadsCons(s, Begin(f), events[1..], t);
    assert events == [Begin(f)] + events[1..];
    assert begun.inFlight - {s.fetches[f].key} == s.inFlight - {s.fetches[f].key};
  }
}
