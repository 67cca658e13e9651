/**
 What every interleaving of the response cache keeps: payloads served from the
 cache are recent upstream replies to the same key, server failures are stored
 only after a miss, flushed payloads come back only through a reply that was
 already in hand, and keys in flight always have a fetch that will release them.
 */
module CacheProof {
  import opened Names
  import opened LruMap
  import opened CacheModel

  // ---------- What every reachable state satisfies ----------

  /** A fetch between inserting its key into the in-flight set and removing it. */
  predicate Holding(f: Fetch) {
    !f.phase.Queued? && !f.phase.Finished?
  }

  predicate FetchOk(f: Fetch) {
    && KeyOf(f.request) == f.key
    && (f.phase.SoftStamped? || f.phase.Stamped? ==> Storable(f.phase.reply, f.isNew))
    && (f.phase.Stamped? ==> f.phase.data.payload == f.phase.reply.payload)
  }

  ghost predicate UpdaterOk(u: Updater) {
    match u
    case Sleeping => true
    case Scanning(entries, toUpdate) =>
      && (forall e :: e in entries ==> Normal(e.key))
      && (forall k :: k in toUpdate ==> Normal(k))
    case Updating(toUpdate) => forall k :: k in toUpdate ==> Normal(k)
    case Awaiting(toUpdate, _) => forall k :: k in toUpdate ==> Normal(k)
  }

  ghost predicate CacheOk(s: State) {
    && Distinct(s.cache) && |s.cache| <= CAPACITY
    && forall e :: e in s.cache ==> Normal(e.key)
  }

  ghost predicate FetchesOk(s: State) {
    forall f :: f in s.fetches ==> f < s.nextId && FetchOk(s.fetches[f])
  }

  ghost predicate LookupsOk(s: State) {
    forall l :: l in s.lookups ==> l < s.nextId
  }

  ghost predicate Good(s: State) {
    CacheOk(s) && FetchesOk(s) && LookupsOk(s) && UpdaterOk(s.updater)
  }

  /** Some fetch has taken the key and not yet released it. */
  ghost predicate Held(s: State, k: CacheKey) {
    exists f :: f in s.fetches && Holding(s.fetches[f]) && s.fetches[f].key == k
  }

  ghost predicate InFlightHeld(s: State) {
    forall k :: k in s.inFlight ==> Held(s, k)
  }

  lemma KeyIsNormal(r: Request)
    ensures Normal(KeyOf(r))
  {
    LowerIdempotent(r.question.name);
  }

  lemma UpdaterKey(k: CacheKey)
    requires Normal(k)
    ensures KeyOf(UpdaterRequest(k)) == k
  {
  }

  lemma StepCacheOk(s: State, e: Event)
    requires Good(s) && Enabled(s, e)
    ensures CacheOk(Apply(s, e))
  {
    if e.Read? {
      TouchKeeps(s.cache, KeyOf(s.lookups[e.l].request));
    } else if e.Store? {
      PutKeeps(s.cache, s.fetches[e.f].key, s.fetches[e.f].phase.data, CAPACITY);
      KeyIsNormal(s.fetches[e.f].request);
    } else if e.Pop? {
      WithoutDistinct(s.cache, e.key);
    }
  }

  lemma StepFetchesOk(s: State, e: Event)
    requires Good(s) && Enabled(s, e)
    ensures FetchesOk(Apply(s, e))
  {
    var s' := Apply(s, e);
    forall f | f in s'.fetches
      ensures f < s'.nextId && FetchOk(s'.fetches[f])
    {
      FetchFrame(s, e, f);
      if f !in s.fetches {
        NewFetchOk(s, e);
      } else if Of(e, f) {
        OwnFetchOk(s, e, f);
      }
    }
  }

  lemma OwnFetchOk(s: State, e: Event, f: nat)
    requires f in s.fetches && FetchOk(s.fetches[f]) && Enabled(s, e) && Of(e, f)
    ensures f in Apply(s, e).fetches && FetchOk(Apply(s, e).fetches[f])
  {
  }

  lemma NewFetchOk(s: State, e: Event)
    requires UpdaterOk(s.updater) && Enabled(s, e) && s.nextId !in s.fetches
    ensures s.nextId in Apply(s, e).fetches ==>
              FetchOk(Apply(s, e).fetches[s.nextId]) && s.nextId < Apply(s, e).nextId
  {
    if e.UpdaterLaunch? && s.updater.toUpdate != [] {
      UpdaterKey(s.updater.toUpdate[0]);
    }
  }

  lemma StepLookupsOk(s: State, e: Event)
    requires LookupsOk(s) && Enabled(s, e)
    ensures LookupsOk(Apply(s, e))
  {
  }

  lemma StepUpdaterOk(s: State, e: Event)
    requires CacheOk(s) && UpdaterOk(s.updater) && Enabled(s, e)
    ensures UpdaterOk(Apply(s, e).updater)
  {
    match e
    case UpdaterLock =>
    case UpdaterScan =>
    case UpdaterLaunch =>
    case _ =>
  }

  lemma StepGood(s: State, e: Event)
    requires Good(s) && Enabled(s, e)
    ensures Good(Apply(s, e))
  {
    StepCacheOk(s, e);
    StepFetchesOk(s, e);
    StepLookupsOk(s, e);
    StepUpdaterOk(s, e);
  }

  /** The events that a fetch performs itself. */
  predicate Of(e: Event, f: nat) {
    match e
    case Begin(g) => f == g
    case Reply(g, _) => f == g
    case Fail(g) => f == g
    case StampSoft(g) => f == g
    case StampHard(g) => f == g
    case Store(g) => f == g
    case Release(g) => f == g
    case _ => false
  }

  /** No event but a fetch's own changes it, and none changes what it was made for. */
  lemma FetchFrame(s: State, e: Event, f: nat)
    requires s.nextId !in s.fetches && Enabled(s, e) && f in Apply(s, e).fetches
    ensures f in s.fetches && !Of(e, f) ==> Apply(s, e).fetches[f] == s.fetches[f]
    ensures f in s.fetches ==> Apply(s, e).fetches[f] == s.fetches[f].(phase := Apply(s, e).fetches[f].phase)
    ensures f !in s.fetches ==> f == s.nextId && Apply(s, e).fetches[f].phase.Queued?
  {
  }

  /** The events that a lookup performs itself. */
  predicate OfLookup(e: Event, l: nat) {
    match e
    case Poll(m) => l == m
    case Read(m) => l == m
    case HardCheck(m) => l == m
    case SoftCheck(m) => l == m
    case Collect(m) => l == m
    case _ => false
  }

  lemma LookupFrame(s: State, e: Event, l: nat)
    requires s.nextId !in s.lookups && Enabled(s, e) && l in Apply(s, e).lookups
    ensures l in s.lookups && !OfLookup(e, l) ==> Apply(s, e).lookups[l] == s.lookups[l]
    ensures l in s.lookups ==> Apply(s, e).lookups[l].request == s.lookups[l].request
    ensures l !in s.lookups ==> Apply(s, e).lookups[l].phase.Polling?
  {
  }

  /** Only storing brings an entry into the cache, and it brings the stamped reply of its own fetch. */
  lemma CacheFrame(s: State, e: Event)
    requires Good(s) && Enabled(s, e)
    ensures forall x :: x in Apply(s, e).cache && x !in s.cache ==>
                          e.Store? && x == Entry(s.fetches[e.f].key, s.fetches[e.f].phase.data)
    ensures s.clock <= Apply(s, e).clock
  {
    if e.Read? {
      TouchKeeps(s.cache, KeyOf(s.lookups[e.l].request));
    } else if e.Store? {
      PutKeeps(s.cache, s.fetches[e.f].key, s.fetches[e.f].phase.data, CAPACITY);
    }
  }

  lemma StepInFlight(s: State, e: Event)
    requires FetchesOk(s) && InFlightHeld(s) && Enabled(s, e)
    ensures InFlightHeld(Apply(s, e))
  {
    var s' := Apply(s, e);
    forall k | k in s'.inFlight
      ensures Held(s', k)
    {
      if e.Begin? && s.fetches[e.f].key == k {
        assert Holding(s'.fetches[e.f]) && s'.fetches[e.f].key == k;
      } else {
        assert k in s.inFlight && Held(s, k);
        var f :| f in s.fetches && Holding(s.fetches[f]) && s.fetches[f].key == k;
        FetchFrame(s, e, f);
        assert s'.fetches[f].key == k && Holding(s'.fetches[f]);
      }
    }
  }

  lemma {:induction false} Reachable(tr: Trace, n: nat)
    requires Valid(tr) && n < |tr.states|
    ensures Good(tr.states[n]) && InFlightHeld(tr.states[n])
  {
    if n > 0 {
      Reachable(tr, n - 1);
      assert StepAt(tr, n - 1);
      StepGood(tr.states[n - 1], tr.events[n - 1]);
      StepInFlight(tr.states[n - 1], tr.events[n - 1]);
    }
  }

  lemma {:induction false} ClockMonotone(tr: Trace, i: nat, n: nat)
    requires Valid(tr) && i <= n < |tr.states|
    ensures tr.states[i].clock <= tr.states[n].clock
    decreases n
  {
    if i < n {
      ClockMonotone(tr, i, n - 1);
      assert StepAt(tr, n - 1);
    }
  }

  // ---------- Where payloads come from ----------

  /** At step j the upstream answered the query of fetch f, a query with key k, with this message. */
  ghost predicate ReplyAt(tr: Trace, j: nat, f: nat, k: CacheKey, m: Message) {
    && j < |tr.events| < |tr.states|
    && tr.events[j] == Reply(f, m)
    && f in tr.states[j].fetches && tr.states[j].fetches[f].key == k && KeyOf(tr.states[j].fetches[f].request) == k
  }

  /** At step q the reply of fetch f got its soft expiry, 300 seconds later. */
  ghost predicate SoftAt(tr: Trace, q: nat, f: nat, validUntil: nat) {
    && q < |tr.events| < |tr.states|
    && tr.events[q] == StampSoft(f)
    && validUntil == tr.states[q].clock + SOFT_LIFETIME
  }

  /** At step s the reply of fetch f got its hard expiry, 43200 seconds later. */
  ghost predicate StampAt(tr: Trace, s: nat, f: nat, hardValidUntil: nat) {
    && s < |tr.events| < |tr.states|
    && tr.events[s] == StampHard(f)
    && hardValidUntil == tr.states[s].clock + HARD_LIFETIME
  }

  /** Where an entry comes from: the message, the fetch that heard it, and the steps of the reply and the two stamps. */
  datatype Origin = Origin(message: Message, fetch: nat, reply: nat, soft: nat, hard: nat)

  ghost predicate Heard(tr: Trace, lo: nat, n: nat, f: nat, k: CacheKey, m: Message) {
    exists j :: lo <= j < n && ReplyAt(tr, j, f, k, m)
  }

  ghost predicate SoftVia(tr: Trace, lo: nat, n: nat, f: nat, k: CacheKey, m: Message, validUntil: nat,
                          j: nat, q: nat)
  {
    lo <= j < q < n && ReplyAt(tr, j, f, k, m) && SoftAt(tr, q, f, validUntil)
  }

  ghost predicate SoftHeard(tr: Trace, lo: nat, n: nat, f: nat, k: CacheKey, m: Message, validUntil: nat) {
    exists j, q :: SoftVia(tr, lo, n, f, k, m, validUntil, j, q)
  }

  /** The entry holds the message's code, sections and EDNS, with the expiries of its stamps. */
  ghost predicate DerivedVia(tr: Trace, lo: nat, n: nat, k: CacheKey, d: CacheData, o: Origin) {
    && o.soft < o.hard < n
    && SoftVia(tr, lo, n, o.fetch, k, o.message, d.validUntil, o.reply, o.soft)
    && StampAt(tr, o.hard, o.fetch, d.hardValidUntil)
    && d.payload == o.message.payload
    && d.edns == if o.message.edns.Some? then o.message.edns.value else Edns(false, [])
  }

  ghost predicate Derived(tr: Trace, lo: nat, n: nat, k: CacheKey, d: CacheData) {
    exists o :: DerivedVia(tr, lo, n, k, d, o)
  }

  /** At step h lookup l compared the entry with the clock and found it not hard expired. */
  ghost predicate CheckAt(tr: Trace, h: nat, l: nat, d: CacheData) {
    && h < |tr.events| < |tr.states|
    && tr.events[h] == HardCheck(l)
    && tr.states[h].clock <= d.hardValidUntil
  }

  ghost predicate Checked(tr: Trace, lo: nat, n: nat, l: nat, k: CacheKey, d: CacheData) {
    exists o, h: nat :: h < n && DerivedVia(tr, lo, h, k, d, o) && CheckAt(tr, h, l, d)
  }

  /** An entry that a lookup reading it now would answer from. */
  predicate Usable(s: State, d: CacheData) {
    s.clock <= d.hardValidUntil
  }

  ghost predicate FetchFrom(tr: Trace, lo: nat, n: nat, f: nat, k: CacheKey, fetch: Fetch)
    requires n < |tr.states|
  {
    match fetch.phase
    case Replied(m) => Storable(m, fetch.isNew) ==> Heard(tr, lo, n, f, k, m)
    case SoftStamped(m, validUntil) => SoftHeard(tr, lo, n, f, k, m, validUntil)
    case Stamped(_, d) => Usable(tr.states[n], d) ==> Derived(tr, lo, n, k, d)
    case _ => true
  }

  ghost predicate LookupFrom(tr: Trace, lo: nat, n: nat, l: nat, k: CacheKey, p: LookupPhase)
    requires n < |tr.states|
  {
    match p
    case Have(d) => Usable(tr.states[n], d) ==> Derived(tr, lo, n, k, d)
    case NotHardExpired(d, _) => Checked(tr, lo, n, l, k, d)
    case _ => true
  }

  ghost predicate CacheFrom(tr: Trace, lo: nat, n: nat, k: CacheKey)
    requires n < |tr.states|
  {
    forall e :: e in tr.states[n].cache && e.key == k && Usable(tr.states[n], e.value) ==>
                  Derived(tr, lo, n, k, e.value)
  }

  ghost predicate FetchesFrom(tr: Trace, lo: nat, n: nat, k: CacheKey)
    requires n < |tr.states|
  {
    forall f :: f in tr.states[n].fetches && tr.states[n].fetches[f].key == k ==>
                  FetchFrom(tr, lo, n, f, k, tr.states[n].fetches[f])
  }

  ghost predicate LookupsFrom(tr: Trace, lo: nat, n: nat, k: CacheKey)
    requires n < |tr.states|
  {
    forall l :: l in tr.states[n].lookups && KeyOf(tr.states[n].lookups[l].request) == k ==>
                  LookupFrom(tr, lo, n, l, k, tr.states[n].lookups[l].phase)
  }

  /** Everything held for key k in state n comes from replies heard at step lo or later. */
  ghost predicate KeyFrom(tr: Trace, lo: nat, n: nat, k: CacheKey)
    requires n < |tr.states|
  {
    CacheFrom(tr, lo, n, k) && FetchesFrom(tr, lo, n, k) && LookupsFrom(tr, lo, n, k)
  }

  lemma StepFetchFrom(tr: Trace, lo: nat, n: nat, k: CacheKey, f: nat)
    requires Valid(tr) && lo <= n < |tr.events| && FetchesFrom(tr, lo, n, k)
    requires f in tr.states[n].fetches && tr.states[n].fetches[f].key == k
    requires StepAt(tr, n) && Of(tr.events[n], f) && Good(tr.states[n])
    ensures FetchFrom(tr, lo, n + 1, f, k, tr.states[n + 1].fetches[f])
  {
    var p, e := tr.states[n].fetches[f].phase, tr.events[n];
    assert FetchFrom(tr, lo, n, f, k, tr.states[n].fetches[f]);
    if e.Reply? {
      assert ReplyAt(tr, n, f, k, e.reply);
    } else if e.StampSoft? {
      if tr.states[n + 1].fetches[f].phase.SoftStamped? {
        SoftStampFrom(tr, lo, n, k, f, p.reply);
      }
    } else if e.StampHard? {
      HardStampFrom(tr, lo, n, k, f, p.reply, p.validUntil);
    }
  }

  lemma SoftStampFrom(tr: Trace, lo: nat, n: nat, k: CacheKey, f: nat, m: Message)
    requires n < |tr.events| < |tr.states| && tr.events[n] == StampSoft(f) && Heard(tr, lo, n, f, k, m)
    ensures SoftHeard(tr, lo, n + 1, f, k, m, tr.states[n].clock + SOFT_LIFETIME)
  {
    var j :| lo <= j < n && ReplyAt(tr, j, f, k, m);
    assert SoftVia(tr, lo, n + 1, f, k, m, tr.states[n].clock + SOFT_LIFETIME, j, n);
  }

  lemma HardStampFrom(tr: Trace, lo: nat, n: nat, k: CacheKey, f: nat, m: Message, validUntil: nat)
    requires n < |tr.events| < |tr.states| && tr.events[n] == StampHard(f)
    requires SoftHeard(tr, lo, n, f, k, m, validUntil)
    ensures Derived(tr, lo, n + 1, k, DataOf(m, validUntil, tr.states[n].clock + HARD_LIFETIME))
  {
    var j, q :| SoftVia(tr, lo, n, f, k, m, validUntil, j, q);
    assert SoftVia(tr, lo, n + 1, f, k, m, validUntil, j, q);
    assert DerivedVia(tr, lo, n + 1, k, DataOf(m, validUntil, tr.states[n].clock + HARD_LIFETIME),
                      Origin(m, f, j, q, n));
  }

  /** What was so by step n is so by any later one. */
  lemma DerivedLater(tr: Trace, lo: nat, n: nat, k: CacheKey, d: CacheData)
    requires Derived(tr, lo, n, k, d)
    ensures Derived(tr, lo, n + 1, k, d)
  {
    var o :| DerivedVia(tr, lo, n, k, d, o);
    assert SoftVia(tr, lo, n + 1, o.fetch, k, o.message, d.validUntil, o.reply, o.soft);
    assert DerivedVia(tr, lo, n + 1, k, d, o);
  }

  lemma FetchFromLater(tr: Trace, lo: nat, n: nat, f: nat, k: CacheKey, fetch: Fetch)
    requires n + 1 < |tr.states| && tr.states[n].clock <= tr.states[n + 1].clock && FetchFrom(tr, lo, n, f, k, fetch)
    ensures FetchFrom(tr, lo, n + 1, f, k, fetch)
  {
    match fetch.phase
    case SoftStamped(m, validUntil) =>
      var j, q :| SoftVia(tr, lo, n, f, k, m, validUntil, j, q);
      assert SoftVia(tr, lo, n + 1, f, k, m, validUntil, j, q);
    case Stamped(_, d) =>
      if Derived(tr, lo, n, k, d) {
        DerivedLater(tr, lo, n, k, d);
      }
    case _ =>
  }

  lemma StepFetchesFrom(tr: Trace, lo: nat, n: nat, k: CacheKey)
    requires Valid(tr) && lo <= n < |tr.events| && Good(tr.states[n]) && KeyFrom(tr, lo, n, k)
    ensures FetchesFrom(tr, lo, n + 1, k)
  {
    assert StepAt(tr, n);
    var s, e, s' := tr.states[n], tr.events[n], tr.states[n + 1];
    forall f | f in s'.fetches && s'.fetches[f].key == k
      ensures FetchFrom(tr, lo, n + 1, f, k, s'.fetches[f])
    {
      FetchFrame(s, e, f);
      if f in s.fetches {
        if Of(e, f) {
          StepFetchFrom(tr, lo, n, k, f);
        } else {
          ClockMonotone(tr, n, n + 1);
          FetchFromLater(tr, lo, n, f, k, s.fetches[f]);
        }
      }
    }
  }

  lemma StepCacheFrom(tr: Trace, lo: nat, n: nat, k: CacheKey)
    requires Valid(tr) && lo <= n < |tr.events| && Good(tr.states[n]) && KeyFrom(tr, lo, n, k)
    ensures CacheFrom(tr, lo, n + 1, k)
  {
    assert StepAt(tr, n);
    var s, e, s' := tr.states[n], tr.events[n], tr.states[n + 1];
    CacheFrame(s, e);
    forall x | x in s'.cache && x.key == k && Usable(s', x.value)
      ensures Derived(tr, lo, n + 1, k, x.value)
    {
      if x !in s.cache {
        assert FetchFrom(tr, lo, n, e.f, k, s.fetches[e.f]);
      }
      DerivedLater(tr, lo, n, k, x.value);
    }
  }

  lemma StepLookupFrom(tr: Trace, lo: nat, n: nat, k: CacheKey, l: nat)
    requires Valid(tr) && lo <= n < |tr.events| && KeyFrom(tr, lo, n, k)
    requires l in tr.states[n].lookups && KeyOf(tr.states[n].lookups[l].request) == k
    requires StepAt(tr, n) && OfLookup(tr.events[n], l)
    ensures LookupFrom(tr, lo, n + 1, l, k, tr.states[n + 1].lookups[l].phase)
  {
    var s, e, p' := tr.states[n], tr.events[n], tr.states[n + 1].lookups[l].phase;
    assert LookupFrom(tr, lo, n, l, k, s.lookups[l].phase);
    if p'.Have? && e.Read? {
      assert Entry(k, p'.data) in s.cache;
      if Usable(s, p'.data) {
        DerivedLater(tr, lo, n, k, p'.data);
      }
    } else if p'.NotHardExpired? && e.HardCheck? {
      var o :| DerivedVia(tr, lo, n, k, p'.data, o);
      assert CheckAt(tr, n, l, p'.data);
    }
  }

  lemma LookupFromLater(tr: Trace, lo: nat, n: nat, l: nat, k: CacheKey, p: LookupPhase)
    requires n + 1 < |tr.states| && tr.states[n].clock <= tr.states[n + 1].clock && LookupFrom(tr, lo, n, l, k, p)
    ensures LookupFrom(tr, lo, n + 1, l, k, p)
  {
    if p.Have? && Derived(tr, lo, n, k, p.data) {
      DerivedLater(tr, lo, n, k, p.data);
    }
  }

  lemma StepLookupsFrom(tr: Trace, lo: nat, n: nat, k: CacheKey)
    requires Valid(tr) && lo <= n < |tr.events| && Good(tr.states[n]) && KeyFrom(tr, lo, n, k)
    ensures LookupsFrom(tr, lo, n + 1, k)
  {
    assert StepAt(tr, n);
    var s, e, s' := tr.states[n], tr.events[n], tr.states[n + 1];
    forall l | l in s'.lookups && KeyOf(s'.lookups[l].request) == k
      ensures LookupFrom(tr, lo, n + 1, l, k, s'.lookups[l].phase)
    {
      LookupFrame(s, e, l);
      if l in s.lookups {
        if OfLookup(e, l) {
          StepLookupFrom(tr, lo, n, k, l);
        } else {
          ClockMonotone(tr, n, n + 1);
          LookupFromLater(tr, lo, n, l, k, s.lookups[l].phase);
        }
      }
    }
  }

  lemma {:induction false} AllKeyFrom(tr: Trace, lo: nat, n: nat, k: CacheKey)
    requires Valid(tr) && lo <= n < |tr.states| && KeyFrom(tr, lo, lo, k)
    ensures KeyFrom(tr, lo, n, k)
    decreases n
  {
    if lo < n {
      AllKeyFrom(tr, lo, n - 1, k);
      Reachable(tr, n - 1);
      StepCacheFrom(tr, lo, n - 1, k);
      StepFetchesFrom(tr, lo, n - 1, k);
      StepLookupsFrom(tr, lo, n - 1, k);
    }
  }

  // ---------- Served payloads ----------

  /** Some fetch of k has a reply that it will still store and that could then be served. */
  ghost predicate ReplyInHand(s: State, k: CacheKey) {
    exists f :: f in s.fetches && s.fetches[f].key == k && WillStore(s, s.fetches[f])
  }

  predicate WillStore(s: State, f: Fetch) {
    || (f.phase.Replied? && Storable(f.phase.reply, f.isNew))
    || f.phase.SoftStamped?
    || (f.phase.Stamped? && Usable(s, f.phase.data))
  }

  /** Some lookup of k has read an entry that it will still answer from. */
  ghost predicate CopyInHand(s: State, k: CacheKey) {
    exists l :: l in s.lookups && KeyOf(s.lookups[l].request) == k && WillServe(s, s.lookups[l].phase)
  }

  predicate WillServe(s: State, p: LookupPhase) {
    p.NotHardExpired? || (p.Have? && Usable(s, p.data))
  }

  /**
   What lookup l serves at step i comes from a message that the upstream gave,
   at step o.reply >= lo, to a fetch for the same key.  It was stamped at steps
   o.soft and o.hard, and at step h the clock was at most 43200 seconds past the
   second stamp.
   */
  ghost predicate ServedVia(tr: Trace, lo: nat, i: nat, l: nat, k: CacheKey, o: Origin, h: nat) {
    && lo <= o.reply < o.soft < o.hard < h < i < |tr.events| < |tr.states|
    && ReplyAt(tr, o.reply, o.fetch, k, o.message)
    && tr.events[o.soft] == StampSoft(o.fetch) && tr.events[o.hard] == StampHard(o.fetch)
    && tr.events[h] == HardCheck(l)
    && tr.states[o.reply].clock <= tr.states[o.hard].clock
       <= tr.states[h].clock <= tr.states[o.hard].clock + HARD_LIFETIME
  }

  /** The answer to request r made of message m: the asker's id, flags and question, the message's code and sections. */
  predicate MadeOf(answer: Message, r: Request, m: Message) {
    && answer.id == r.id && answer.question == r.question && answer.authoritative
    && answer.recursionDesired == r.recursionDesired
    && answer.payload == m.payload
    && answer.edns.Some? && answer.edns.value.options == (if m.edns.Some? then m.edns.value.options else [])
    && (answer.edns.value.dnssecOk <==> r.edns.Some? && r.edns.value.dnssecOk)
  }

  /** Step i starts a background refresh for request r, or else starts no fetch. */
  ghost predicate RefreshesIf(tr: Trace, i: nat, r: Request, stale: bool)
    requires i + 1 < |tr.states|
  {
    var s, s' := tr.states[i], tr.states[i + 1];
    s'.fetches == if stale then s.fetches[s.nextId := Fetch(r, KeyOf(r), false, Queued)] else s.fetches
  }

  /**
   Step i answers lookup l of key k from the cache, and refreshes the entry in
   the background if and only if its reply was stamped more than 300 s ago.
   */
  ghost predicate AnswersFrom(tr: Trace, lo: nat, i: nat, l: nat, k: CacheKey)
    requires i < |tr.events| < |tr.states|
  {
    && l in tr.states[i].lookups && l in tr.states[i + 1].lookups
    && var r, p := tr.states[i].lookups[l].request, tr.states[i + 1].lookups[l].phase;
    && KeyOf(r) == k && p.Answered?
    && exists o, h: nat :: AnsweredVia(tr, lo, i, l, k, r, p.answer, o, h)
  }

  ghost predicate AnsweredVia(tr: Trace, lo: nat, i: nat, l: nat, k: CacheKey, r: Request, answer: Message,
                              o: Origin, h: nat)
  {
    && ServedVia(tr, lo, i, l, k, o, h) && MadeOf(answer, r, o.message)
    && RefreshesIf(tr, i, r, tr.states[i].clock > tr.states[o.soft].clock + SOFT_LIFETIME)
  }

  /** Step i is a lookup of key k answering from the cache entry it read. */
  ghost predicate ServesFromCache(tr: Trace, i: nat, k: CacheKey) {
    && i < |tr.events| < |tr.states|
    && tr.events[i].SoftCheck?
    && tr.events[i].l in tr.states[i].lookups
    && KeyOf(tr.states[i].lookups[tr.events[i].l].request) == k
  }

  lemma CheckedIsServed(tr: Trace, lo: nat, i: nat, l: nat, k: CacheKey, d: CacheData) returns (o: Origin, h: nat)
    requires Valid(tr) && lo <= i < |tr.events| && Checked(tr, lo, i, l, k, d)
    ensures ServedVia(tr, lo, i, l, k, o, h)
    ensures d.payload == o.message.payload && d.validUntil == tr.states[o.soft].clock + SOFT_LIFETIME
    ensures d.edns == if o.message.edns.Some? then o.message.edns.value else Edns(false, [])
  {
    o, h :| h < i && DerivedVia(tr, lo, h, k, d, o) && CheckAt(tr, h, l, d);
    ClockMonotone(tr, o.reply, o.hard);
    ClockMonotone(tr, o.hard, h);
  }

  lemma Served(tr: Trace, lo: nat, i: nat, k: CacheKey)
    requires Valid(tr) && lo <= i && ServesFromCache(tr, i, k) && KeyFrom(tr, lo, lo, k)
    ensures AnswersFrom(tr, lo, i, tr.events[i].l, k)
  {
    assert StepAt(tr, i);
    var l := tr.events[i].l;
    var d := tr.states[i].lookups[l].phase.data;
    assert Checked(tr, lo, i, l, k, d) by {
      AllKeyFrom(tr, lo, i, k);
      assert LookupFrom(tr, lo, i, l, k, tr.states[i].lookups[l].phase);
    }
    var o, h := CheckedIsServed(tr, lo, i, l, k, d);
    ServingStep(tr, i);
    assert AnsweredVia(tr, lo, i, l, k, tr.states[i].lookups[l].request, tr.states[i + 1].lookups[l].phase.answer,
                       o, h);
  }

  /** What a step that serves does, by the entry it serves. */
  lemma ServingStep(tr: Trace, i: nat)
    requires i < |tr.events| < |tr.states| && tr.events[i].SoftCheck? && StepAt(tr, i)
    ensures var l := tr.events[i].l;
            var r, d := tr.states[i].lookups[l].request, tr.states[i].lookups[l].phase.data;
            var p := tr.states[i + 1].lookups[l].phase;
            && p.Answered? && p.answer.id == r.id && p.answer.question == r.question && p.answer.authoritative
            && p.answer.recursionDesired == r.recursionDesired && p.answer.payload == d.payload
            && p.answer.edns == Some(Edns(WantsDnssec(r), d.edns.options))
            && RefreshesIf(tr, i, r, tr.states[i].clock > d.validUntil)
  {
  }

  /** In every interleaving, what a lookup serves from the cache is a recent upstream reply to its own key. */
  lemma ServedFromCacheIsUpstream(tr: Trace, i: nat, k: CacheKey)
    requires Valid(tr) && ServesFromCache(tr, i, k)
    ensures AnswersFrom(tr, 0, i, tr.events[i].l, k)
  {
    Served(tr, 0, i, k);
  }

  // ---------- Flushes ----------

  /**
   After a flush of k that finds no reply and no copy in hand, every answer
   that a lookup of k serves from the cache is a reply heard after the flush.
   */
  lemma FlushedIsForgotten(tr: Trace, p: nat, i: nat, k: CacheKey)
    requires Valid(tr) && p < i && ServesFromCache(tr, i, k) && tr.events[p] == Pop(k)
    requires !ReplyInHand(tr.states[p], k) && !CopyInHand(tr.states[p], k)
    ensures AnswersFrom(tr, p + 1, i, tr.events[i].l, k)
  {
    assert StepAt(tr, p);
    Reachable(tr, p);
    Served(tr, p + 1, i, k);
  }

  // ---------- Server failures ----------

  /** At step j a lookup of k found the key absent, or its entry hard expired, and started fetch f. */
  ghost predicate MissAt(tr: Trace, j: nat, f: nat, k: CacheKey) {
    && j < |tr.events| < |tr.states|
    && var s, e := tr.states[j], tr.events[j];
    && f == s.nextId
    && (e.Read? || e.HardCheck?)
    && e.l in s.lookups && KeyOf(s.lookups[e.l].request) == k
    && (e.Read? ==> forall x :: x in s.cache ==> x.key != k)
    && (e.HardCheck? ==> s.lookups[e.l].phase.Have? && s.lookups[e.l].phase.data.hardValidUntil < s.clock)
  }

  lemma {:induction false} NewFetchMissed(tr: Trace, n: nat, f: nat)
    requires Valid(tr) && n < |tr.states| && f in tr.states[n].fetches && tr.states[n].fetches[f].isNew
    ensures exists j :: 0 <= j < n && MissAt(tr, j, f, tr.states[n].fetches[f].key)
    decreases n
  {
    assert n > 0;
    var s, e := tr.states[n - 1], tr.events[n - 1];
    assert StepAt(tr, n - 1);
    Reachable(tr, n - 1);
    FetchFrame(s, e, f);
    if f in s.fetches {
      NewFetchMissed(tr, n - 1, f);
    } else {
      assert MissAt(tr, n - 1, f, tr.states[n].fetches[f].key);
    }
  }

  /** A server failure is stored only by a fetch whose lookup found the key absent or hard expired. */
  lemma ServFailStoredOnlyAfterMiss(tr: Trace, i: nat)
    requires Valid(tr) && i < |tr.events| && tr.events[i].Store? && StepAt(tr, i)
    requires tr.states[i].fetches[tr.events[i].f].phase.data.payload.code == SERVFAIL
    ensures exists j :: 0 <= j < i && MissAt(tr, j, tr.events[i].f, tr.states[i].fetches[tr.events[i].f].key)
  {
    Reachable(tr, i);
    assert FetchOk(tr.states[i].fetches[tr.events[i].f]);
    NewFetchMissed(tr, i, tr.events[i].f);
  }
}
