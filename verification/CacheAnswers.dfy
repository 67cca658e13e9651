/**
 What becomes of a lookup that misses or has to wait, and what the updater
 refreshes, read off the events of a run: answers to misses are the replies that
 the lookups' own fetches heard, waits last as long as the key is in flight, and
 a round of the updater fetches exactly the entries it found stale.
 */
module CacheAnswers {
  import opened Names
  import opened LruMap
  import opened CacheModel
  import opened CacheProof
  import opened CacheTasks

  // ---------- What a fetch has heard ----------

  datatype Outcome = Pending | Failure | Success(message: Message)

  function OutcomeOf(p: FetchPhase): Outcome {
    match p
    case Queued => Pending
    case Querying => Pending
    case Replied(m) => Success(m)
    case SoftStamped(m, _) => Success(m)
    case Stamped(m, _) => Success(m)
    case Releasing(o) => if o.Some? then Success(o.value) else Failure
    case Finished(o) => if o.Some? then Success(o.value) else Failure
  }

  predicate Hears(e: Event, f: nat) {
    e.Reply? && e.f == f
  }

  /** Before step n fetch f heard exactly what the outcome says. */
  ghost predicate Told(tr: Trace, n: nat, f: nat, o: Outcome)
    requires n <= |tr.events|
  {
    match o
    case Pending => forall j :: 0 <= j < n ==> !Hears(tr.events[j], f) && tr.events[j] != Fail(f)
    case Failure =>
      && (exists j :: 0 <= j < n && tr.events[j] == Fail(f))
      && forall j :: 0 <= j < n ==> !Hears(tr.events[j], f)
    case Success(m) =>
      && (exists j :: 0 <= j < n && tr.events[j] == Reply(f, m))
      && forall j :: 0 <= j < n ==> (Hears(tr.events[j], f) ==> tr.events[j].reply == m) && tr.events[j] != Fail(f)
  }

  ghost predicate FetchTold(tr: Trace, n: nat, f: nat)
    requires n <= |tr.events| < |tr.states|
  {
    Told(tr, n, f, if f in tr.states[n].fetches then OutcomeOf(tr.states[n].fetches[f].phase) else Pending)
  }

  lemma OwnStepTold(tr: Trace, n: nat, f: nat)
    requires Valid(tr) && n < |tr.events| && FetchTold(tr, n, f) && Of(tr.events[n], f)
    ensures FetchTold(tr, n + 1, f)
  {
    assert StepAt(tr, n);
    var e := tr.events[n];
    var o := OutcomeOf(tr.states[n].fetches[f].phase);
    if o.Success? {
      var j :| 0 <= j < n && tr.events[j] == Reply(f, o.message);
    } else if o.Failure? {
      var j :| 0 <= j < n && tr.events[j] == Fail(f);
    } else if e.Reply? || e.Fail? {
      assert tr.events[n] == e;
    }
  }

  lemma OtherStepTold(tr: Trace, n: nat, f: nat)
    requires Valid(tr) && n < |tr.events| && FetchTold(tr, n, f) && !Of(tr.events[n], f)
    ensures FetchTold(tr, n + 1, f)
  {
    assert StepAt(tr, n);
    Reachable(tr, n);
    if f in tr.states[n + 1].fetches {
      FetchFrame(tr.states[n], tr.events[n], f);
    }
    if f in tr.states[n].fetches {
      FetchesStay(tr.states[n], tr.events[n], f);
    }
    var o := if f in tr.states[n].fetches then OutcomeOf(tr.states[n].fetches[f].phase) else Pending;
    ToldLater(tr, n, f, o);
  }

  lemma FetchesStay(s: State, e: Event, f: nat)
    requires Enabled(s, e) && f in s.fetches
    ensures f in Apply(s, e).fetches
  {
  }

  lemma ToldLater(tr: Trace, n: nat, f: nat, o: Outcome)
    requires n < |tr.events| && Told(tr, n, f, o) && !Of(tr.events[n], f)
    ensures Told(tr, n + 1, f, o)
  {
    if o.Success? {
      var j :| 0 <= j < n && tr.events[j] == Reply(f, o.message);
    } else if o.Failure? {
      var j :| 0 <= j < n && tr.events[j] == Fail(f);
    }
  }

  lemma {:induction false} AllTold(tr: Trace, n: nat, f: nat)
    requires Valid(tr) && n <= |tr.events|
    ensures FetchTold(tr, n, f)
    decreases n
  {
    if n > 0 {
      AllTold(tr, n - 1, f);
      if Of(tr.events[n - 1], f) {
        OwnStepTold(tr, n - 1, f);
      } else {
        OtherStepTold(tr, n - 1, f);
      }
    }
  }

  // ---------- Misses ----------

  /** At step j lookup l itself missed, and started fetch f. */
  ghost predicate MissBy(tr: Trace, j: nat, l: nat, f: nat, r: Request) {
    && j < |tr.events| < |tr.states|
    && (tr.events[j] == Read(l) || tr.events[j] == HardCheck(l))
    && MissAt(tr, j, f, KeyOf(r))
    && f in tr.states[j + 1].fetches && tr.states[j + 1].fetches[f] == Fetch(r, KeyOf(r), true, Queued)
  }

  lemma {:induction false} WaitingMissed(tr: Trace, n: nat, l: nat) returns (j: nat)
    requires Valid(tr) && n < |tr.states| && l in tr.states[n].lookups && tr.states[n].lookups[l].phase.Fetching?
    ensures j < n && MissBy(tr, j, l, tr.states[n].lookups[l].phase.fetch, tr.states[n].lookups[l].request)
    decreases n
  {
    assert n > 0;
    var s, e := tr.states[n - 1], tr.events[n - 1];
    assert StepAt(tr, n - 1);
    Reachable(tr, n - 1);
    LookupFrame(s, e, l);
    if OfLookup(e, l) {
      j := n - 1;
      MissStep(tr, j, l);
    } else {
      j := WaitingMissed(tr, n - 1, l);
    }
  }

  /** A lookup's own step that leaves it waiting for a fetch is a miss. */
  lemma MissStep(tr: Trace, j: nat, l: nat)
    requires j < |tr.events| < |tr.states| && StepAt(tr, j) && OfLookup(tr.events[j], l)
    requires l in tr.states[j + 1].lookups && tr.states[j + 1].lookups[l].phase.Fetching?
    ensures MissBy(tr, j, l, tr.states[j + 1].lookups[l].phase.fetch, tr.states[j + 1].lookups[l].request)
  {
  }

  /** The answer is the message, marked authoritative. */
  predicate PassesOn(answer: Message, m: Message) {
    && answer.id == m.id && answer.question == m.question && answer.payload == m.payload && answer.edns == m.edns
    && answer.recursionDesired == m.recursionDesired && answer.authoritative
  }

  /**
   A lookup that collects its fetch started that fetch itself, by a miss; it is
   left failed if and only if the fetch failed, and otherwise answered with the
   message that the fetch heard.
   */
  lemma CollectedAnswer(tr: Trace, i: nat, l: nat) returns (f: nat, j: nat)
    requires Valid(tr) && i < |tr.events| && tr.events[i] == Collect(l) && StepAt(tr, i)
    ensures j < i && MissBy(tr, j, l, f, tr.states[i].lookups[l].request)
    ensures l in tr.states[i + 1].lookups
    ensures tr.states[i + 1].lookups[l].phase.Failed? <==> exists t :: 0 <= t < i && tr.events[t] == Fail(f)
    ensures !tr.states[i + 1].lookups[l].phase.Failed? ==>
              && tr.states[i + 1].lookups[l].phase.Answered?
              && exists t :: 0 <= t < i && Hears(tr.events[t], f)
                             && PassesOn(tr.states[i + 1].lookups[l].phase.answer, tr.events[t].reply)
  {
    f := tr.states[i].lookups[l].phase.fetch;
    j := WaitingMissed(tr, i, l);
    AllTold(tr, i, f);
    var o := OutcomeOf(tr.states[i].fetches[f].phase);
    if o.Success? {
      var t :| 0 <= t < i && tr.events[t] == Reply(f, o.message);
      assert Hears(tr.events[t], f) && PassesOn(tr.states[i + 1].lookups[l].phase.answer, tr.events[t].reply);
    }
  }

  // ---------- Waiting for a key in flight ----------

  /** A waiting lookup goes on at a step if and only if it polls there and its key is not in flight. */
  lemma PollExactly(tr: Trace, i: nat, l: nat)
    requires Valid(tr) && i < |tr.events| && l in tr.states[i].lookups && tr.states[i].lookups[l].phase.Polling?
    ensures l in tr.states[i + 1].lookups
    ensures !tr.states[i + 1].lookups[l].phase.Polling? <==>
            tr.events[i] == Poll(l) && KeyOf(tr.states[i].lookups[l].request) !in tr.states[i].inFlight
  {
    assert StepAt(tr, i);
    Reachable(tr, i);
    LookupsStay(tr.states[i], tr.events[i], l);
    LookupFrame(tr.states[i], tr.events[i], l);
  }

  lemma LookupsStay(s: State, e: Event, l: nat)
    requires Enabled(s, e) && l in s.lookups
    ensures l in Apply(s, e).lookups
  {
  }

  /** At step i a fetch of key k begins, and takes the key. */
  ghost predicate TakenAt(tr: Trace, i: nat, k: CacheKey) {
    && i < |tr.events| < |tr.states| && tr.events[i].Begin?
    && tr.events[i].f in tr.states[i].fetches && tr.states[i].fetches[tr.events[i].f].key == k
  }

  /** At step i some fetch of key k ends, and releases it. */
  ghost predicate ReleasedAt(tr: Trace, i: nat, k: CacheKey) {
    && i < |tr.events| < |tr.states| && tr.events[i].Release?
    && tr.events[i].f in tr.states[i].fetches && tr.states[i].fetches[tr.events[i].f].key == k
  }

  ghost predicate TakenSince(tr: Trace, i: nat, n: nat, k: CacheKey) {
    i < n && TakenAt(tr, i, k) && forall j :: i < j < n ==> !ReleasedAt(tr, j, k)
  }

  /** A key is in flight if and only if a fetch of it has begun since the key was last released. */
  lemma {:induction false} InFlightExactly(tr: Trace, n: nat, k: CacheKey)
    requires Valid(tr) && n < |tr.states|
    ensures k in tr.states[n].inFlight <==> exists i: nat :: TakenSince(tr, i, n, k)
    decreases n
  {
    if n > 0 {
      var m: nat := n - 1;
      InFlightExactly(tr, m, k);
      InFlightStep(tr, m, k);
      if k in tr.states[n].inFlight {
        var i := m;
        if !TakenAt(tr, m, k) {
          i :| TakenSince(tr, i, m, k);
        }
        assert TakenSince(tr, i, n, k);
      } else {
        forall i: nat
          ensures !TakenSince(tr, i, n, k)
        {
          assert i < m && TakenSince(tr, i, n, k) ==> TakenSince(tr, i, m, k) && !ReleasedAt(tr, m, k);
        }
      }
    }
  }

  lemma InFlightStep(tr: Trace, n: nat, k: CacheKey)
    requires Valid(tr) && n < |tr.events|
    ensures k in tr.states[n + 1].inFlight <==>
            TakenAt(tr, n, k) || (k in tr.states[n].inFlight && !ReleasedAt(tr, n, k))
  {
    assert StepAt(tr, n);
  }

  /** At step j lookup l saw that its key was not in flight. */
  ghost predicate SawFree(tr: Trace, j: nat, l: nat, k: CacheKey) {
    j < |tr.events| < |tr.states| && tr.events[j] == Poll(l) && k !in tr.states[j].inFlight
  }

  /** No lookup reads the cache before it has seen its key out of flight. */
  lemma {:induction false} ReadsAfterWait(tr: Trace, n: nat, l: nat) returns (j: nat)
    requires Valid(tr) && n < |tr.states| && l in tr.states[n].lookups && !tr.states[n].lookups[l].phase.Polling?
    ensures j < n && SawFree(tr, j, l, KeyOf(tr.states[n].lookups[l].request))
    decreases n
  {
    assert n > 0;
    assert StepAt(tr, n - 1);
    Reachable(tr, n - 1);
    LookupFrame(tr.states[n - 1], tr.events[n - 1], l);
    if tr.states[n - 1].lookups[l].phase.Polling? {
      PollExactly(tr, n - 1, l);
      j := n - 1;
    } else {
      j := ReadsAfterWait(tr, n - 1, l);
    }
  }

  // ---------- A round of the updater ----------

  /** The last step before n at which the updater took the lock. */
  function LastLock(tr: Trace, n: nat): (p: nat)
    requires n <= |tr.events|
    ensures p <= n
  {
    if n == 0 then 0 else if tr.events[n - 1] == UpdaterLock then n - 1 else LastLock(tr, n - 1)
  }

  /** The steps before n, since the last lock, at which the updater looked at an entry. */
  function ScanSteps(tr: Trace, n: nat): (steps: seq<nat>)
    requires n <= |tr.events| < |tr.states|
    ensures forall i :: 0 <= i < |steps| ==> steps[i] < n
  {
    if n == 0 || tr.events[n - 1] == UpdaterLock then []
    else ScanSteps(tr, n - 1) + if LooksAtEntry(tr, n - 1) then [n - 1] else []
  }

  predicate LooksAtEntry(tr: Trace, i: nat)
    requires i < |tr.events| < |tr.states|
  {
    tr.events[i] == UpdaterScan && tr.states[i].updater.Scanning? && tr.states[i].updater.entries != []
  }

  /** The steps before n, since the last lock, at which the updater started a fetch. */
  function LaunchSteps(tr: Trace, n: nat): seq<nat>
    requires n <= |tr.events| < |tr.states|
  {
    if n == 0 || tr.events[n - 1] == UpdaterLock then []
    else LaunchSteps(tr, n - 1) + if Launches(tr, n - 1) then [n - 1] else []
  }

  predicate Launches(tr: Trace, i: nat)
    requires i < |tr.events| < |tr.states|
  {
    tr.events[i] == UpdaterLaunch && tr.states[i + 1].nextId > tr.states[i].nextId
  }

  /** The keys of the entries that were past their soft expiry when they were looked at, in order. */
  function StaleAmong(tr: Trace, entries: seq<Entry<CacheKey, CacheData>>, steps: seq<nat>): seq<CacheKey>
    requires |steps| <= |entries| && forall i :: 0 <= i < |steps| ==> steps[i] < |tr.states|
  {
    if steps == [] then []
    else
      var n := |steps| - 1;
      StaleAmong(tr, entries, steps[..n])
      + if entries[n].value.validUntil < tr.states[steps[n]].clock then [entries[n].key] else []
  }

  /** At step i the updater started a fetch of key k: the query rebuilt from the key, for an old entry. */
  ghost predicate LaunchesKey(tr: Trace, i: nat, k: CacheKey) {
    && i < |tr.events| < |tr.states| && tr.events[i] == UpdaterLaunch
    && tr.states[i].nextId !in tr.states[i].fetches
    && tr.states[i + 1].fetches
       == tr.states[i].fetches[tr.states[i].nextId := Fetch(UpdaterRequest(k), k, false, Queued)]
  }

  /** At the given steps the updater started fetches of the given keys. */
  ghost predicate Launched(tr: Trace, steps: seq<nat>, keys: seq<CacheKey>) {
    |steps| == |keys| && forall i :: 0 <= i < |keys| ==> LaunchesKey(tr, steps[i], keys[i])
  }

  /** The updater holds a scan of the cache it locked, with these entries left and these keys found stale. */
  ghost predicate Scans(tr: Trace, n: nat, left: seq<Entry<CacheKey, CacheData>>, toUpdate: seq<CacheKey>)
    requires n <= |tr.events| < |tr.states|
  {
    var p, scans := LastLock(tr, n), ScanSteps(tr, n);
    && p < n && tr.events[p] == UpdaterLock && LaunchSteps(tr, n) == []
    && |scans| <= |tr.states[p].cache| && left == tr.states[p].cache[|scans|..]
    && toUpdate == StaleAmong(tr, tr.states[p].cache, scans)
  }

  /** The scan is over; what was launched and what remains are the stale keys of the cache that was locked. */
  ghost predicate Remains(tr: Trace, n: nat, toUpdate: seq<CacheKey>)
    requires n <= |tr.events| < |tr.states|
  {
    var p, scans := LastLock(tr, n), ScanSteps(tr, n);
    && p < n && tr.events[p] == UpdaterLock && |scans| == |tr.states[p].cache|
    && exists keys :: Launched(tr, LaunchSteps(tr, n), keys)
                      && keys + toUpdate == StaleAmong(tr, tr.states[p].cache, scans)
  }

  /** Where the updater stands in its round. */
  ghost predicate RoundAt(tr: Trace, n: nat)
    requires n <= |tr.events| < |tr.states|
  {
    match tr.states[n].updater
    case Sleeping => true
    case Scanning(left, toUpdate) => Scans(tr, n, left, toUpdate)
    case Updating(toUpdate) => Remains(tr, n, toUpdate)
    case Awaiting(toUpdate, _) => Remains(tr, n, toUpdate)
  }

  lemma StaleSnoc(tr: Trace, entries: seq<Entry<CacheKey, CacheData>>, steps: seq<nat>, n: nat)
    requires |steps| < |entries| && (forall i :: 0 <= i < |steps| ==> steps[i] < |tr.states|) && n < |tr.states|
    ensures StaleAmong(tr, entries, steps + [n]) ==
            StaleAmong(tr, entries, steps)
            + if entries[|steps|].value.validUntil < tr.states[n].clock then [entries[|steps|].key] else []
  {
    assert (steps + [n])[..|steps|] == steps;
  }

  lemma ScanStep(tr: Trace, n: nat)
    requires Valid(tr) && n < |tr.events| && RoundAt(tr, n) && tr.events[n] == UpdaterScan && StepAt(tr, n)
    ensures RoundAt(tr, n + 1)
  {
    var left, toUpdate := tr.states[n].updater.entries, tr.states[n].updater.toUpdate;
    assert Scans(tr, n, left, toUpdate);
    if left == [] {
      ScanEnds(tr, n, toUpdate);
    } else {
      ScanLooks(tr, n, left, toUpdate);
    }
  }

  lemma ScanEnds(tr: Trace, n: nat, toUpdate: seq<CacheKey>)
    requires n < |tr.events| < |tr.states| && tr.events[n] == UpdaterScan
    requires tr.states[n].updater == Scanning([], toUpdate) && Scans(tr, n, [], toUpdate)
    ensures Remains(tr, n + 1, toUpdate)
  {
    assert Launched(tr, LaunchSteps(tr, n + 1), []);
    assert [] + toUpdate == toUpdate;
    assert ScanSteps(tr, n + 1) == ScanSteps(tr, n);
  }

  lemma ScanLooks(tr: Trace, n: nat, left: seq<Entry<CacheKey, CacheData>>, toUpdate: seq<CacheKey>)
    requires n < |tr.events| < |tr.states| && tr.events[n] == UpdaterScan
    requires tr.states[n].updater == Scanning(left, toUpdate) && left != [] && Scans(tr, n, left, toUpdate)
    ensures Scans(tr, n + 1, left[1..],
                  toUpdate + if left[0].value.validUntil < tr.states[n].clock then [left[0].key] else [])
  {
    var scans, entries := ScanSteps(tr, n), tr.states[LastLock(tr, n)].cache;
    StaleSnoc(tr, entries, scans, n);
    assert left[0] == entries[|scans|] && left[1..] == entries[|scans| + 1..];
    assert ScanSteps(tr, n + 1) == scans + [n];
  }

  lemma LaunchStep(tr: Trace, n: nat)
    requires Valid(tr) && n < |tr.events| && RoundAt(tr, n) && tr.events[n] == UpdaterLaunch && StepAt(tr, n)
    requires tr.states[n].updater.toUpdate != []
    ensures RoundAt(tr, n + 1)
  {
    Reachable(tr, n);
    var toUpdate, steps := tr.states[n].updater.toUpdate, LaunchSteps(tr, n);
    var stale := StaleAmong(tr, tr.states[LastLock(tr, n)].cache, ScanSteps(tr, n));
    var keys :| Launched(tr, steps, keys) && keys + toUpdate == stale;
    assert LaunchesKey(tr, n, toUpdate[0]);
    assert Launched(tr, steps + [n], keys + [toUpdate[0]]);
    assert keys + [toUpdate[0]] + toUpdate[1..] == stale;
    assert ScanSteps(tr, n + 1) == ScanSteps(tr, n);
  }

  /** The events of the updater's round. */
  predicate OfUpdater(e: Event) {
    e == UpdaterLock || e == UpdaterScan || e == UpdaterLaunch
  }

  lemma OtherStep(tr: Trace, n: nat)
    requires Valid(tr) && n < |tr.events| && RoundAt(tr, n) && !OfUpdater(tr.events[n]) && StepAt(tr, n)
    ensures RoundAt(tr, n + 1)
  {
    assert ScanSteps(tr, n + 1) == ScanSteps(tr, n) && LaunchSteps(tr, n + 1) == LaunchSteps(tr, n);
  }

  lemma LockStep(tr: Trace, n: nat)
    requires Valid(tr) && n < |tr.events| && tr.events[n] == UpdaterLock && StepAt(tr, n)
    ensures RoundAt(tr, n + 1)
  {
    assert tr.states[n + 1].updater == Scanning(tr.states[n].cache, []);
    assert LastLock(tr, n + 1) == n && ScanSteps(tr, n + 1) == [] && LaunchSteps(tr, n + 1) == [];
  }

  lemma RoundStep(tr: Trace, n: nat)
    requires Valid(tr) && n < |tr.events| && RoundAt(tr, n) && StepAt(tr, n)
    ensures RoundAt(tr, n + 1)
  {
    if tr.events[n] == UpdaterScan {
      ScanStep(tr, n);
    } else if tr.events[n] == UpdaterLock {
      LockStep(tr, n);
    } else if tr.events[n] != UpdaterLaunch {
      OtherStep(tr, n);
    } else if tr.states[n].updater.toUpdate != [] {
      LaunchStep(tr, n);
    }
  }

  lemma {:induction false} EveryRound(tr: Trace, n: nat)
    requires Valid(tr) && n <= |tr.events|
    ensures RoundAt(tr, n)
    decreases n
  {
    if n > 0 {
      EveryRound(tr, n - 1);
      assert StepAt(tr, n - 1);
      RoundStep(tr, n - 1);
    }
  }

  /**
   When the updater goes to sleep its round is over: since it took the lock it
   has looked at every entry of the cache it locked, and it has started fetches
   of exactly the keys whose entries were past their soft expiry when it looked.
   */
  lemma RoundExactly(tr: Trace, i: nat) returns (keys: seq<CacheKey>)
    requires Valid(tr) && i < |tr.events| && !tr.states[i].updater.Sleeping? && tr.states[i + 1].updater.Sleeping?
    ensures var p, scans := LastLock(tr, i), ScanSteps(tr, i);
            && p < i && tr.events[p] == UpdaterLock && |scans| == |tr.states[p].cache|
            && Launched(tr, LaunchSteps(tr, i), keys)
            && keys == StaleAmong(tr, tr.states[p].cache, scans)
  {
    assert StepAt(tr, i);
    EveryRound(tr, i);
    var p, scans := LastLock(tr, i), ScanSteps(tr, i);
    keys :| Launched(tr, LaunchSteps(tr, i), keys) && keys + [] == StaleAmong(tr, tr.states[p].cache, scans);
  }

  /** The stale keys, said once more: exactly those whose entry was past its soft expiry at its own step. */
  lemma {:induction false} StaleExactly(tr: Trace, entries: seq<Entry<CacheKey, CacheData>>, steps: seq<nat>,
                                        k: CacheKey)
    requires |steps| <= |entries| && forall i :: 0 <= i < |steps| ==> steps[i] < |tr.states|
    ensures k in StaleAmong(tr, entries, steps) <==>
            exists i :: 0 <= i < |steps| && entries[i].key == k
                        && entries[i].value.validUntil < tr.states[steps[i]].clock
    decreases |steps|
  {
    if steps != [] {
      var n := |steps| - 1;
      StaleExactly(tr, entries, steps[..n], k);
      if i :| 0 <= i < |steps| && entries[i].key == k && entries[i].value.validUntil < tr.states[steps[i]].clock {
        assert i < n ==> steps[..n][i] == steps[i];
      }
    }
  }

  /** The updater's scan in a run collects what its loop collects, given the same clock readings. */
  lemma {:induction false} ScanCollects(tr: Trace, entries: seq<Entry<CacheKey, CacheData>>, steps: seq<nat>,
                                        clock: seq<nat>)
    requires |steps| == |entries| == |clock| && forall i :: 0 <= i < |steps| ==> steps[i] < |tr.states|
    requires forall i :: 0 <= i < |steps| ==> clock[i] == tr.states[steps[i]].clock
    ensures StaleAmong(tr, entries, steps) == StaleKeys(entries, clock)
    decreases |steps|
  {
    if steps != [] {
      var n := |steps| - 1;
      ScanCollects(tr, entries[..n], steps[..n], clock[..n]);
      PrefixStale(tr, entries, steps[..n]);
    }
  }

  lemma {:induction false} PrefixStale(tr: Trace, entries: seq<Entry<CacheKey, CacheData>>, steps: seq<nat>)
    requires |steps| <= |entries| && forall i :: 0 <= i < |steps| ==> steps[i] < |tr.states|
    ensures StaleAmong(tr, entries, steps) == StaleAmong(tr, entries[..|steps|], steps)
    decreases |steps|
  {
    if steps != [] {
      var n := |steps| - 1;
      PrefixStale(tr, entries, steps[..n]);
      PrefixStale(tr, entries[..|steps|], steps[..n]);
      assert entries[..|steps|][..n] == entries[..n];
    }
  }

  /** Two queries share a cache key exactly when they ask the same, up to the case of the name. */
  lemma SameKey(r: Request, s: Request)
    ensures KeyOf(r) == KeyOf(s) <==>
            && Lower(r.question.name) == Lower(s.question.name)
            && r.question.qclass == s.question.qclass && r.question.qtype == s.question.qtype
            && ((r.edns.Some? && r.edns.value.dnssecOk) <==> (s.edns.Some? && s.edns.value.dnssecOk))
  {
  }
}
