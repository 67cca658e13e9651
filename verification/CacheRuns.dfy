/**
 Runs of the response cache that must exist: the ones that make the flush
 condition exact, the ones that drain the in-flight set, and the overlap of two
 fetches for one key.
 */
module CacheRuns {
  import opened Names
  import opened LruMap
  import opened CacheModel
  import opened CacheProof

  ghost function Last(tr: Trace): State
    requires |tr.states| > 0
  {
    tr.states[|tr.states| - 1]
  }

  /** t continues tr, and hears nothing from the upstream while doing so. */
  ghost predicate Continues(t: Trace, tr: Trace) {
    && tr.events <= t.events && tr.states <= t.states
    && forall j :: |tr.events| <= j < |t.events| ==> !t.events[j].Reply?
  }

  lemma Advance(tr: Trace, e: Event) returns (t: Trace)
    requires Valid(tr) && Enabled(Last(tr), e) && !e.Reply?
    ensures Valid(t) && Continues(t, tr) && t.events == tr.events + [e] && Last(t) == Apply(Last(tr), e)
  {
    t := Extend(tr, e);
    ExtendValid(tr, e);
  }

  lemma ContinuesTransitive(t: Trace, u: Trace, v: Trace)
    requires Continues(u, t) && Continues(v, u)
    ensures Continues(v, t)
  {
    forall j | |t.events| <= j < |v.events|
      ensures !v.events[j].Reply?
    {
      if j < |u.events| {
        assert v.events[j] == u.events[j];
      }
    }
  }

  /** Continue a continuation by one more event. */
  lemma Next(tr: Trace, t: Trace, e: Event) returns (u: Trace)
    requires Valid(t) && Continues(t, tr) && Enabled(Last(t), e) && !e.Reply?
    ensures Valid(u) && Continues(u, tr) && u.events == t.events + [e] && Last(u) == Apply(Last(t), e)
    ensures t.states <= u.states
  {
    u := Advance(t, e);
    ContinuesTransitive(tr, t, u);
  }

  // ---------- A fetch that will store can finish on its own ----------

  lemma DriveToStamped(tr: Trace, t: Trace, f: nat, k: CacheKey) returns (u: Trace)
    requires Valid(t) && Continues(t, tr)
    requires f in Last(t).fetches && Last(t).fetches[f].key == k && WillStore(Last(t), Last(t).fetches[f])
    ensures Valid(u) && Continues(u, tr) && t.events <= u.events
    ensures f in Last(u).fetches && Last(u).fetches[f].key == k && Last(u).fetches[f].phase.Stamped?
    ensures Usable(Last(u), Last(u).fetches[f].phase.data)
  {
    u := t;
    if Last(u).fetches[f].phase.Replied? {
      u := Next(tr, u, StampSoft(f));
    }
    if Last(u).fetches[f].phase.SoftStamped? {
      u := Next(tr, u, StampHard(f));
    }
  }

  /** Store the stamped reply and release the key. */
  lemma DriveToReleased(tr: Trace, t: Trace, f: nat, k: CacheKey) returns (u: Trace)
    requires Valid(t) && Continues(t, tr)
    requires f in Last(t).fetches && Last(t).fetches[f].key == k && Last(t).fetches[f].phase.Stamped?
    ensures Valid(u) && Continues(u, tr) && t.events <= u.events
    ensures k !in Last(u).inFlight && Last(u).clock == Last(t).clock
    ensures Find(Last(u).cache, k) == Some(Last(t).fetches[f].phase.data)
  {
    Reachable(t, |t.events|);
    PutKeeps(Last(t).cache, k, Last(t).fetches[f].phase.data, CAPACITY);
    u := Next(tr, t, Store(f));
    u := Next(tr, u, Release(f));
  }

  // ---------- An entry that is in the cache can be served ----------

  /** The last event of t answers a lookup of k from the cache. */
  ghost predicate EndsServing(t: Trace, k: CacheKey) {
    |t.events| > 0 && ServesFromCache(t, |t.events| - 1, k)
  }

  /** A new lookup of k reads its entry. */
  lemma DriveToRead(tr: Trace, t: Trace, r: Request, k: CacheKey) returns (u: Trace, l: nat)
    requires Valid(t) && Continues(t, tr) && KeyOf(r) == k && k !in Last(t).inFlight
    requires Find(Last(t).cache, k).Some?
    ensures Valid(u) && Continues(u, tr) && t.events <= u.events && Last(u).clock == Last(t).clock
    ensures l in Last(u).lookups && Last(u).lookups[l] == Lookup(r, Have(Find(Last(t).cache, k).value))
  {
    l := Last(t).nextId;
    u := Next(tr, t, Arrive(r));
    u := Next(tr, u, Poll(l));
    u := Next(tr, u, Read(l));
  }

  lemma DriveToServed(tr: Trace, t: Trace, r: Request, k: CacheKey) returns (u: Trace)
    requires Valid(t) && Continues(t, tr) && KeyOf(r) == k && k !in Last(t).inFlight
    requires Find(Last(t).cache, k).Some? && Last(t).clock <= Find(Last(t).cache, k).value.hardValidUntil
    ensures Valid(u) && Continues(u, tr) && t.events <= u.events && EndsServing(u, k)
  {
    var l;
    u, l := DriveToRead(tr, t, r, k);
    u := Next(tr, u, HardCheck(l));
    var w := u;
    u := Next(tr, w, SoftCheck(l));
    assert u.states[|w.events|] == Last(w);
  }

  // ---------- The flush condition is exact ----------

  /** A continuation of tr that flushes k first and serves k from the cache last, hearing nothing in between. */
  ghost predicate ServesOld(t: Trace, tr: Trace, k: CacheKey) {
    && Valid(t) && Continues(t, tr)
    && |t.events| > |tr.events| + 1 && t.events[|tr.events|] == Pop(k)
    && EndsServing(t, k)
  }

  lemma OldReplyComesBack(tr: Trace, k: CacheKey) returns (u: Trace)
    requires Valid(tr) && ReplyInHand(Last(tr), k)
    ensures ServesOld(u, tr, k)
  {
    var f :| f in Last(tr).fetches && Last(tr).fetches[f].key == k && WillStore(Last(tr), Last(tr).fetches[f]);
    Reachable(tr, |tr.events|);
    var r := Last(tr).fetches[f].request;
    var t := Advance(tr, Pop(k));
    u := DriveToStamped(tr, t, f, k);
    u := DriveToReleased(tr, u, f, k);
    u := DriveToServed(tr, u, r, k);
  }

  lemma OldCopyComesBack(tr: Trace, k: CacheKey) returns (u: Trace)
    requires Valid(tr) && CopyInHand(Last(tr), k)
    ensures ServesOld(u, tr, k)
  {
    var l :| l in Last(tr).lookups && KeyOf(Last(tr).lookups[l].request) == k
             && WillServe(Last(tr), Last(tr).lookups[l].phase);
    u := Advance(tr, Pop(k));
    if Last(u).lookups[l].phase.Have? {
      u := Next(tr, u, HardCheck(l));
    }
    var w := u;
    u := Next(tr, w, SoftCheck(l));
    assert u.states[|w.events|] == Last(w);
  }

  /**
   Flushing k lets an answer from before the flush be served afterwards, without
   hearing from the upstream again, if and only if at the flush some fetch still
   has a reply to store or some lookup still has a copy to serve.
   */
  lemma FlushExact(tr: Trace, k: CacheKey)
    requires Valid(tr)
    ensures (exists t :: ServesOld(t, tr, k)) <==> ReplyInHand(Last(tr), k) || CopyInHand(Last(tr), k)
  {
    if ReplyInHand(Last(tr), k) {
      var t := OldReplyComesBack(tr, k);
    } else if CopyInHand(Last(tr), k) {
      var t := OldCopyComesBack(tr, k);
    } else {
      forall t | ServesOld(t, tr, k)
        ensures false
      {
        var p, i := |tr.events|, |t.events| - 1;
        assert t.states[p] == Last(tr);
        FlushedIsForgotten(t, p, i, k);
      }
    }
  }

  // ---------- The in-flight set ----------

  /** With no fetch between its insert and its remove, no key is in flight. */
  lemma NothingOutstanding(tr: Trace, n: nat)
    requires Valid(tr) && n < |tr.states|
    requires forall f :: f in tr.states[n].fetches ==> !Holding(tr.states[n].fetches[f])
    ensures tr.states[n].inFlight == {}
  {
    Reachable(tr, n);
    assert forall k :: k !in tr.states[n].inFlight;
  }

  /** A continuation made of fetch f's own events only. */
  ghost predicate OwnRun(u: Trace, tr: Trace, f: nat) {
    && Valid(u) && Continues(u, tr)
    && forall j :: |tr.events| <= j < |u.events| ==> Of(u.events[j], f)
  }

  lemma OwnStep(tr: Trace, t: Trace, f: nat, e: Event) returns (u: Trace)
    requires OwnRun(t, tr, f) && Enabled(Last(t), e) && Of(e, f) && !e.Reply?
    ensures OwnRun(u, tr, f) && |u.events| == |t.events| + 1 && Last(u) == Apply(Last(t), e)
  {
    u := Next(tr, t, e);
  }

  lemma DriveToReleasing(tr: Trace, f: nat) returns (u: Trace)
    requires Valid(tr) && f in Last(tr).fetches && Holding(Last(tr).fetches[f])
    ensures OwnRun(u, tr, f) && |u.events| <= |tr.events| + 3
    ensures f in Last(u).fetches && Last(u).fetches[f].phase.Releasing?
    ensures Last(u).fetches[f].key == Last(tr).fetches[f].key
  {
    u := tr;
    if Last(u).fetches[f].phase.Querying? {
      u := OwnStep(tr, u, f, Fail(f));
    }
    if Last(u).fetches[f].phase.Replied? {
      u := OwnStep(tr, u, f, StampSoft(f));
    }
    if Last(u).fetches[f].phase.SoftStamped? {
      u := OwnStep(tr, u, f, StampHard(f));
    }
    if Last(u).fetches[f].phase.Stamped? {
      u := OwnStep(tr, u, f, Store(f));
    }
  }

  /** A key in flight is never dead: a fetch that holds it can release it within four steps of its own. */
  lemma InFlightDrains(tr: Trace, k: CacheKey) returns (u: Trace, f: nat)
    requires Valid(tr) && k in Last(tr).inFlight
    ensures f in Last(tr).fetches && Last(tr).fetches[f].key == k && Holding(Last(tr).fetches[f])
    ensures OwnRun(u, tr, f) && |u.events| <= |tr.events| + 4
    ensures k !in Last(u).inFlight
  {
    Reachable(tr, |tr.events|);
    assert Held(Last(tr), k);
    f :| f in Last(tr).fetches && Holding(Last(tr).fetches[f]) && Last(tr).fetches[f].key == k;
    u := DriveToReleasing(tr, f);
    u := OwnStep(tr, u, f, Release(f));
  }

  /** Two lookups of one key miss before either fetch has inserted the key. */
  lemma TwoMisses(r: Request) returns (u: Trace)
    ensures Valid(u) && Last(u).inFlight == {}
    ensures Last(u).fetches == map[2 := Fetch(r, KeyOf(r), true, Queued), 3 := Fetch(r, KeyOf(r), true, Queued)]
  {
    var tr := Trace([INITIAL], []);
    u := Advance(tr, Arrive(r));
    u := Advance(u, Arrive(r));
    u := Advance(u, Poll(0));
    u := Advance(u, Poll(1));
    u := Advance(u, Read(0));
    u := Advance(u, Read(1));
  }

  /**
   The converse of `Held` fails: checking the set and inserting into it are two
   steps, so two fetches for one key overlap, and the first to finish releases
   the key that the second still holds.
   */
  lemma FetchesOverlap(r: Request) returns (u: Trace)
    ensures Valid(u) && Held(Last(u), KeyOf(r)) && KeyOf(r) !in Last(u).inFlight
  {
    u := TwoMisses(r);
    u := Advance(u, Begin(2));
    u := Advance(u, Begin(3));
    u := Advance(u, Fail(2));
    u := Advance(u, Release(2));
    assert Holding(Last(u).fetches[3]);
  }

  // ---------- Runs that store and serve ----------

  /** A first lookup of a key misses, and its fetch hears the given reply. */
  lemma MissHears(r: Request, m: Message) returns (u: Trace)
    ensures Valid(u) && u.events == [Arrive(r), Poll(0), Read(0), Begin(1), Reply(1, m)]
    ensures Last(u).cache == [] && Last(u).inFlight == {KeyOf(r)}
    ensures Last(u).fetches == map[1 := Fetch(r, KeyOf(r), true, Replied(m))]
  {
    u := Advance(Trace([INITIAL], []), Arrive(r));
    u := Advance(u, Poll(0));
    u := Advance(u, Read(0));
    u := Advance(u, Begin(1));
    ExtendValid(u, Reply(1, m));
    u := Extend(u, Reply(1, m));
  }

  /** The reply to a miss is stored, whatever its code: a server failure, too. */
  lemma MissStores(r: Request, m: Message) returns (u: Trace)
    ensures Valid(u) && |u.events| == 8 && u.events[7] == Store(1)
    ensures 1 in u.states[7].fetches && u.states[7].fetches[1].phase.Stamped?
    ensures u.states[7].fetches[1].phase.data.payload == m.payload
  {
    u := MissHears(r, m);
    u := Advance(u, StampSoft(1));
    u := Advance(u, StampHard(1));
    var w := u;
    u := Advance(w, Store(1));
    assert u.states[7] == Last(w);
  }

  /** For every request and every reply there is a run that hears the reply and serves the key from the cache. */
  lemma MissServes(r: Request, m: Message) returns (u: Trace)
    ensures Valid(u) && EndsServing(u, KeyOf(r))
  {
    var t := MissHears(r, m);
    u := DriveToStamped(t, t, 1, KeyOf(r));
    u := DriveToReleased(t, u, 1, KeyOf(r));
    u := DriveToServed(t, u, r, KeyOf(r));
  }
}
