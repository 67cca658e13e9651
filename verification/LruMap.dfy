/**
 The least-recently-used map behind the response cache, as a sequence of
 entries with the most recently used one first.
 */
module LruMap {
  import opened Names

  datatype Entry<K, V> = Entry(key: K, value: V)

  ghost predicate Distinct<K, V>(s: seq<Entry<K, V>>) {
    forall i, j :: 0 <= i < j < |s| ==> s[i].key != s[j].key
  }

  function Find<K(==), V>(s: seq<Entry<K, V>>, k: K): (r: Option<V>)
    ensures r.Some? ==> Entry(k, r.value) in s
    ensures r.None? ==> forall e :: e in s ==> e.key != k
  {
    if s == [] then None
    else if s[0].key == k then Some(s[0].value)
    else
      var r := Find(s[1..], k);
      assert s == [s[0]] + s[1..];
      r
  }

  function Without<K(==), V>(s: seq<Entry<K, V>>, k: K): (r: seq<Entry<K, V>>)
    ensures |r| <= |s|
    ensures forall e :: e in r ==> e in s && e.key != k
    ensures forall e :: e in s && e.key != k ==> e in r
  {
    if s == [] then []
    else
      assert s == [s[0]] + s[1..];
      if s[0].key == k then Without(s[1..], k) else [s[0]] + Without(s[1..], k)
  }

  /** `get`: the entry that was found becomes the most recently used one. */
  function Touch<K(==), V>(s: seq<Entry<K, V>>, k: K): seq<Entry<K, V>> {
    match Find(s, k)
    case Some(v) => [Entry(k, v)] + Without(s, k)
    case None => s
  }

  /** `put`: replace or add at the front, dropping the last entry when a new key meets a full map. */
  function Put<K(==), V>(s: seq<Entry<K, V>>, k: K, v: V, capacity: nat): seq<Entry<K, V>>
    requires 0 < capacity
  {
    if Find(s, k).Some? then [Entry(k, v)] + Without(s, k)
    else if |s| >= capacity then [Entry(k, v)] + s[..capacity - 1]
    else [Entry(k, v)] + s
  }

  lemma DistinctTail<K, V>(s: seq<Entry<K, V>>)
    requires Distinct(s) && s != []
    ensures Distinct(s[1..])
  {
    forall i, j | 0 <= i < j < |s[1..]|
      ensures s[1..][i].key != s[1..][j].key
    {
      assert s[1..][i] == s[i + 1] && s[1..][j] == s[j + 1];
    }
  }

  lemma {:induction false} WithoutDistinct<K, V>(s: seq<Entry<K, V>>, k: K)
    requires Distinct(s)
    ensures Distinct(Without(s, k))
  {
    if s != [] {
      DistinctTail(s);
      WithoutDistinct(s[1..], k);
      var r := Without(s[1..], k);
      forall j | 0 <= j < |r|
        ensures r[j].key != s[0].key
      {
        assert r[j] in r && r[j] in s[1..];
      }
    }
  }

  lemma {:induction false} WithoutShrinks<K, V>(s: seq<Entry<K, V>>, e: Entry<K, V>)
    requires e in s
    ensures |Without(s, e.key)| < |s|
  {
    if s[0].key != e.key {
      assert s == [s[0]] + s[1..];
      WithoutShrinks(s[1..], e);
    }
  }

  /** In a map with distinct keys, finding a key returns the value of its one entry. */
  lemma {:induction false} FindUnique<K, V>(s: seq<Entry<K, V>>, e: Entry<K, V>)
    requires Distinct(s) && e in s
    ensures Find(s, e.key) == Some(e.value)
  {
    var i :| 0 <= i < |s| && s[i] == e;
    if i != 0 {
      DistinctTail(s);
      assert s == [s[0]] + s[1..];
      FindUnique(s[1..], e);
    }
  }

  /** `get` reorders the map and changes no binding. */
  lemma TouchKeeps<K, V>(s: seq<Entry<K, V>>, k: K)
    requires Distinct(s)
    ensures Distinct(Touch(s, k)) && |Touch(s, k)| <= |s|
    ensures forall e :: e in Touch(s, k) <==> e in s
  {
    if Find(s, k).Some? {
      WithoutDistinct(s, k);
      WithoutShrinks(s, Entry(k, Find(s, k).value));
      forall e | e in s && e.key == k
        ensures e == Entry(k, Find(s, k).value)
      {
        FindUnique(s, e);
      }
    }
  }

  /** Taking out the one entry with a key leaves the others as they stand. */
  lemma {:induction false} WithoutOne<K, V>(s: seq<Entry<K, V>>, i: nat)
    requires Distinct(s) && i < |s|
    ensures Without(s, s[i].key) == s[..i] + s[i + 1..]
  {
    DistinctTail(s);
    if i == 0 {
      WithoutAbsent(s[1..], s[0].key);
    } else {
      WithoutOne(s[1..], i - 1);
      assert s[1..][i - 1] == s[i] && s[1..][..i - 1] == s[1..i] && s[1..][i..] == s[i + 1..];
      assert s[..i] == [s[0]] + s[1..i];
    }
  }

  lemma {:induction false} WithoutAbsent<K, V>(s: seq<Entry<K, V>>, k: K)
    requires forall e :: e in s ==> e.key != k
    ensures Without(s, k) == s
  {
    if s != [] {
      assert s == [s[0]] + s[1..];
      WithoutAbsent(s[1..], k);
    }
  }

  /** `get` and `put` bring the entry of their key to the front and leave the order of the others. */
  lemma MovesToFront<K, V>(s: seq<Entry<K, V>>, i: nat, v: V, capacity: nat)
    requires Distinct(s) && i < |s| && 0 < capacity
    ensures var others := s[..i] + s[i + 1..];
            Touch(s, s[i].key) == [s[i]] + others && Put(s, s[i].key, v, capacity) == [Entry(s[i].key, v)] + others
  {
    var e := s[i];
    FindUnique(s, e);
    WithoutOne(s, i);
    assert e == Entry(e.key, e.value);
  }

  /** A new key goes to the front; when the map is full the last entry, the least recently used one, makes room. */
  lemma NewKeyEvictsLast<K, V>(s: seq<Entry<K, V>>, k: K, v: V, capacity: nat)
    requires Find(s, k).None? && 0 < capacity && |s| <= capacity
    ensures Put(s, k, v, capacity) == [Entry(k, v)] + if |s| == capacity then s[..|s| - 1] else s
  {
  }

  /** `put` binds the key, keeps the keys distinct, respects the capacity and invents no other binding. */
  lemma PutKeeps<K, V>(s: seq<Entry<K, V>>, k: K, v: V, capacity: nat)
    requires 0 < capacity && Distinct(s) && |s| <= capacity
    ensures Distinct(Put(s, k, v, capacity)) && |Put(s, k, v, capacity)| <= capacity
    ensures Find(Put(s, k, v, capacity), k) == Some(v)
    ensures forall e :: e in Put(s, k, v, capacity) ==> e == Entry(k, v) || (e in s && e.key != k)
    ensures forall e :: e in s && e.key != k && e !in Put(s, k, v, capacity) ==>
                          Find(s, k).None? && |s| == capacity && e == s[|s| - 1]
  {
    if Find(s, k).Some? {
      WithoutDistinct(s, k);
      WithoutShrinks(s, Entry(k, Find(s, k).value));
    } else if |s| == capacity {
      assert s == s[..capacity - 1] + [s[capacity - 1]];
    }
  }

  /** The map as the source holds it: one object that the lock holder changes in place. */
  class LruCache<K(==), V> {
    var entries: seq<Entry<K, V>>
    const capacity: nat

    ghost predicate Valid()
      reads this
    {
      0 < capacity && Distinct(entries) && |entries| <= capacity
    }

    constructor (capacity: nat)
      requires 0 < capacity
      ensures Valid() && entries == [] && this.capacity == capacity
    {
      this.capacity := capacity;
      entries := [];
    }

    method Get(k: K) returns (r: Option<V>)
      requires Valid()
      modifies this
      ensures Valid() && r == Find(old(entries), k) && entries == Touch(old(entries), k)
      ensures forall e :: e in entries <==> e in old(entries)
    {
      TouchKeeps(entries, k);
      r := Find(entries, k);
      entries := Touch(entries, k);
    }

    method Insert(k: K, v: V)
      requires Valid()
      modifies this
      ensures Valid() && entries == Put(old(entries), k, v, capacity)
      ensures Find(entries, k) == Some(v)
    {
      PutKeeps(entries, k, v, capacity);
      entries := Put(entries, k, v, capacity);
    }

    method Pop(k: K)
      requires Valid()
      modifies this
      ensures Valid() && entries == Without(old(entries), k)
    {
      WithoutDistinct(entries, k);
      entries := Without(entries, k);
    }

    /** Clearing a list of keys one lock acquisition at a time removes exactly those keys. */
    method PopAll(keys: seq<K>)
      requires Valid()
      modifies this
      ensures Valid()
      ensures forall e :: e in entries <==> e in old(entries) && e.key !in keys
    {
      for i := 0 to |keys|
        invariant Valid()
        invariant forall e :: e in entries <==> e in old(entries) && e.key !in keys[..i]
      {
        assert keys[..i + 1] == keys[..i] + [keys[i]];
        Pop(keys[i]);
      }
      assert keys[..|keys|] == keys;
    }
  }
}
