/** Runs of the cache: callers and the one background sweeper, interleaved.
    The sweeper gives up the lock while it sleeps, so a sweep is two events with
    any number of caller events between them. */
module LruRuns {
  import opened Options
  import opened Recency

  datatype Sweeper = Awake | Asleep(bucket: uint8, until: Time)

  /** `sweeps` counts the completed sweeps. */
  datatype System<K, V> = System(cache: Cache<K, V>, clock: Time, sweeper: Sweeper, sweeps: nat)

  datatype Event<K, V> =
    | Tick(to: Time)
    | DoAdd(key: K, value: V)
    | DoGet(key: K)
    | DoRemove(key: K)
    | DoRemoveOldest
    | DoResize(size: int)
    | DoPurge
    | SweepStart
    | SweepWake

  ghost predicate Step<K, V>(s: System<K, V>, e: Event<K, V>, s': System<K, V>)
    requires WellFormed(s.cache)
  {
    match e
    case Tick(to) => s.clock <= to && s' == s.(clock := to)
    case DoAdd(k, v) => s' == s.(cache := Add(s.cache, k, v, s.clock))
    case DoGet(k) => s' == s.(cache := Get(s.cache, k, s.clock).0)
    case DoRemove(k) => s' == s.(cache := Remove(s.cache, k))
    case DoRemoveOldest => s' == s.(cache := RemoveOldest(s.cache))
    case DoResize(n) => s' == s.(cache := Resize(s.cache, n))
    case DoPurge => s' == s.(cache := Purge(s.cache))
    case SweepStart =>
      && s.sweeper.Awake?
      && var newest := s.cache.newest[s.cache.cursor];
         if newest > s.clock then s' == s.(sweeper := Asleep(s.cache.cursor, newest))
         else s' == s.(cache := Sweep(s.cache, s.cache.cursor), sweeps := s.sweeps + 1)
    case SweepWake =>
      && s.sweeper.Asleep?
      && s.sweeper.until <= s.clock
      && s' == s.(cache := Sweep(s.cache, s.sweeper.bucket), sweeper := Awake, sweeps := s.sweeps + 1)
  }

  ghost predicate Inv<K, V>(s: System<K, V>) {
    && WellFormed(s.cache)
    && (s.sweeper.Asleep? ==>
          s.sweeper.bucket == s.cache.cursor && s.cache.newest[s.cache.cursor] <= s.sweeper.until)
  }

  function Init<K, V>(size: nat, ttl: nat): System<K, V> {
    System(Cache(size, ttl, [], seq(NUM_BUCKETS as int, i => 0), 0), 0, Awake, 0)
  }

  /** ss[i] -es[i]-> ss[i + 1], all along. */
  ghost predicate Run<K, V>(ss: seq<System<K, V>>, es: seq<Event<K, V>>) {
    && |ss| == |es| + 1
    && forall i :: 0 <= i < |es| ==> WellFormed(ss[i].cache) ==> Step(ss[i], es[i], ss[i + 1])
  }

  // ----- what the list operations keep

  lemma DistinctCons<K, V>(it: Item<K, V>, rest: seq<Item<K, V>>)
    requires Distinct(rest) && forall x <- rest :: x.key != it.key
    ensures Distinct([it] + rest)
  {
  }

  lemma {:induction false} WithoutKeeps<K, V>(s: seq<Item<K, V>>, key: K)
    requires Distinct(s)
    ensures Distinct(Without(s, key)) && !Has(Without(s, key), key)
    ensures forall x <- Without(s, key) :: x in s && x.key != key
    ensures forall x <- s :: x.key != key ==> x in Without(s, key)
    ensures |Without(s, key)| == |s| - (if Has(s, key) then 1 else 0)
  {
    if s != [] {
      assert Distinct(s[1..]);
      assert forall i :: 0 <= i < |s| - 1 ==> s[1..][i] == s[i + 1];
      WithoutKeeps(s[1..], key);
      assert s == [s[0]] + s[1..];
      if s[0].key == key {
        assert Has(s, key);
      } else {
        assert Has(s, key) ==> Has(s[1..], key);
        assert Has(s[1..], key) ==> Has(s, key) by {
          assert forall i :: 0 <= i < |s| - 1 && s[1..][i].key == key ==> s[i + 1].key == key;
        }
        assert forall x <- s[1..] :: x.key != s[0].key;
        DistinctCons(s[0], Without(s[1..], key));
      }
    }
  }

  lemma {:induction false} OutsideKeeps<K, V>(s: seq<Item<K, V>>, b: uint8)
    requires Distinct(s)
    ensures Distinct(Outside(s, b))
    ensures forall x <- Outside(s, b) :: x in s && x.bucket != b
    ensures forall x <- s :: x.bucket != b ==> x in Outside(s, b)
    ensures |Outside(s, b)| <= |s|
  {
    if s != [] {
      assert Distinct(s[1..]);
      assert forall i :: 0 <= i < |s| - 1 ==> s[1..][i] == s[i + 1];
      OutsideKeeps(s[1..], b);
      assert s == [s[0]] + s[1..];
      assert forall x <- s[1..] :: x.key != s[0].key;
      DistinctCons(s[0], Outside(s[1..], b));
    }
  }

  lemma BoundedBelow<K, V>(s: seq<Item<K, V>>, t: seq<Item<K, V>>, newest: seq<Time>)
    requires Bounded(s, newest) && forall x <- t :: x in s
    ensures Bounded(t, newest)
  {
    forall i | 0 <= i < |t|
      ensures t[i].bucket < NUM_BUCKETS && t[i].expiresAt <= newest[t[i].bucket]
    {
      assert t[i] in s;
    }
  }

  lemma AddWellFormed<K, V>(c: Cache<K, V>, key: K, value: V, now: Time)
    requires WellFormed(c)
    ensures WellFormed(Add(c, key, value, now))
    ensures Add(c, key, value, now).newest[c.cursor] == c.newest[c.cursor]
  {
    var it := Item(key, value, now + c.ttl, AddBucket(c.cursor));
    var rest := Without(c.recency, key);
    WithoutKeeps(c.recency, key);
    BoundedBelow(c.recency, rest, c.newest);
    DistinctCons(it, rest);
    assert Bounded([it] + rest, Add(c, key, value, now).newest);
  }

  lemma StepKeepsInv<K, V>(s: System<K, V>, e: Event<K, V>, s': System<K, V>)
    requires Inv(s) && Step(s, e, s')
    ensures Inv(s')
  {
    match e
    case DoAdd(k, v) => AddWellFormed(s.cache, k, v, s.clock);
    case DoGet(k) =>
      WithoutKeeps(s.cache.recency, k);
      BoundedBelow(s.cache.recency, s'.cache.recency, s.cache.newest);
    case DoRemove(k) =>
      WithoutKeeps(s.cache.recency, k);
      BoundedBelow(s.cache.recency, s'.cache.recency, s.cache.newest);
    case SweepStart =>
      OutsideKeeps(s.cache.recency, s.cache.cursor);
      BoundedBelow(s.cache.recency, s'.cache.recency, s.cache.newest);
    case SweepWake =>
      OutsideKeeps(s.cache.recency, s.cache.cursor);
      BoundedBelow(s.cache.recency, s'.cache.recency, s.cache.newest);
    case _ =>
  }

  lemma {:induction false} RunKeepsInv<K, V>(ss: seq<System<K, V>>, es: seq<Event<K, V>>, n: nat)
    requires Run(ss, es) && Inv(ss[0]) && n <= |es|
    ensures Inv(ss[n])
  {
    if n > 0 {
      RunKeepsInv(ss, es, n - 1);
      StepKeepsInv(ss[n - 1], es[n - 1], ss[n]);
    }
  }

  // ----- who may leave, who may come

  /** The reasons an item can leave the cache in one event; expiry only once the time has passed. */
  ghost predicate MayLeave<K, V>(s: System<K, V>, e: Event<K, V>, i: nat)
    requires i < |s.cache.recency|
  {
    var c, it := s.cache, s.cache.recency[i];
    match e
    case Tick(_) => false
    case DoGet(_) => false
    case DoAdd(k, _) => k == it.key || (!Has(c.recency, k) && |c.recency| == c.size && i == c.size - 1)
    case DoRemove(k) => k == it.key
    case DoRemoveOldest => i == |c.recency| - 1
    case DoResize(n) => 0 < n <= i
    case DoPurge => true
    case SweepStart => it.expiresAt <= s.clock
    case SweepWake => it.expiresAt <= s.clock
  }

  lemma Departures<K, V>(s: System<K, V>, e: Event<K, V>, s': System<K, V>, i: nat)
    requires Inv(s) && Step(s, e, s') && i < |s.cache.recency|
    ensures s.cache.recency[i] in s'.cache.recency || MayLeave(s, e, i)
  {
    var c, it := s.cache, s.cache.recency[i];
    match e
    case DoAdd(k, v) => AddDepartures(c, k, v, s.clock, i);
    case DoGet(k) => GetKeeps(c, k, s.clock, it);
    case DoRemove(k) => WithoutKeeps(c.recency, k);
    case DoRemoveOldest => PrefixKeeps(c.recency, |c.recency| - 1, i);
    case DoResize(n) =>
      if 0 < n < |c.recency| {
        PrefixKeeps(c.recency, n, i);
      }
    case SweepStart => OutsideKeeps(c.recency, c.cursor);
    case SweepWake => OutsideKeeps(c.recency, c.cursor);
    case _ =>
  }

  lemma PrefixKeeps<T>(s: seq<T>, n: nat, i: nat)
    requires i < |s| && n <= |s|
    ensures i < n ==> s[i] in s[..n]
  {
  }

  lemma GetKeeps<K, V>(c: Cache<K, V>, k: K, now: Time, it: Item<K, V>)
    requires WellFormed(c) && it in c.recency
    ensures it in Get(c, k, now).0.recency
  {
    WithoutKeeps(c.recency, k);
    if it.key == k {
      var i :| 0 <= i < |c.recency| && c.recency[i] == it;
      LookupAt(c.recency, i);
    }
  }

  lemma AddDepartures<K, V>(c: Cache<K, V>, k: K, v: V, now: Time, i: nat)
    requires WellFormed(c) && i < |c.recency|
    ensures
      || c.recency[i] in Add(c, k, v, now).recency
      || c.recency[i].key == k
      || (!Has(c.recency, k) && |c.recency| == c.size && i == c.size - 1)
  {
    var rest, it := Without(c.recency, k), Item(k, v, now + c.ttl, AddBucket(c.cursor));
    WithoutKeeps(c.recency, k);
    hide Distinct;
    if Has(c.recency, k) {
      assert |[it] + rest| == |c.recency|;
      assert Add(c, k, v, now).recency == [it] + rest;
    } else {
      WithoutAbsent(c.recency, k);
      assert ([it] + rest)[i + 1] == c.recency[i];
      if c.size > 0 && |rest| >= c.size {
        PrefixKeeps([it] + rest, c.size, i + 1);
      }
    }
  }

  lemma Arrivals<K, V>(s: System<K, V>, e: Event<K, V>, s': System<K, V>, it: Item<K, V>)
    requires Inv(s) && Step(s, e, s')
    requires it in s'.cache.recency && it !in s.cache.recency
    ensures e == DoAdd(it.key, it.value) && it.expiresAt == s.clock + s.cache.ttl
    ensures it.bucket != s.cache.cursor
  {
    var c := s.cache;
    OutsideKeeps(c.recency, c.cursor);
    match e
    case DoAdd(k, v) => WithoutKeeps(c.recency, k);
    case DoGet(k) =>
      WithoutKeeps(c.recency, k);
    case DoRemove(k) => WithoutKeeps(c.recency, k);
    case _ =>
  }

  /** The sweeper takes nothing before its time, whatever the callers do while it sleeps. */
  lemma SweepNeverEarly<K, V>(ss: seq<System<K, V>>, es: seq<Event<K, V>>, n: nat, it: Item<K, V>, size: nat, ttl: nat)
    requires Run(ss, es) && ss[0] == Init(size, ttl)
    requires n < |es| && (es[n].SweepStart? || es[n].SweepWake?)
    requires it in ss[n].cache.recency && it !in ss[n + 1].cache.recency
    ensures it.expiresAt <= ss[n].clock
  {
    RunKeepsInv(ss, es, n);
    var i :| 0 <= i < |ss[n].cache.recency| && ss[n].cache.recency[i] == it;
    Departures(ss[n], es[n], ss[n + 1], i);
  }

  // ----- a value that is still cached is the last one added

  ghost function LastAdded<K, V>(es: seq<Event<K, V>>, key: K): Option<V> {
    if es == [] then None
    else match es[|es| - 1]
      case DoAdd(k, v) => if k == key then Some(v) else LastAdded(es[..|es| - 1], key)
      case _ => LastAdded(es[..|es| - 1], key)
  }

  lemma {:induction false} CachedIsLastAdded<K, V>(
      ss: seq<System<K, V>>, es: seq<Event<K, V>>, n: nat, it: Item<K, V>, size: nat, ttl: nat)
    requires Run(ss, es) && ss[0] == Init(size, ttl) && n <= |es|
    requires it in ss[n].cache.recency
    ensures LastAdded(es[..n], it.key) == Some(it.value)
  {
    if n > 0 {
      var i := n - 1;
      RunKeepsInv(ss, es, i);
      assert Step(ss[i], es[i], ss[i + 1]);
      assert es[..n][..i] == es[..i];
      hide Step;
      hide Inv;
      if it in ss[i].cache.recency {
        CachedIsLastAdded(ss, es, i, it, size, ttl);
        if es[i].DoAdd? && es[i].key == it.key {
          OneItemPerKey(ss[i], es[i], ss[n], it);
        }
      } else {
        Arrivals(ss[i], es[i], ss[n], it);
      }
    }
  }

  lemma OneItemPerKey<K, V>(s: System<K, V>, e: Event<K, V>, s': System<K, V>, it: Item<K, V>)
    requires Inv(s) && Step(s, e, s') && e.DoAdd? && e.key == it.key && it in s'.cache.recency
    ensures it.value == e.value
  {
    WithoutKeeps(s.cache.recency, e.key);
  }

  // ----- nothing stays for a hundred sweeps

  /** How many sweeps it takes the cursor to empty bucket b. */
  function SweepsTo(cursor: uint8, b: uint8): (n: nat)
    requires cursor < NUM_BUCKETS && b < NUM_BUCKETS
    ensures 1 <= n <= 100
  {
    if b >= cursor then (b - cursor) as nat + 1 else (NUM_BUCKETS + b - cursor) as nat + 1
  }

  /** An item that is still there has come closer by the sweeps completed since. */
  lemma {:induction false} ComesCloser<K, V>(ss: seq<System<K, V>>, es: seq<Event<K, V>>, it: Item<K, V>)
    requires Run(ss, es) && Inv(ss[0])
    requires forall i :: 0 <= i < |es| ==> !(es[i].DoAdd? && es[i].key == it.key)
    requires it in ss[|es|].cache.recency
    ensures it in ss[0].cache.recency && it.bucket < NUM_BUCKETS
    ensures ss[0].cache.cursor < NUM_BUCKETS && ss[|es|].cache.cursor < NUM_BUCKETS
    ensures SweepsTo(ss[0].cache.cursor, it.bucket) ==
            SweepsTo(ss[|es|].cache.cursor, it.bucket) + (ss[|es|].sweeps - ss[0].sweeps)
  {
    RunKeepsInv(ss, es, |es|);
    if es != [] {
      var n := |es| - 1;
      RunKeepsInv(ss, es, n);
      if it !in ss[n].cache.recency {
        Arrivals(ss[n], es[n], ss[n + 1], it);
      }
      ComesCloser(ss[..n + 1], es[..n], it);
      SweptCloser(ss[n], es[n], ss[n + 1], it);
    }
  }

  lemma SweptCloser<K, V>(s: System<K, V>, e: Event<K, V>, s': System<K, V>, it: Item<K, V>)
    requires Inv(s) && Step(s, e, s') && it in s.cache.recency && it in s'.cache.recency && it.bucket < NUM_BUCKETS
    ensures s'.cache.cursor < NUM_BUCKETS
    ensures SweepsTo(s.cache.cursor, it.bucket) == SweepsTo(s'.cache.cursor, it.bucket) + (s'.sweeps - s.sweeps)
  {
    OutsideKeeps(s.cache.recency, s.cache.cursor);
  }

  /** A hundred completed sweeps clear out every key that is not added meanwhile. */
  lemma GoneAfterHundredSweeps<K, V>(ss: seq<System<K, V>>, es: seq<Event<K, V>>, key: K)
    requires Run(ss, es) && Inv(ss[0])
    requires forall i :: 0 <= i < |es| ==> !(es[i].DoAdd? && es[i].key == key)
    requires ss[|es|].sweeps >= ss[0].sweeps + 100
    ensures !Has(ss[|es|].cache.recency, key)
  {
    if Has(ss[|es|].cache.recency, key) {
      var i :| 0 <= i < |ss[|es|].cache.recency| && ss[|es|].cache.recency[i].key == key;
      ComesCloser(ss, es, ss[|es|].cache.recency[i]);
    }
  }
}
