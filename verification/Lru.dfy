/** The expiring LRU cache over the heap: ring, hash index and expiry buckets.
    Every method is tied to the operation of the same name on the recency list. */
module Lru {
  import opened LruRing
  import opened Options
  import opened Recency

  /** s lists the elements of m, each once. */
  ghost predicate Enumerates<T>(s: seq<T>, m: set<T>) {
    && (forall i, j :: 0 <= i < j < |s| ==> s[i] != s[j])
    && (forall i :: 0 <= i < |s| ==> s[i] in m)
    && (forall x <- m :: x in s)
  }

  lemma {:induction false} ItemsOfAt<K, V>(nodes: seq<Entry<K, V>>)
    ensures forall i :: 0 <= i < |nodes| ==> ItemsOf(nodes)[i] == ItemOf(nodes[i])
  {
    if nodes != [] {
      ItemsOfAt(nodes[1..]);
    }
  }

  lemma EnumeratesWithout<T>(s: seq<T>, m: set<T>, i: nat)
    requires Enumerates(s, m) && i < |s|
    ensures Enumerates(DropAt(s, i), m - {s[i]})
  {
  }

  datatype Bucket<K, V> = Bucket(entries: map<K, Entry<K, V>>, newestEntry: Time)

  ghost function ItemOf<K, V>(e: Entry<K, V>): Item<K, V>
    reads e`key, e`value, e`expiresAt, e`expireBucket
  {
    Item(e.key, e.value, e.expiresAt, e.expireBucket)
  }

  ghost function ItemsOf<K, V>(nodes: seq<Entry<K, V>>): (r: seq<Item<K, V>>)
    reads nodes`key, nodes`value, nodes`expiresAt, nodes`expireBucket
    ensures |r| == |nodes|
  {
    if nodes == [] then [] else [ItemOf(nodes[0])] + ItemsOf(nodes[1..])
  }

  lemma EnumeratesFront<T>(s: seq<T>, m: set<T>, i: nat)
    requires Enumerates(s, m) && i < |s|
    ensures Enumerates([s[i]] + (DropAt(s, i)), m)
  {
  }

  lemma EnumeratesRest<T>(s: seq<T>, m: set<T>, i: nat)
    requires Enumerates(s, m) && i < |s|
    ensures s[i] !in DropAt(s, i)
    ensures Enumerates(DropAt(s, i), m - {s[i]})
  {
  }

  lemma EnumeratesCons<T>(s: seq<T>, m: set<T>, e: T)
    requires Enumerates(s, m) && e !in m
    ensures Enumerates([e] + s, m + {e})
  {
  }

  lemma ItemsOfCons<K, V>(e: Entry<K, V>, rest: seq<Entry<K, V>>)
    ensures ItemsOf([e] + rest) == [ItemOf(e)] + ItemsOf(rest)
  {
  }

  lemma {:induction false} ItemsOfWithout<K, V>(nodes: seq<Entry<K, V>>, i: nat)
    requires i < |nodes|
    ensures ItemsOf(DropAt(nodes, i)) == DropAt(ItemsOf(nodes), i)
    ensures ItemsOf(nodes)[i] == ItemOf(nodes[i])
  {
    if i == 0 {
      assert DropAt(nodes, 0) == nodes[1..];
    } else {
      ItemsOfWithout(nodes[1..], i - 1);
      DropAtTail(nodes, i);
      DropAtTail(ItemsOf(nodes), i);
      ItemsOfCons(nodes[0], DropAt(nodes[1..], i - 1));
      assert ItemsOf(nodes)[1..] == ItemsOf(nodes[1..]);
    }
  }

  lemma PairsOfWithout<K, V>(nodes: seq<Entry<K, V>>, i: nat)
    requires i < |nodes|
    ensures Pairs(ItemsOf(nodes)) == Pairs(ItemsOf(DropAt(nodes, i))) + multiset{(nodes[i].key, nodes[i].value)}
  {
    hide ItemsOf;
    hide Pairs;
    hide DropAt;
    ItemsOfWithout(nodes, i);
    PairsSplit(ItemsOf(nodes), i);
  }

  class LRU<K(==), V> {
    var size: nat
    const evictList: LruList<K, V>
    ghost var members: set<Entry<K, V>>  // the nodes of evictList
    var items: map<K, Entry<K, V>>
    const onEvict: bool  // whether a callback was given
    ghost var evictions: multiset<(K, V)>  // the calls made to it
    const ttl: nat
    const buckets: array<Bucket<K, V>>
    var nextCleanupBucket: uint8

    /** The index holds exactly the nodes, by key. */
    ghost predicate Indexed()
      reads this`items, this`members, members`key
    {
      && (forall e <- members :: e.key in items && items[e.key] == e)
      && (forall k <- items :: items[k] in members && items[k].key == k)
    }

    /** e sits in the bucket it names, and no later than the newest time recorded there. */
    ghost predicate Housed(e: Entry<K, V>)
      reads e`key, e`expiresAt, e`expireBucket, buckets
    {
      && e.expireBucket as int < buckets.Length
      && e.key in buckets[e.expireBucket].entries
      && buckets[e.expireBucket].entries[e.key] == e
      && e.expiresAt <= buckets[e.expireBucket].newestEntry
    }

    /** What bucket b holds under k is a node with that key that names b. */
    ghost predicate Tenant(b: nat, k: K, es: set<Entry<K, V>>)
      reads buckets, es`key, es`expireBucket
      requires b < buckets.Length && k in buckets[b].entries
    {
      var e := buckets[b].entries[k];
      e in es && e.key == k && e.expireBucket as int == b
    }

    /** Each node but `x` sits in exactly the bucket it names; `x` sits in none. */
    ghost predicate BucketedExcept(x: Entry?<K, V>, es: set<Entry<K, V>>)
      reads buckets, es`key, es`expiresAt, es`expireBucket
    {
      && buckets.Length == NUM_BUCKETS as int
      && (forall e <- es :: e != x ==> Housed(e))
      && (forall b, k :: 0 <= b < buckets.Length && k in buckets[b].entries ==>
            buckets[b].entries[k] != x && Tenant(b, k, es))
    }

    /** The three structures agree. */
    ghost predicate Coherent()
      reads this`items, this`members, this`nextCleanupBucket
      reads evictList, evictList.root, evictList.nodes, members, buckets
    {
      && evictList.Valid()
      && Enumerates(evictList.nodes, members)
      && Indexed()
      && BucketedExcept(null, members)
      && nextCleanupBucket < NUM_BUCKETS
    }

    ghost predicate Valid()
      reads this, evictList, evictList.root, evictList.nodes, members, buckets
    {
      Coherent() && (size > 0 ==> evictList.len <= size)
    }

    ghost function Newest(): seq<Time>
      reads buckets
    {
      seq(buckets.Length, i requires 0 <= i < buckets.Length reads buckets => buckets[i].newestEntry)
    }

    ghost function Recent(): seq<Item<K, V>>
      reads this, evictList, evictList.nodes
    {
      ItemsOf(evictList.nodes)
    }

    ghost function Model(): Cache<K, V>
      reads this, evictList, evictList.nodes, buckets
    {
      Cache(size, ttl, Recent(), Newest(), nextCleanupBucket)
    }

    /** The pair that adding under `key` would replace. */
    static ghost function Overwritten(s: seq<Item<K, V>>, key: K): multiset<(K, V)> {
      match Lookup(s, key)
      case Some(it) => multiset{(key, it.value)}
      case None => multiset{}
    }

    /** What the callback has been told of, together with what is still held. */
    ghost function Ledger(): multiset<(K, V)>
      reads this, evictList, evictList.nodes
    {
      evictions + Pairs(Recent())
    }

    lemma ModelWellFormed()
      requires Valid()
      ensures WellFormed(Model())
    {
      CoherentModel();
    }

    lemma CoherentModel()
      requires Coherent()
      ensures Distinct(Recent()) && Bounded(Recent(), Newest())
    {
      hide ItemsOf;
      ItemsOfAt(evictList.nodes);
      var s := Recent();
      forall i, j | 0 <= i < j < |s|
        ensures s[i].key != s[j].key
      {
        assert evictList.nodes[i] in members && evictList.nodes[j] in members;
      }
      forall i | 0 <= i < |s|
        ensures s[i].bucket < NUM_BUCKETS && s[i].expiresAt <= Newest()[s[i].bucket]
      {
        assert Housed(evictList.nodes[i]);
      }
    }

    lemma Locate(key: K) returns (i: nat)
      requires Enumerates(evictList.nodes, members) && Indexed() && key in items
      ensures i < |evictList.nodes| && evictList.nodes[i] == items[key] && items[key].key == key
    {
      i :| 0 <= i < |evictList.nodes| && evictList.nodes[i] == items[key];
    }

    lemma Absent(key: K)
      requires Enumerates(evictList.nodes, members) && Indexed() && key !in items
      ensures !Has(Recent(), key)
    {
      hide ItemsOf;
      ItemsOfAt(evictList.nodes);
      forall j | 0 <= j < |Recent()|
        ensures Recent()[j].key != key
      {
        assert evictList.nodes[j] in members;
      }
    }

    /** The index and the list agree on every key. */
    lemma Find(key: K) returns (i: nat)
      requires Coherent()
      ensures key in items ==>
        && i < |evictList.nodes| && evictList.nodes[i] == items[key]
        && Recent()[i] == ItemOf(items[key])
        && Lookup(Recent(), key) == Some(Recent()[i])
        && Without(Recent(), key) == DropAt(Recent(), i)
      ensures key !in items ==> Lookup(Recent(), key) == None && Without(Recent(), key) == Recent()
    {
      hide Enumerates;
      hide Indexed;
      hide BucketedExcept;
      hide evictList.Valid;
      hide ItemsOf;
      hide Distinct;
      hide Without;
      hide Lookup;
      CoherentModel();
      i := 0;
      if key in items {
        i := Locate(key);
        ItemsOfWithout(evictList.nodes, i);
        LookupAt(Recent(), i);
        WithoutAt(Recent(), i);
      } else {
        Absent(key);
        WithoutAbsent(Recent(), key);
      }
    }

    /** The i-th node is a member, and no other member has its key. */
    lemma Sole(i: nat)
      requires Enumerates(evictList.nodes, members) && Indexed() && i < |evictList.nodes|
      ensures evictList.nodes[i] in members
      ensures forall n <- members :: n != evictList.nodes[i] ==> n.key != evictList.nodes[i].key
    {
    }

    constructor (size: int, onEvict: bool, ttl: int, noEvictionTTL: nat, sentinel: Entry<K, V>)
      modifies sentinel`next, sentinel`prev
      ensures Valid()
      ensures Model() == Cache(if size < 0 then 0 else size, if ttl <= 0 then noEvictionTTL else ttl,
                               [], seq(NUM_BUCKETS as int, i => 0), 0)
      ensures evictions == multiset{} && this.onEvict == onEvict
    {
      this.size := if size < 0 then 0 else size;
      this.ttl := if ttl <= 0 then noEvictionTTL else ttl;
      var list := new LruList(sentinel);
      evictList := list;
      members := {};
      items := map[];
      this.onEvict := onEvict;
      evictions := multiset{};
      buckets := new Bucket[NUM_BUCKETS as int](i => Bucket(map[], 0));
      nextCleanupBucket := 0;
    }

    // ----- the private helpers

    /** Files an entry that sits in no bucket. */
    method AddToBucket(e: Entry<K, V>)
      requires BucketedExcept(e, members) && e in members
      requires forall n <- members :: n != e ==> n.key != e.key
      requires nextCleanupBucket < NUM_BUCKETS
      modifies e`expireBucket, buckets
      ensures BucketedExcept(null, members)
      ensures e.expireBucket == AddBucket(nextCleanupBucket)
      ensures Newest() == Raise(old(Newest()), AddBucket(nextCleanupBucket), e.expiresAt)
    {
      assert forall n <- members :: n != e ==> Housed(n);
      var bucketID := (NUM_BUCKETS + nextCleanupBucket - 1) % NUM_BUCKETS;
      e.expireBucket := bucketID;
      PutInBucket(bucketID, e);
    }

    method PutInBucket(b: uint8, e: Entry<K, V>)
      requires b as int < buckets.Length
      modifies buckets
      ensures forall i :: 0 <= i < buckets.Length && i != b as int ==> buckets[i] == old(buckets[i])
      ensures buckets[b].entries == old(buckets[b].entries)[e.key := e]
      ensures Newest() == Raise(old(Newest()), b, e.expiresAt)
      ensures buckets[b].newestEntry == Newest()[b]
    {
      buckets[b] := buckets[b].(entries := buckets[b].entries[e.key := e]);
      if buckets[b].newestEntry < e.expiresAt {
        buckets[b] := buckets[b].(newestEntry := e.expiresAt);
      }
    }

    /** Takes e out of the bucket it names. */
    method RemoveFromBucket(e: Entry<K, V>, ghost es: set<Entry<K, V>>)
      requires BucketedExcept(null, es) && e in es
      requires forall n <- es :: n != e ==> n.key != e.key
      modifies buckets
      ensures BucketedExcept(e, es)
      ensures Newest() == old(Newest())
    {
      assert Housed(e);
      assert forall n <- es :: n != e ==> Housed(n);
      DeleteFromBucket(e.expireBucket, e.key);
    }

    method DeleteFromBucket(b: uint8, k: K)
      requires b as int < buckets.Length
      modifies buckets
      ensures forall i :: 0 <= i < buckets.Length && i != b as int ==> buckets[i] == old(buckets[i])
      ensures buckets[b] == old(buckets[b]).(entries := old(buckets[b]).entries - {k})
      ensures Newest() == old(Newest())
    {
      buckets[b] := buckets[b].(entries := buckets[b].entries - {k});
    }

    /** The ring and the index without e, the i-th node. */
    method Unlink(e: Entry<K, V>, ghost i: nat)
      requires evictList.Valid() && Enumerates(evictList.nodes, members) && Indexed()
      requires i < |evictList.nodes| && evictList.nodes[i] == e
      modifies this`items, this`members, evictList`len, evictList`nodes
      modifies evictList.root`next, evictList.root`prev
      modifies evictList.nodes`next, evictList.nodes`prev, evictList.nodes`list
      ensures evictList.Valid() && Enumerates(evictList.nodes, members) && Indexed()
      ensures evictList.nodes == DropAt(old(evictList.nodes), i)
      ensures evictList.len == old(evictList.len) - 1
      ensures members == old(members) - {e}
      ensures Recent() == DropAt(old(Recent()), i)
      ensures old(Pairs(Recent())) == Pairs(Recent()) + multiset{(e.key, e.value)}
    {
      hide evictList.Valid;
      hide Enumerates;
      hide ItemsOf;
      hide Pairs;
      Sole(i);
      EnumeratesWithout(evictList.nodes, members, i);
      ItemsOfWithout(evictList.nodes, i);
      PairsOfWithout(evictList.nodes, i);
      ghost var nodes := evictList.nodes;
      evictList.Remove(e, i);
      assert ItemsOf(nodes) == old(Recent());
      items := items - {e.key};
      members := members - {e};
    }

    lemma Forget(e: Entry<K, V>, es: set<Entry<K, V>>)
      requires BucketedExcept(e, es)
      ensures BucketedExcept(null, es - {e})
    {
    }

    /** Takes e, the i-th node, out of the ring, the index and its bucket, and reports it. */
    method RemoveElement(e: Entry<K, V>, ghost i: nat)
      requires Coherent() && i < |evictList.nodes| && evictList.nodes[i] == e
      modifies this`items, this`members, this`evictions, buckets, evictList`len, evictList`nodes
      modifies evictList.root`next, evictList.root`prev
      modifies evictList.nodes`next, evictList.nodes`prev, evictList.nodes`list
      ensures Coherent() && evictList.len == old(evictList.len) - 1
      ensures evictList.nodes == DropAt(old(evictList.nodes), i)
      ensures Recent() == DropAt(old(Recent()), i)
      ensures Newest() == old(Newest())
      ensures onEvict ==> Ledger() == old(Ledger())
      ensures !onEvict ==> evictions == old(evictions)
    {
      hide evictList.Valid;
      hide Enumerates;
      hide Indexed;
      hide BucketedExcept;
      hide ItemsOf;
      hide Pairs;
      ghost var es := members;
      Sole(i);
      Unlink(e, i);
      RemoveFromBucket(e, es);
      Forget(e, es);
      if onEvict {
        evictions := evictions + multiset{(e.key, e.value)};
      }
    }

    method RemoveOldestLocked()
      requires Coherent()
      modifies this, evictList, evictList.root, evictList.nodes, buckets
      ensures Coherent() && Model() == Recency.RemoveOldest(old(Model()))
      ensures evictList.len == if old(evictList.len) == 0 then 0 else old(evictList.len) - 1
      ensures evictList.nodes == old(evictList.nodes)[..evictList.len]
      ensures onEvict ==> Ledger() == old(Ledger())
      ensures !onEvict ==> evictions == old(evictions)
    {
      hide Enumerates;
      hide Indexed;
      hide BucketedExcept;
      hide Pairs;
      var ent := evictList.Back();
      if ent != null {
        RemoveElement(ent, |evictList.nodes| - 1);
      }
    }

    // ----- the operations

    /** Removes the key; tells whether it was there. */
    method Remove(key: K) returns (ok: bool)
      requires Valid()
      modifies this, evictList, evictList.root, evictList.nodes, buckets
      ensures Valid() && Model() == Recency.Remove(old(Model()), key)
      ensures Lacks(old(Recent()), key, Recent()) && ok == Has(old(Recent()), key)
      ensures onEvict ==> Ledger() == old(Ledger())
      ensures !onEvict ==> evictions == old(evictions)
    {
      hide Enumerates;
      hide Indexed;
      hide BucketedExcept;
      hide evictList.Valid;
      hide Pairs;
      hide Lacks;
      CoherentModel();
      RemoveTakes(Model(), key);
      ghost var i := Find(key);
      if key in items {
        RemoveElement(items[key], i);
        return true;
      }
      return false;
    }

    /** Changes the capacity, dropping the oldest items; 0 or less means unlimited. */
    method Resize(newSize: int) returns (evicted: int)
      requires Valid()
      modifies this, evictList, evictList.root, evictList.nodes, buckets
      ensures Valid() && Model() == Recency.Resize(old(Model()), newSize)
      ensures evicted == |old(Recent())| - |Recent()|
      ensures Recent() == if 0 < newSize < |old(Recent())| then old(Recent())[..newSize] else old(Recent())
      ensures size == if newSize <= 0 then 0 else newSize
      ensures onEvict ==> Ledger() == old(Ledger())
      ensures !onEvict ==> evictions == old(evictions)
    {
      hide Enumerates;
      hide Indexed;
      hide BucketedExcept;
      hide Pairs;
      hide ItemsOf;
      if newSize <= 0 {
        size := 0;
        return 0;
      }
      ghost var was := Model();
      var diff := evictList.len - newSize;
      if diff < 0 {
        diff := 0;
      }
      for i := 0 to diff
        invariant Coherent()
        invariant evictList.len == old(evictList.len) - i
        invariant Model() == was.(recency := was.recency[..|was.recency| - i])
        invariant evictList.nodes == old(evictList.nodes)[..evictList.len]
        invariant onEvict ==> Ledger() == old(Ledger())
        invariant !onEvict ==> evictions == old(evictions)
      {
        RemoveOldestLocked();
      }
      size := newSize;
      return diff;
    }

    /** Moves a node to the front of the recency order. */
    method Touch(e: Entry<K, V>, ghost i: nat)
      requires Coherent() && i < |evictList.nodes| && evictList.nodes[i] == e
      modifies evictList`nodes, evictList.root`next, evictList.root`prev
      modifies evictList.nodes`next, evictList.nodes`prev
      ensures Coherent()
      ensures evictList.nodes == [e] + DropAt(old(evictList.nodes), i)
    {
      hide Enumerates;
      hide Indexed;
      hide BucketedExcept;
      hide DropAt;
      hide evictList.Valid;
      evictList.Owned(i);
      EnumeratesFront(evictList.nodes, members, i);
      evictList.MoveToFront(e, i);
    }

    lemma ItemsOfFront(nodes: seq<Entry<K, V>>, i: nat)
      requires i < |nodes|
      ensures ItemsOf([nodes[i]] + DropAt(nodes, i)) == [ItemsOf(nodes)[i]] + DropAt(ItemsOf(nodes), i)
      ensures Pairs(ItemsOf([nodes[i]] + DropAt(nodes, i))) == Pairs(ItemsOf(nodes))
    {
      hide ItemsOf;
      hide DropAt;
      hide Pairs;
      ItemsOfWithout(nodes, i);
      ItemsOfCons(nodes[i], DropAt(nodes, i));
      PairsFront(ItemsOf(nodes), i);
    }

    /** A live hit is moved to the front; an expired entry is left alone. */
    method Get(key: K, now: Time) returns (value: Option<V>)
      requires Valid()
      modifies this, evictList, evictList.root, evictList.nodes
      ensures Valid() && (Model(), value) == Recency.Get(old(Model()), key, now)
      ensures Found(old(Recent()), key, now, Recent(), value)
      ensures Ledger() == old(Ledger()) && evictions == old(evictions)
    {
      hide Enumerates;
      hide Indexed;
      hide BucketedExcept;
      hide ItemsOf;
      hide DropAt;
      hide Pairs;
      hide evictList.Valid;
      hide Found;
      CoherentModel();
      GetFinds(Model(), key, now);
      ghost var i := Find(key);
      if key in items {
        var ent := items[key];
        if now > ent.expiresAt {
          return None;
        }
        ghost var nodes := evictList.nodes;
        Touch(ent, i);
        ItemsOfFront(nodes, i);
        return Some(ent.value);
      }
      return None;
    }

    /** Gives a node a new value and a new lease, and moves it to the front. */
    method Renew(e: Entry<K, V>, value: V, expiresAt: Time, ghost i: nat)
      requires Coherent() && i < |evictList.nodes| && evictList.nodes[i] == e
      modifies evictList`nodes, evictList.root`next, evictList.root`prev
      modifies evictList.nodes`next, evictList.nodes`prev
      modifies e`value, e`expiresAt, e`expireBucket, buckets
      ensures Coherent()
      ensures evictList.nodes == [e] + DropAt(old(evictList.nodes), i)
      ensures ItemOf(e) == Item(old(e.key), value, expiresAt, AddBucket(nextCleanupBucket))
      ensures Newest() == Raise(old(Newest()), AddBucket(nextCleanupBucket), expiresAt)
    {
      hide Enumerates;
      hide Indexed;
      hide BucketedExcept;
      hide DropAt;
      hide evictList.Valid;
      Sole(i);
      Touch(e, i);
      RemoveFromBucket(e, members);
      SetLease(e, value, expiresAt);
      AddToBucket(e);
    }

    method SetLease(e: Entry<K, V>, value: V, expiresAt: Time)
      requires BucketedExcept(e, members)
      modifies e`value, e`expiresAt
      ensures BucketedExcept(e, members)
      ensures e.value == value && e.expiresAt == expiresAt
    {
      e.value := value;
      e.expiresAt := expiresAt;
      assert forall n <- members :: n != e ==> Housed(n);
    }

    /** Links and indexes a fresh entry at the front; it sits in no bucket yet. */
    method Create(key: K, value: V, expiresAt: Time) returns (e: Entry<K, V>)
      requires Coherent() && key !in items
      modifies evictList`len, evictList`nodes, evictList.root`next, evictList.root`prev
      modifies evictList.nodes`next, evictList.nodes`prev
      modifies this`items, this`members
      ensures fresh(e) && e.key == key && e.value == value && e.expiresAt == expiresAt
      ensures evictList.Valid() && Enumerates(evictList.nodes, members) && Indexed()
      ensures BucketedExcept(e, members) && e in members
      ensures forall n <- members :: n != e ==> n.key != e.key
      ensures evictList.nodes == [e] + old(evictList.nodes)
      ensures evictList.len == old(evictList.len) + 1
    {
      hide Enumerates;
      hide evictList.Valid;
      hide BucketedExcept;
      hide Indexed;
      ghost var nodes, es := evictList.nodes, members;
      e := evictList.PushFrontExpirable(key, value, expiresAt);
      EnumeratesCons(nodes, es, e);
      Admit(e, es);
      Index(e);
    }

    method Index(e: Entry<K, V>)
      requires Indexed() && e.key !in items
      modifies this`items, this`members
      ensures Indexed() && members == old(members) + {e} && items == old(items)[e.key := e]
      ensures forall n <- members :: n != e ==> n.key != e.key
    {
      items := items[e.key := e];
      members := members + {e};
    }

    lemma Admit(e: Entry<K, V>, es: set<Entry<K, V>>)
      requires BucketedExcept(null, es) && e !in es
      ensures BucketedExcept(e, es + {e})
    {
    }

    /** A new entry goes to the front, whatever the capacity. */
    method PushNew(key: K, value: V, expiresAt: Time)
      requires Coherent() && key !in items
      modifies this`items, this`members, evictList, evictList.root, evictList.nodes, buckets
      ensures Coherent()
      ensures evictList.len == old(evictList.len) + 1
      ensures |evictList.nodes| > 0 && fresh(evictList.nodes[0]) && evictList.nodes[1..] == old(evictList.nodes)
      ensures Recent() == [Item(key, value, expiresAt, AddBucket(nextCleanupBucket))] + old(Recent())
      ensures Newest() == Raise(old(Newest()), AddBucket(nextCleanupBucket), expiresAt)
    {
      hide Enumerates;
      hide BucketedExcept;
      hide Indexed;
      hide ItemsOf;
      hide evictList.Valid;
      ghost var nodes := evictList.nodes;
      var ent := Create(key, value, expiresAt);
      AddToBucket(ent);
      ItemsOfCons(ent, nodes);
    }

    /** What adding a key that is not there does to the list. */
    lemma AddsOne(c: Cache<K, V>, key: K, value: V, now: Time)
      requires c.cursor < NUM_BUCKETS && |c.newest| == NUM_BUCKETS as int
      requires Without(c.recency, key) == c.recency && (c.size > 0 ==> |c.recency| <= c.size)
      ensures
        var it := Item(key, value, now + c.ttl, AddBucket(c.cursor));
        var more := c.(recency := [it] + c.recency, newest := Raise(c.newest, it.bucket, it.expiresAt));
        Recency.Add(c, key, value, now)
        == if c.size > 0 && |more.recency| > c.size then Recency.RemoveOldest(more) else more
    {
      hide Without;
      hide Raise;
    }

    method AddNew(key: K, value: V, now: Time) returns (evicted: bool)
      requires Valid() && key !in items
      modifies this, evictList, evictList.root, evictList.nodes, buckets
      ensures Valid() && Model() == Recency.Add(old(Model()), key, value, now)
      ensures evicted <==> size > 0 && |old(Recent())| == size
      ensures onEvict ==> Ledger() == old(Ledger()) + multiset{(key, value)}
      ensures !onEvict ==> evictions == old(evictions)
    {
      hide Enumerates;
      hide BucketedExcept;
      hide Indexed;
      hide ItemsOf;
      hide Pairs;
      hide evictList.Valid;
      hide Without;
      hide Lookup;
      hide DropAt;
      hide ItemOf;
      hide Recency.Add;
      hide Truncate;
      ghost var i := Find(key);
      BucketCount();
      evictList.Length();
      AddsOne(Model(), key, value, now);
      PairsCons(Item(key, value, now + ttl, AddBucket(nextCleanupBucket)), Recent());
      evictList.Length();
      PushNew(key, value, now + ttl);
      evictList.Length();
      evicted := size > 0 && evictList.len > size;
      if evicted {
        RemoveOldestLocked();
      }
      evictList.Length();
    }

    method AddExisting(key: K, value: V, now: Time)
      requires Valid() && key in items
      modifies evictList, evictList.root, evictList.nodes, buckets
      ensures Valid() && Model() == Recency.Add(old(Model()), key, value, now)
      ensures Ledger() + Overwritten(old(Recent()), key) == old(Ledger()) + multiset{(key, value)}
    {
      hide Enumerates;
      hide BucketedExcept;
      hide Indexed;
      hide ItemsOf;
      hide DropAt;
      hide Pairs;
      hide evictList.Valid;
      hide Without;
      hide Lookup;
      ghost var i := Find(key);
      ghost var nodes := evictList.nodes;
      evictList.Length();
      var ent := items[key];
      EnumeratesRest(nodes, members, i);
      ItemsOfWithout(nodes, i);
      PairsOfWithout(nodes, i);
      Renew(ent, value, now + ttl, i);
      assert ItemsOf(DropAt(nodes, i)) == old(ItemsOf(DropAt(evictList.nodes, i)));
      ItemsOfCons(ent, DropAt(nodes, i));
      PairsCons(ItemOf(ent), ItemsOf(DropAt(nodes, i)));
    }

    /** Adds or replaces; replacing an existing value reports nothing. */
    method Add(key: K, value: V, now: Time) returns (evicted: bool)
      requires Valid()
      modifies this, evictList, evictList.root, evictList.nodes, buckets
      ensures Valid() && Model() == Recency.Add(old(Model()), key, value, now)
      ensures Added(old(Model()), key, value, now, Recent())
      ensures evicted <==> !Has(old(Recent()), key) && 0 < size == |old(Recent())|
      ensures onEvict ==> Ledger() + Overwritten(old(Recent()), key) == old(Ledger()) + multiset{(key, value)}
      ensures !onEvict ==> evictions == old(evictions)
    {
      hide Enumerates;
      hide BucketedExcept;
      hide Indexed;
      hide ItemsOf;
      hide Pairs;
      hide evictList.Valid;
      hide Added;
      ModelWellFormed();
      AddAdds(Model(), key, value, now);
      ghost var i := Find(key);
      if key in items {
        AddExisting(key, value, now);
        return false;
      }
      evicted := AddNew(key, value, now);
    }

    /** Drops the oldest item and returns its key and value. */
    method RemoveOldest() returns (r: Option<(K, V)>)
      requires Valid()
      modifies this, evictList, evictList.root, evictList.nodes, buckets
      ensures Valid() && Model() == Recency.RemoveOldest(old(Model()))
      ensures r == if old(Recent()) == [] then None
                   else Some((old(Recent())[|old(Recent())| - 1].key, old(Recent())[|old(Recent())| - 1].value))
      ensures onEvict ==> Ledger() == old(Ledger())
      ensures !onEvict ==> evictions == old(evictions)
    {
      hide Enumerates;
      hide Indexed;
      hide BucketedExcept;
      hide Pairs;
      hide ItemsOf;
      ItemsOfAt(evictList.nodes);
      var ent := evictList.Back();
      if ent == null {
        return None;
      }
      RemoveElement(ent, |evictList.nodes| - 1);
      return Some((ent.key, ent.value));
    }

    /** First half of a sweep: which bucket, and how long to sleep before it may be emptied. */
    method SweepBegin(now: Time) returns (bucketIdx: uint8, timeToExpire: int)
      requires Valid()
      ensures bucketIdx == Model().cursor
      ensures timeToExpire == Model().newest[Model().cursor] - now
    {
      bucketIdx := nextCleanupBucket;
      timeToExpire := buckets[bucketIdx].newestEntry - now;
    }

    lemma BucketMember(b: uint8, k: K) returns (i: nat)
      requires Coherent() && b < NUM_BUCKETS && k in buckets[b].entries
      ensures i < |evictList.nodes| && evictList.nodes[i] == buckets[b].entries[k]
      ensures evictList.nodes[i].expireBucket == b
    {
      assert Tenant(b as int, k, members);
      i := Locate(k);
    }

    lemma BucketEmpty(b: uint8)
      requires Coherent() && b < NUM_BUCKETS && buckets[b].entries == map[]
      ensures Outside(Recent(), b) == Recent()
    {
      hide ItemsOf;
      ItemsOfAt(evictList.nodes);
      forall i | 0 <= i < |Recent()|
        ensures Recent()[i].bucket != b
      {
        assert evictList.nodes[i] in members && Housed(evictList.nodes[i]);
      }
      OutsideNone(Recent(), b);
    }

    /** Second half of a sweep, after the sleep: the bucket is emptied and the cursor moves on. */
    method SweepEnd(bucketIdx: uint8)
      requires Valid() && bucketIdx < NUM_BUCKETS
      modifies this, evictList, evictList.root, evictList.nodes, buckets
      ensures Valid() && Model() == Recency.Sweep(old(Model()), bucketIdx)
      ensures Swept(old(Recent()), bucketIdx, Recent())
      ensures nextCleanupBucket == if old(nextCleanupBucket) == 99 then 0 else old(nextCleanupBucket) + 1
      ensures onEvict ==> Ledger() == old(Ledger())
      ensures !onEvict ==> evictions == old(evictions)
    {
      hide Enumerates;
      hide Indexed;
      hide BucketedExcept;
      hide Pairs;
      hide ItemsOf;
      hide Outside;
      hide Swept;
      hide evictList.Valid;
      SweepTakes(Model(), bucketIdx);
      evictList.Length();
      BucketCount();
      while buckets[bucketIdx].entries != map[]
        invariant Coherent() && evictList.len <= old(evictList.len)
        invariant evictList.len == |evictList.nodes|
        invariant forall j :: 0 <= j < |evictList.nodes| ==> evictList.nodes[j] in old(evictList.nodes)
        invariant Outside(Recent(), bucketIdx) == Outside(old(Recent()), bucketIdx)
        invariant Newest() == old(Newest()) && size == old(size) && nextCleanupBucket == old(nextCleanupBucket)
        invariant onEvict ==> Ledger() == old(Ledger())
        invariant !onEvict ==> evictions == old(evictions)
        decreases |evictList.nodes|
      {
        assert buckets[bucketIdx].entries.Keys != {};
        var k :| k in buckets[bucketIdx].entries;
        var ent := buckets[bucketIdx].entries[k];
        ghost var i := BucketMember(bucketIdx, k);
        ItemsOfWithout(evictList.nodes, i);
        OutsideDrop(Recent(), i, bucketIdx);
        RemoveElement(ent, i);
        evictList.Length();
      }
      BucketEmpty(bucketIdx);
      nextCleanupBucket := (nextCleanupBucket + 1) % NUM_BUCKETS;
    }

    lemma BucketCount()
      requires Coherent()
      ensures buckets.Length == NUM_BUCKETS as int
    {
    }

    /** The live keys, oldest first, read off the ring from its back. */
    method Keys(now: Time) returns (keys: seq<K>)
      requires Valid()
      ensures keys == LiveKeys(Recent(), now) && Listed(Recent(), now, keys)
    {
      hide Listed;
      hide LiveKeys;
      hide Enumerates;
      hide Indexed;
      hide BucketedExcept;
      hide ItemsOf;
      hide evictList.Valid;
      LiveKeysNone<K, V>(now);
      LiveKeysListed(Recent(), now);
      keys := [];
      evictList.Length();
      ItemsOfAt(evictList.nodes);
      var ent := evictList.Back();
      ghost var i := |evictList.nodes|;
      assert Recent()[i..] == [];
      while ent != null
        invariant 0 <= i <= |evictList.nodes|
        invariant ent == if i == 0 then null else evictList.nodes[i - 1]
        invariant keys == LiveKeys(Recent()[i..], now)
        decreases i
      {
        assert Recent()[i - 1..] == [ItemOf(ent)] + Recent()[i..];
        LiveKeysCons(ItemOf(ent), Recent()[i..], now);
        if now <= ent.expiresAt {
          keys := keys + [ent.key];
        }
        ent := ent.PrevEntry(evictList, i - 1);
        i := i - 1;
      }
      assert Recent()[0..] == Recent();
    }

    /** The entries that are still to be reported, as a list. */
    ghost predicate Pending(left: seq<Entry<K, V>>, rem: set<Entry<K, V>>)
      reads this`items, rem`key
    {
      && Enumerates(left, rem)
      && (forall e <- rem :: e.key in items && items[e.key] == e)
      && (forall k <- items :: items[k] in rem && items[k].key == k)
    }

    lemma AllPending()
      requires Enumerates(evictList.nodes, members) && Indexed()
      ensures Pending(evictList.nodes, members)
    {
    }

    lemma NextPending(left: seq<Entry<K, V>>, rem: set<Entry<K, V>>, k: K) returns (j: nat)
      requires Pending(left, rem) && k in items
      ensures j < |left| && left[j] == items[k] && items[k].key == k
    {
      j :| 0 <= j < |left| && left[j] == items[k];
    }

    method Report(k: K, ghost left: seq<Entry<K, V>>, ghost rem: set<Entry<K, V>>, ghost j: nat)
      requires Pending(left, rem) && k in items
      requires j < |left| && left[j] == items[k] && items[k].key == k
      modifies this`items, this`evictions
      ensures Pending(DropAt(left, j), rem - {left[j]})
      ensures items == old(items) - {k}
      ensures evictions == old(evictions) + if onEvict then multiset{(k, left[j].value)} else multiset{}
    {
      EnumeratesRest(left, rem, j);
      hide Enumerates;
      if onEvict {
        evictions := evictions + multiset{(k, items[k].value)};
      }
      items := items - {k};
    }

    /** Purge's first loop: every entry is reported and leaves the index. */
    method ReportAll()
      requires Enumerates(evictList.nodes, members) && Indexed()
      modifies this`items, this`evictions
      ensures items == map[]
      ensures onEvict ==> evictions == old(Ledger())
      ensures !onEvict ==> evictions == old(evictions)
    {
      hide Pending;
      hide Enumerates;
      hide Indexed;
      hide ItemsOf;
      hide DropAt;
      hide Pairs;
      ghost var left, rem := evictList.nodes, members;
      ghost var total := Ledger();
      AllPending();
      while items != map[]
        invariant Pending(left, rem)
        invariant onEvict ==> evictions + Pairs(ItemsOf(left)) == total
        invariant !onEvict ==> evictions == old(evictions)
        decreases |left|
      {
        assert items.Keys != {};
        var k :| k in items;
        ghost var j := NextPending(left, rem, k);
        PairsOfWithout(left, j);
        ghost var was, x, rest := evictions, multiset{(k, left[j].value)}, Pairs(ItemsOf(DropAt(left, j)));
        assert was + (rest + x) == was + x + rest;
        Report(k, left, rem, j);
        left, rem := DropAt(left, j), rem - {left[j]};
      }
      NothingPending(left, rem);
    }

    /** Empties the cache, reporting every entry. */
    method Purge()
      requires Valid()
      modifies this, evictList, evictList.root, buckets
      ensures Valid() && Model() == Recency.Purge(old(Model())) && Recent() == []
      ensures onEvict ==> Ledger() == old(Ledger())
      ensures !onEvict ==> evictions == old(evictions)
    {
      hide Enumerates;
      hide Indexed;
      hide BucketedExcept;
      hide ItemsOf;
      hide Pairs;
      hide evictList.Valid;
      BucketCount();
      ReportAll();
      EmptyBuckets();
      evictList.Init();
      members := {};
      evictList.Length();
      NothingHeld();
    }

    lemma NothingPending(left: seq<Entry<K, V>>, rem: set<Entry<K, V>>)
      requires Pending(left, rem) && items == map[]
      ensures Pairs(ItemsOf(left)) == multiset{}
    {
    }

    method EmptyBuckets()
      requires buckets.Length == NUM_BUCKETS as int
      modifies buckets
      ensures Newest() == old(Newest())
      ensures forall i :: 0 <= i < buckets.Length ==> buckets[i].entries == map[]
    {
      for i := 0 to buckets.Length
        invariant forall j :: 0 <= j < buckets.Length ==> buckets[j].newestEntry == old(buckets[j].newestEntry)
        invariant forall j :: 0 <= j < i ==> buckets[j].entries == map[]
      {
        buckets[i] := buckets[i].(entries := map[]);
      }
    }

    lemma NothingHeld()
      requires evictList.nodes == [] && members == {} && items == map[] && buckets.Length == NUM_BUCKETS as int
      requires forall i :: 0 <= i < buckets.Length ==> buckets[i].entries == map[]
      ensures Enumerates(evictList.nodes, members) && Indexed() && BucketedExcept(null, members)
      ensures Recent() == [] && Pairs(Recent()) == multiset{}
    {
    }
  }
}
