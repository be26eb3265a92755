/** What the expiring LRU cache stands for: a most-recent-first list of items,
    the newest expiry recorded for each expiry bucket, and the sweep cursor. */
module Recency {
  import opened Options

  type Time = nat  // instants, counted from the zero time.Time

  newtype uint8 = x: int | 0 <= x < 256

  const NUM_BUCKETS: uint8 := 100

  datatype Item<K, V> = Item(key: K, value: V, expiresAt: Time, bucket: uint8)

  /** size == 0 means unlimited. */
  datatype Cache<K, V> = Cache(size: nat, ttl: nat, recency: seq<Item<K, V>>, newest: seq<Time>, cursor: uint8)

  /** s without its i-th element. */
  function DropAt<T>(s: seq<T>, i: nat): (r: seq<T>)
    requires i < |s|
    ensures |r| == |s| - 1
  {
    s[..i] + s[i + 1..]
  }

  lemma DropAtIndex<T>(s: seq<T>, i: nat)
    requires i < |s|
    ensures forall k :: 0 <= k < |s| - 1 ==> DropAt(s, i)[k] == s[if k < i then k else k + 1]
  {
  }

  lemma DropAtTail<T>(s: seq<T>, i: nat)
    requires 0 < i < |s|
    ensures DropAt(s, i) == [s[0]] + DropAt(s[1..], i - 1)
  {
  }

  ghost predicate Distinct<K, V>(s: seq<Item<K, V>>) {
    forall i, j :: 0 <= i < j < |s| ==> s[i].key != s[j].key
  }

  ghost predicate Bounded<K, V>(s: seq<Item<K, V>>, newest: seq<Time>) {
    |newest| == NUM_BUCKETS as int &&
    forall i :: 0 <= i < |s| ==> s[i].bucket < NUM_BUCKETS && s[i].expiresAt <= newest[s[i].bucket]
  }

  /** What every operation keeps. */
  ghost predicate WellFormed<K, V>(c: Cache<K, V>) {
    && Distinct(c.recency)
    && Bounded(c.recency, c.newest)
    && c.cursor < NUM_BUCKETS
    && (c.size > 0 ==> |c.recency| <= c.size)
  }

  ghost predicate Has<K, V>(s: seq<Item<K, V>>, key: K) {
    exists i :: 0 <= i < |s| && s[i].key == key
  }

  /** The item stored under `key`, if any. */
  function Lookup<K(==), V>(s: seq<Item<K, V>>, key: K): (r: Option<Item<K, V>>)
    ensures r.Some? <==> Has(s, key)
    ensures r.Some? ==> r.value in s && r.value.key == key
  {
    if s == [] then None
    else if s[0].key == key then Some(s[0])
    else
      var rest := Lookup(s[1..], key);
      assert forall i :: 0 <= i < |s| - 1 ==> s[1..][i] == s[i + 1];
      assert Has(s, key) ==> Has(s[1..], key);
      rest
  }

  function Without<K(==), V>(s: seq<Item<K, V>>, key: K): seq<Item<K, V>> {
    if s == [] then []
    else if s[0].key == key then s[1..]
    else [s[0]] + Without(s[1..], key)
  }

  function Truncate<K, V>(s: seq<Item<K, V>>, size: nat): seq<Item<K, V>> {
    if size > 0 && |s| > size then s[..size] else s
  }

  /** The items that do not sit in bucket `b`, in the same order. */
  function Outside<K, V>(s: seq<Item<K, V>>, b: uint8): seq<Item<K, V>> {
    if s == [] then []
    else if s[0].bucket == b then Outside(s[1..], b)
    else [s[0]] + Outside(s[1..], b)
  }

  /** The (key, value) pairs held by a list. */
  ghost function Pairs<K, V>(s: seq<Item<K, V>>): multiset<(K, V)> {
    if s == [] then multiset{} else multiset{(s[0].key, s[0].value)} + Pairs(s[1..])
  }

  // ----- the operations

  /** The bucket additions go to: the one the cursor has just left. */
  function AddBucket(cursor: uint8): (b: uint8)
    requires cursor < NUM_BUCKETS
    ensures b < NUM_BUCKETS && b != cursor
  {
    (NUM_BUCKETS + cursor - 1) % NUM_BUCKETS
  }

  function Raise(newest: seq<Time>, b: uint8, t: Time): seq<Time>
    requires b as int < |newest|
  {
    if newest[b] < t then newest[b := t] else newest
  }

  function Add<K(==), V>(c: Cache<K, V>, key: K, value: V, now: Time): Cache<K, V>
    requires c.cursor < NUM_BUCKETS && |c.newest| == NUM_BUCKETS as int
  {
    var it := Item(key, value, now + c.ttl, AddBucket(c.cursor));
    c.(recency := Truncate([it] + Without(c.recency, key), c.size),
       newest := Raise(c.newest, it.bucket, it.expiresAt))
  }

  /** A hit moves the item to the front; an expired item is left where it is. */
  function Get<K(==), V>(c: Cache<K, V>, key: K, now: Time): (Cache<K, V>, Option<V>) {
    match Lookup(c.recency, key)
    case Some(it) =>
      if now > it.expiresAt then (c, None)
      else (c.(recency := [it] + Without(c.recency, key)), Some(it.value))
    case None => (c, None)
  }

  function Remove<K(==), V>(c: Cache<K, V>, key: K): Cache<K, V> {
    c.(recency := Without(c.recency, key))
  }

  function RemoveOldest<K, V>(c: Cache<K, V>): Cache<K, V> {
    if c.recency == [] then c else c.(recency := c.recency[..|c.recency| - 1])
  }

  function Resize<K, V>(c: Cache<K, V>, size: int): Cache<K, V> {
    var n := if size <= 0 then 0 else size;
    c.(size := n, recency := Truncate(c.recency, n))
  }

  function Purge<K, V>(c: Cache<K, V>): Cache<K, V> {
    c.(recency := [])
  }

  /** What a sweep does with the bucket b that it looked at before it slept. */
  function Sweep<K, V>(c: Cache<K, V>, b: uint8): Cache<K, V>
    requires c.cursor < NUM_BUCKETS
  {
    c.(recency := Outside(c.recency, b), cursor := (c.cursor + 1) % NUM_BUCKETS)
  }

  /** The keys that have not expired, oldest first. */
  function LiveKeys<K, V>(s: seq<Item<K, V>>, now: Time): seq<K> {
    if s == [] then []
    else LiveKeys(s[1..], now) + (if now > s[0].expiresAt then [] else [s[0].key])
  }

  // ----- facts about the lists

  lemma {:induction false} WithoutAt<K, V>(s: seq<Item<K, V>>, i: nat)
    requires i < |s| && Distinct(s)
    ensures Without(s, s[i].key) == DropAt(s, i)
  {
    if i > 0 {
      assert Distinct(s[1..]);
      WithoutAt(s[1..], i - 1);
      assert s[..i] == [s[0]] + s[1..][..i - 1];
      assert s[1..][i - 1 + 1..] == s[i + 1..];
    }
  }

  lemma {:induction false} WithoutAbsent<K, V>(s: seq<Item<K, V>>, key: K)
    requires !Has(s, key)
    ensures Without(s, key) == s
  {
    if s != [] {
      assert s[0].key != key;
      assert forall i :: 0 <= i < |s| - 1 ==> s[1..][i] == s[i + 1];
      WithoutAbsent(s[1..], key);
    }
  }

  lemma LookupAt<K, V>(s: seq<Item<K, V>>, i: nat)
    requires i < |s| && Distinct(s)
    ensures Lookup(s, s[i].key) == Some(s[i])
  {
  }

  lemma PairsCons<K, V>(it: Item<K, V>, rest: seq<Item<K, V>>)
    ensures Pairs([it] + rest) == multiset{(it.key, it.value)} + Pairs(rest)
  {
  }

  lemma {:induction false} PairsConcat<K, V>(s: seq<Item<K, V>>, t: seq<Item<K, V>>)
    ensures Pairs(s + t) == Pairs(s) + Pairs(t)
  {
    if s == [] {
      assert s + t == t;
    } else {
      assert (s + t)[1..] == s[1..] + t;
      PairsConcat(s[1..], t);
    }
  }

  lemma {:induction false} PairsSplit<K, V>(s: seq<Item<K, V>>, i: nat)
    requires i < |s|
    ensures Pairs(s) == Pairs(DropAt(s, i)) + multiset{(s[i].key, s[i].value)}
  {
    assert s == s[..i] + ([s[i]] + s[i + 1..]);
    PairsConcat(s[..i], [s[i]] + s[i + 1..]);
    PairsConcat([s[i]], s[i + 1..]);
    PairsConcat(s[..i], s[i + 1..]);
    assert [s[i]][1..] == [];
  }

  lemma PairsFront<K, V>(s: seq<Item<K, V>>, i: nat)
    requires i < |s|
    ensures Pairs([s[i]] + DropAt(s, i)) == Pairs(s)
  {
    PairsSplit(s, i);
    assert ([s[i]] + DropAt(s, i))[1..] == DropAt(s, i);
  }

  lemma {:induction false} OutsideDrop<K, V>(s: seq<Item<K, V>>, i: nat, b: uint8)
    requires i < |s| && s[i].bucket == b
    ensures Outside(DropAt(s, i), b) == Outside(s, b)
  {
    if i == 0 {
      assert DropAt(s, 0) == s[1..];
    } else {
      OutsideDrop(s[1..], i - 1, b);
      assert DropAt(s, i)[1..] == DropAt(s[1..], i - 1);
    }
  }

  lemma {:induction false} OutsideNone<K, V>(s: seq<Item<K, V>>, b: uint8)
    requires forall i :: 0 <= i < |s| ==> s[i].bucket != b
    ensures Outside(s, b) == s
  {
    if s != [] {
      assert s[0].bucket != b;
      OutsideNone(s[1..], b);
    }
  }

  // ----- what the operations do, told without them

  ghost predicate Before<T>(s: seq<T>, x: T, y: T) {
    exists i, j :: 0 <= i < j < |s| && s[i] == x && s[j] == y
  }

  ghost predicate InOrderOf<T>(s: seq<T>, t: seq<T>) {
    forall i, j :: 0 <= i < j < |t| ==> Before(s, t[i], t[j])
  }

  /** t is s without the items in bucket b, in the order of s. */
  ghost predicate Swept<K, V>(s: seq<Item<K, V>>, b: uint8, t: seq<Item<K, V>>) {
    && (forall x <- t :: x in s && x.bucket != b)
    && (forall x <- s :: x.bucket != b ==> x in t)
    && InOrderOf(s, t)
  }

  lemma BeforeCons<T>(x: T, s: seq<T>, a: T, b: T)
    ensures Before(s, a, b) ==> Before([x] + s, a, b)
    ensures b in s ==> Before([x] + s, x, b)
  {
    var all := [x] + s;
    if Before(s, a, b) {
      var i, j :| 0 <= i < j < |s| && s[i] == a && s[j] == b;
      assert all[i + 1] == a && all[j + 1] == b;
    }
    if b in s {
      var j :| 0 <= j < |s| && s[j] == b;
      assert all[0] == x && all[j + 1] == b;
    }
  }

  lemma InOrderCons<T>(x: T, s: seq<T>, t: seq<T>, more: bool)
    requires InOrderOf(s, t) && forall y <- t :: y in s
    ensures InOrderOf([x] + s, if more then [x] + t else t)
  {
    hide Before;
    var chosen := if more then [x] + t else t;
    forall i, j | 0 <= i < j < |chosen|
      ensures Before([x] + s, chosen[i], chosen[j])
    {
      BeforeCons(x, s, chosen[i], chosen[j]);
      assert chosen[j] in t;
      assert more && i > 0 ==> Before(s, t[i - 1], t[j - 1]);
    }
  }

  lemma SweptCons<K, V>(x: Item<K, V>, s: seq<Item<K, V>>, b: uint8, t: seq<Item<K, V>>)
    requires Swept(s, b, t)
    ensures Swept([x] + s, b, if x.bucket != b then [x] + t else t)
  {
    hide InOrderOf;
    InOrderCons(x, s, t, x.bucket != b);
  }

  lemma SweptNone<K, V>(b: uint8)
    ensures Swept<K, V>([], b, [])
  {
  }

  lemma {:induction false} OutsideSwept<K, V>(s: seq<Item<K, V>>, b: uint8)
    ensures Swept(s, b, Outside(s, b))
  {
    hide Swept;
    if s == [] {
      SweptNone<K, V>(b);
    } else {
      OutsideSwept(s[1..], b);
      SweptCons(s[0], s[1..], b, Outside(s[1..], b));
      assert s == [s[0]] + s[1..];
    }
  }

  /** A sweep takes exactly the bucket, and the cursor moves on. */
  lemma SweepTakes<K, V>(c: Cache<K, V>, b: uint8)
    requires c.cursor < NUM_BUCKETS
    ensures
      var r := Sweep(c, b);
      && Swept(c.recency, b, r.recency)
      && r == c.(recency := r.recency, cursor := if c.cursor == 99 then 0 else c.cursor + 1)
  {
    OutsideSwept(c.recency, b);
  }

  /** t is s without the item of the key. */
  ghost predicate Lacks<K, V>(s: seq<Item<K, V>>, key: K, t: seq<Item<K, V>>) {
    && (forall i :: 0 <= i < |s| && s[i].key == key ==> t == s[..i] + s[i + 1..])
    && (!Has(s, key) ==> t == s)
  }

  lemma WithoutLacks<K, V>(s: seq<Item<K, V>>, key: K)
    requires Distinct(s)
    ensures Lacks(s, key, Without(s, key))
  {
    hide Without;
    forall i | 0 <= i < |s| && s[i].key == key
      ensures Without(s, key) == s[..i] + s[i + 1..]
    {
      WithoutAt(s, i);
    }
    if !Has(s, key) {
      WithoutAbsent(s, key);
    }
  }

  /** A live item is found, and is first from then on; an expired or missing one is not, and nothing moves. */
  ghost predicate Found<K, V>(s: seq<Item<K, V>>, key: K, now: Time, t: seq<Item<K, V>>, value: Option<V>) {
    && (forall i :: 0 <= i < |s| && s[i].key == key && now <= s[i].expiresAt ==>
          value == Some(s[i].value) && t == [s[i]] + s[..i] + s[i + 1..])
    && ((forall i :: 0 <= i < |s| ==> s[i].key != key || s[i].expiresAt < now) ==> value == None && t == s)
  }

  lemma GetFinds<K, V>(c: Cache<K, V>, key: K, now: Time)
    requires Distinct(c.recency)
    ensures
      var (r, value) := Get(c, key, now);
      Found(c.recency, key, now, r.recency, value) && r == c.(recency := r.recency)
  {
    hide Without;
    hide Lookup;
    hide Distinct;
    var s := c.recency;
    forall i | 0 <= i < |s| && s[i].key == key
      ensures Lookup(s, key) == Some(s[i]) && [s[i]] + Without(s, key) == [s[i]] + s[..i] + s[i + 1..]
    {
      LookupAt(s, i);
      WithoutAt(s, i);
      assert [s[i]] + (s[..i] + s[i + 1..]) == [s[i]] + s[..i] + s[i + 1..];
    }
    if Lookup(s, key).Some? {
      var i :| 0 <= i < |s| && s[i] == Lookup(s, key).value;
    }
  }

  /** The item is first, with its lease from now on, in the bucket that is swept last; the item that had the key
      is gone, or, if none had and the cache was full, the oldest. */
  ghost predicate Added<K, V>(c: Cache<K, V>, key: K, value: V, now: Time, t: seq<Item<K, V>>) {
    && t != [] && t[0] == Item(key, value, now + c.ttl, if c.cursor == 0 then 99 else c.cursor - 1)
    && if Has(c.recency, key) then Lacks(c.recency, key, t[1..])
       else t[1..] == if 0 < c.size == |c.recency| then c.recency[..|c.recency| - 1] else c.recency
  }

  lemma AddAdds<K, V>(c: Cache<K, V>, key: K, value: V, now: Time)
    requires WellFormed(c)
    ensures Added(c, key, value, now, Add(c, key, value, now).recency)
    ensures Add(c, key, value, now).size == c.size && Add(c, key, value, now).cursor == c.cursor
    ensures
      var b, newest := (if c.cursor == 0 then 99 else c.cursor - 1) as int, Add(c, key, value, now).newest;
      newest == c.newest[b := if c.newest[b] < now + c.ttl then now + c.ttl else c.newest[b]]
  {
    hide Without;
    hide Distinct;
    var s := c.recency;
    var it := Item(key, value, now + c.ttl, AddBucket(c.cursor));
    assert ([it] + Without(s, key))[1..] == Without(s, key);
    WithoutLacks(s, key);
    if Has(s, key) {
      var i :| 0 <= i < |s| && s[i].key == key;
      assert |Without(s, key)| == |s| - 1;
    } else {
      assert 0 < c.size == |s| ==> ([it] + s)[..c.size] == [it] + s[..|s| - 1];
    }
  }

  /** A removed key is gone, and nothing else. */
  lemma RemoveTakes<K, V>(c: Cache<K, V>, key: K)
    requires Distinct(c.recency)
    ensures var r := Remove(c, key); Lacks(c.recency, key, r.recency) && r == c.(recency := r.recency)
  {
    WithoutLacks(c.recency, key);
  }

  /** The oldest items go until the new size is kept to; purging leaves nothing, at any time. */
  lemma ShrinkTakes<K, V>(c: Cache<K, V>, size: int)
    ensures RemoveOldest(c) == if |c.recency| == 0 then c else c.(recency := c.recency[..|c.recency| - 1])
    ensures |c.recency| <= size ==> Resize(c, size) == c.(size := size)
    ensures 0 < size < |c.recency| ==> Resize(c, size) == c.(size := size, recency := c.recency[..size])
    ensures size <= 0 ==> Resize(c, size) == c.(size := 0)
    ensures Purge(c) == c.(recency := [])
  {
  }

  ghost predicate LiveIn<K, V>(s: seq<Item<K, V>>, now: Time, k: K) {
    exists i :: 0 <= i < |s| && s[i].key == k && now <= s[i].expiresAt
  }

  ghost predicate KeyBefore<K, V>(s: seq<Item<K, V>>, a: K, b: K) {
    exists i, j :: 0 <= i < j < |s| && s[i].key == a && s[j].key == b
  }

  /** The keys whose items have not expired, each once, from the back of the list to its front. */
  ghost predicate Listed<K, V>(s: seq<Item<K, V>>, now: Time, keys: seq<K>) {
    && (forall k <- keys :: LiveIn(s, now, k))
    && (forall x <- s :: now <= x.expiresAt ==> x.key in keys)
    && BackToFront(s, keys)
  }

  ghost predicate BackToFront<K, V>(s: seq<Item<K, V>>, keys: seq<K>) {
    forall i, j :: 0 <= i < j < |keys| ==> KeyBefore(s, keys[j], keys[i])
  }

  lemma LiveCons<K, V>(x: Item<K, V>, s: seq<Item<K, V>>, now: Time, k: K)
    ensures LiveIn([x] + s, now, k) <==> LiveIn(s, now, k) || (x.key == k && now <= x.expiresAt)
  {
    var all := [x] + s;
    if LiveIn(s, now, k) {
      var i :| 0 <= i < |s| && s[i].key == k && now <= s[i].expiresAt;
      assert all[i + 1] == s[i];
    }
    assert all[0] == x && forall i :: 0 < i < |all| ==> all[i] == s[i - 1];
  }

  lemma KeyBeforeCons<K, V>(x: Item<K, V>, s: seq<Item<K, V>>, now: Time, a: K, b: K)
    ensures KeyBefore(s, a, b) ==> KeyBefore([x] + s, a, b)
    ensures LiveIn(s, now, b) ==> KeyBefore([x] + s, x.key, b)
  {
    var all := [x] + s;
    if KeyBefore(s, a, b) {
      var i, j :| 0 <= i < j < |s| && s[i].key == a && s[j].key == b;
      assert all[i + 1] == s[i] && all[j + 1] == s[j];
    }
    if LiveIn(s, now, b) {
      var j :| 0 <= j < |s| && s[j].key == b && now <= s[j].expiresAt;
      assert all[0] == x && all[j + 1] == s[j];
    }
  }

  lemma ListedCons<K, V>(x: Item<K, V>, s: seq<Item<K, V>>, now: Time, keys: seq<K>)
    requires Listed(s, now, keys)
    ensures Listed([x] + s, now, keys + if now > x.expiresAt then [] else [x.key])
  {
    hide LiveIn;
    hide KeyBefore;
    var more := keys + if now > x.expiresAt then [] else [x.key];
    forall k | k in more
      ensures LiveIn([x] + s, now, k)
    {
      LiveCons(x, s, now, k);
    }
    forall i, j | 0 <= i < j < |more|
      ensures KeyBefore([x] + s, more[j], more[i])
    {
      assert keys[i] in keys;
      KeyBeforeCons(x, s, now, more[j], more[i]);
    }
  }

  lemma LiveKeysNone<K, V>(now: Time)
    ensures LiveKeys<K, V>([], now) == [] && Listed<K, V>([], now, [])
  {
  }

  lemma LiveKeysCons<K, V>(x: Item<K, V>, s: seq<Item<K, V>>, now: Time)
    ensures LiveKeys([x] + s, now) == LiveKeys(s, now) + if now > x.expiresAt then [] else [x.key]
  {
  }

  lemma {:induction false} LiveKeysListed<K, V>(s: seq<Item<K, V>>, now: Time)
    ensures Listed(s, now, LiveKeys(s, now))
  {
    hide Listed;
    hide LiveKeys;
    if s == [] {
      LiveKeysNone<K, V>(now);
    } else {
      LiveKeysListed(s[1..], now);
      ListedCons(s[0], s[1..], now, LiveKeys(s[1..], now));
      LiveKeysCons(s[0], s[1..], now);
      assert s == [s[0]] + s[1..];
    }
  }
}
