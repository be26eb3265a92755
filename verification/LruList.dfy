/** The cache's doubly linked ring: entries, a sentinel `root`, and a length.
    `nodes` is the list the ring stands for, front (most recent) first. */
module LruRing {
  import opened Recency

  class Entry<K, V> {
    var next: Entry?<K, V>
    var prev: Entry?<K, V>
    var list: LruList?<K, V>
    var key: K
    var value: V
    var expiresAt: Time
    var expireBucket: uint8

    constructor (key: K, value: V, expiresAt: Time)
      ensures this.key == key && this.value == value && this.expiresAt == expiresAt
      ensures next == null && prev == null && list == null && expireBucket == 0
    {
      next, prev, list := null, null, null;
      this.key, this.value, this.expiresAt, expireBucket := key, value, expiresAt, 0;
    }

    /** The previous list element, or null at the front. */
    method PrevEntry(l: LruList<K, V>, ghost i: nat) returns (p: Entry?<K, V>)
      requires l.Valid() && i < |l.nodes| && l.nodes[i] == this
      ensures p == if i == 0 then null else l.nodes[i - 1]
    {
      assert l.Linked(i) && l.At(i + 1) == this;
      p := if list != null && prev != list.root then prev else null;
    }
  }

  class LruList<K, V> {
    const root: Entry<K, V>
    var len: int
    ghost var nodes: seq<Entry<K, V>>

    /** The i-th member of the ring: the sentinel stands at both ends of the nodes. */
    ghost function At(i: int): Entry<K, V>
      requires 0 <= i <= |nodes| + 1
      reads this
    {
      if i == 0 || i == |nodes| + 1 then root else nodes[i - 1]
    }

    ghost predicate Linked(i: int)
      requires 0 <= i <= |nodes|
      reads this, root`next, root`prev, nodes`next, nodes`prev
    {
      && At(i).next == At(i + 1)
      && At(i + 1).prev == At(i)
    }

    ghost predicate Valid()
      reads this, root`next, root`prev, nodes`next, nodes`prev, nodes`list
    {
      && len == |nodes|
      && root !in nodes
      && (forall i, j :: 0 <= i < j < |nodes| ==> nodes[i] != nodes[j])
      && (forall i :: 0 <= i < |nodes| ==> nodes[i].list == this)
      && (forall i :: 0 <= i <= |nodes| ==> Linked(i))
    }

    lemma Length()
      requires Valid()
      ensures len == |nodes|
    {
    }

    lemma Owned(i: nat)
      requires Valid() && i < |nodes|
      ensures nodes[i].list == this
    {
    }

    constructor (sentinel: Entry<K, V>)
      modifies sentinel`next, sentinel`prev
      ensures Valid() && nodes == [] && root == sentinel
    {
      root := sentinel;
      len, nodes := 0, [];
      new;
      Init();
    }

    method Init()
      modifies this`len, this`nodes, root`next, root`prev
      ensures Valid() && nodes == []
    {
      root.next := root;
      root.prev := root;
      len := 0;
      nodes := [];
      assert Linked(0);
    }

    method Back() returns (e: Entry?<K, V>)
      requires Valid()
      ensures e == if nodes == [] then null else nodes[|nodes| - 1]
    {
      if len == 0 {
        return null;
      }
      assert Linked(|nodes|);
      e := root.prev;
    }

    /** Inserts e after `at`, the i-th member of the ring. */
    method Insert(e: Entry<K, V>, at: Entry<K, V>, ghost i: nat)
      requires Valid()
      requires e != root && e !in nodes
      requires i <= |nodes| && at == At(i)
      modifies this`len, this`nodes, e`next, e`prev, e`list
      modifies root`next, root`prev, nodes`next, nodes`prev
      ensures Valid()
      ensures nodes == old(nodes)[..i] + [e] + old(nodes)[i..]
      ensures len == old(len) + 1
    {
      assert Linked(i);
      e.prev := at;
      e.next := at.next;
      e.prev.next := e;
      e.next.prev := e;
      e.list := this;
      len := len + 1;
      nodes := nodes[..i] + [e] + nodes[i..];
      assert forall k :: 0 <= k <= |nodes| + 1 ==>
          At(k) == if k <= i then old(At(k)) else if k == i + 1 then e else old(At(k - 1));
      forall k | 0 <= k <= |nodes|
        ensures Linked(k)
      {
        assert k < i ==> old(Linked(k));
        assert k > i + 1 ==> old(Linked(k - 1));
      }
    }

    /** Unlinks e, the i-th node. */
    method Remove(e: Entry<K, V>, ghost i: nat)
      requires Valid()
      requires i < |nodes| && nodes[i] == e
      modifies this`len, this`nodes, e`list
      modifies root`next, root`prev, nodes`next, nodes`prev
      ensures Valid()
      ensures nodes == DropAt(old(nodes), i)
      ensures len == old(len) - 1
      ensures e.list == null && e.next == null && e.prev == null
    {
      hide DropAt;
      assert Linked(i) && Linked(i + 1);
      e.prev.next := e.next;
      e.next.prev := e.prev;
      e.next := null;
      e.prev := null;
      e.list := null;
      len := len - 1;
      DropAtIndex(nodes, i);
      nodes := DropAt(nodes, i);
      assert forall k :: 0 <= k <= |nodes| + 1 ==> At(k) == if k <= i then old(At(k)) else old(At(k + 1));
      forall k | 0 <= k <= |nodes|
        ensures Linked(k)
      {
        assert k < i ==> old(Linked(k));
        assert k > i ==> old(Linked(k + 1));
      }
    }

    /** Moves e, the i-th node, right behind the sentinel. */
    method Move(e: Entry<K, V>, at: Entry<K, V>, ghost i: nat)
      requires Valid()
      requires i < |nodes| && nodes[i] == e && at == root
      requires i > 0
      modifies this`nodes, root`next, root`prev, nodes`next, nodes`prev
      ensures Valid()
      ensures nodes == [e] + DropAt(old(nodes), i)
    {
      if e == at {
        return;
      }
      assert Linked(i) && Linked(i + 1);
      e.prev.next := e.next;
      e.next.prev := e.prev;
      DropAtIndex(nodes, i);
      nodes := DropAt(nodes, i);
      assert forall k :: 0 <= k <= |nodes| + 1 ==> At(k) == if k <= i then old(At(k)) else old(At(k + 1));
      forall k | 0 <= k <= |nodes|
        ensures Linked(k)
      {
        assert k < i ==> old(Linked(k));
        assert k > i ==> old(Linked(k + 1));
      }
      Relink(e, at);
      assert nodes == [e] + DropAt(old(nodes), i);
    }

    /** The second half of Move: the already unlinked e is linked in behind the sentinel. */
    method Relink(e: Entry<K, V>, at: Entry<K, V>)
      requires at == root && e != root && e !in nodes && e.list == this
      requires len == |nodes| + 1 && root !in nodes
      requires forall i, j :: 0 <= i < j < |nodes| ==> nodes[i] != nodes[j]
      requires forall i :: 0 <= i < |nodes| ==> nodes[i].list == this
      requires forall i :: 0 <= i <= |nodes| ==> Linked(i)
      modifies this`nodes, root`next, root`prev, nodes`next, nodes`prev, e`next, e`prev
      ensures Valid()
      ensures nodes == [e] + old(nodes)
    {
      assert Linked(0);
      e.prev := at;
      e.next := at.next;
      e.prev.next := e;
      e.next.prev := e;
      nodes := [e] + nodes;
      assert forall k :: 0 <= k <= |nodes| + 1 ==>
          At(k) == if k == 0 then root else if k == 1 then e else old(At(k - 1));
      forall k | 0 <= k <= |nodes|
        ensures Linked(k)
      {
        assert k > 1 ==> old(Linked(k - 1));
      }
    }

    /** Moves e to the front; a stranger to this list leaves it as it is. */
    method MoveToFront(e: Entry<K, V>, ghost i: nat)
      requires Valid()
      requires e.list == this ==> i < |nodes| && nodes[i] == e
      modifies this`nodes, root`next, root`prev, nodes`next, nodes`prev
      ensures Valid()
      ensures old(e.list) != this ==> nodes == old(nodes)
      ensures old(e.list) == this ==> nodes == [e] + DropAt(old(nodes), i)
    {
      if e.list != this {
        return;
      }
      assert Linked(0) && Linked(i);
      if root.next == e {
        return;
      }
      Move(e, root, i);
    }

    method PushFrontExpirable(key: K, value: V, expiresAt: Time) returns (e: Entry<K, V>)
      requires Valid()
      modifies this`len, this`nodes, root`next, root`prev, nodes`next, nodes`prev
      ensures Valid() && fresh(e)
      ensures nodes == [e] + old(nodes) && len == old(len) + 1
      ensures e.key == key && e.value == value && e.expiresAt == expiresAt
    {
      e := new Entry(key, value, expiresAt);
      Insert(e, root, 0);
    }
  }
}
