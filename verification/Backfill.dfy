/** Setting the generated keys of inserted rows from the one key that the database reports: the first of
    them, or on some databases the last. */
module Backfill {
  /** How many rows were inserted without a key. */
  function Unset(keys: seq<int>): (n: nat)
    ensures n <= |keys|
  {
    if keys == [] then 0 else Unset(keys[..|keys| - 1]) + if keys[|keys| - 1] == 0 then 1 else 0
  }

  /** The key that is next when the first n rows have theirs. */
  function NextKey(keys: seq<int>, n: nat, first: int, increment: int): int
    requires n <= |keys|
  {
    first + Unset(keys[..n]) * increment
  }

  /** The keys that the database has given: from `first` on, in row order, to the rows without one. */
  function Generated(keys: seq<int>, first: int, increment: int): (r: seq<int>)
    ensures |r| == |keys|
  {
    seq(|keys|, i requires 0 <= i < |keys| => if keys[i] == 0 then NextKey(keys, i, first, increment) else keys[i])
  }

  lemma UnsetAdd(keys: seq<int>, n: nat)
    requires n < |keys|
    ensures Unset(keys[..n + 1]) == Unset(keys[..n]) + if keys[n] == 0 then 1 else 0
  {
    assert keys[..n + 1][..n] == keys[..n];
  }

  lemma NextKeyStep(keys: seq<int>, n: nat, first: int, increment: int)
    requires n < |keys|
    ensures NextKey(keys, n + 1, first, increment)
            == NextKey(keys, n, first, increment) + if keys[n] == 0 then increment else 0
    ensures NextKey(keys, 0, first, increment) == first
  {
    UnsetAdd(keys, n);
    OneMore(Unset(keys[..n]), increment);
  }

  lemma OneMore(n: nat, increment: int)
    ensures (n + 1) * increment == n * increment + increment
  {
  }

  /** Where numbering has to begin for the last unset key to get `last`. */
  function FirstFor(keys: seq<int>, last: int, increment: int): int { last - (Unset(keys) - 1) * increment }

  lemma NextIsLast(keys: seq<int>, last: int, increment: int)
    ensures NextKey(keys, |keys|, FirstFor(keys, last, increment), increment) == last + increment
  {
    assert keys[..|keys|] == keys;
    assert Unset(keys) * increment - (Unset(keys) - 1) * increment == increment;
  }

  /** r is keys with the unset ones numbered: keys that are set stay, the first that is unset gets `first`, and each
      gets the one before it plus the increment. */
  ghost predicate Numbered(keys: seq<int>, r: seq<int>, first: int, increment: int) {
    && |r| == |keys|
    && (forall i :: 0 <= i < |keys| && keys[i] != 0 ==> r[i] == keys[i])
    && (forall i :: 0 <= i < |keys| && keys[i] == 0 && AllSet(keys, 0, i) ==> r[i] == first)
    && (forall i, j :: 0 <= i < j < |keys| && keys[i] == 0 && keys[j] == 0 && AllSet(keys, i + 1, j) ==>
          r[j] == r[i] + increment)
  }

  ghost predicate AllSet(keys: seq<int>, lo: nat, hi: nat)
    requires hi <= |keys|
  {
    forall k :: lo <= k < hi ==> keys[k] != 0
  }

  lemma {:induction false} NextKeyOver(keys: seq<int>, lo: nat, hi: nat, first: int, increment: int)
    requires lo <= hi <= |keys| && AllSet(keys, lo, hi)
    ensures NextKey(keys, hi, first, increment) == NextKey(keys, lo, first, increment)
    decreases hi
  {
    hide NextKey;
    if lo < hi {
      NextKeyStep(keys, hi - 1, first, increment);
      NextKeyOver(keys, lo, hi - 1, first, increment);
    }
  }

  lemma GeneratedNumbered(keys: seq<int>, first: int, increment: int)
    ensures Numbered(keys, Generated(keys, first, increment), first, increment)
  {
    hide NextKey;
    var r := Generated(keys, first, increment);
    forall i | 0 <= i < |keys| && keys[i] == 0 && AllSet(keys, 0, i)
      ensures r[i] == first
    {
      NextKeyStep(keys, i, first, increment);
      NextKeyOver(keys, 0, i, first, increment);
    }
    forall i, j | 0 <= i < j < |keys| && keys[i] == 0 && keys[j] == 0 && AllSet(keys, i + 1, j)
      ensures r[j] == r[i] + increment
    {
      NextKeyStep(keys, i, first, increment);
      NextKeyOver(keys, i + 1, j, first, increment);
    }
  }

  lemma LastNumbered(keys: seq<int>, last: int, increment: int, i: nat)
    requires i < |keys| && keys[i] == 0 && AllSet(keys, i + 1, |keys|)
    ensures Generated(keys, FirstFor(keys, last, increment), increment)[i] == last
  {
    hide NextKey;
    var first := FirstFor(keys, last, increment);
    NextIsLast(keys, last, increment);
    NextKeyStep(keys, i, first, increment);
    NextKeyOver(keys, i + 1, |keys|, first, increment);
  }

  lemma NothingNumbered(keys: seq<int>, first: int, increment: int)
    ensures NextKey(keys, 0, first, increment) == first
  {
  }

  /** The database reports the first key: forward over the rows. */
  method SetForward(keys: array<int>, insertID: int, increment: int)
    modifies keys
    ensures keys[..] == Generated(old(keys[..]), insertID, increment)
    ensures Numbered(old(keys[..]), keys[..], insertID, increment)
  {
    hide Numbered;
    hide NextKey;
    ghost var was := keys[..];
    GeneratedNumbered(was, insertID, increment);
    NothingNumbered(was, insertID, increment);
    var id := insertID;
    var i := 0;
    while i < keys.Length
      invariant i <= keys.Length
      invariant id == NextKey(was, i, insertID, increment)
      invariant forall k :: 0 <= k < i ==> keys[k] == Generated(was, insertID, increment)[k]
      invariant forall k :: i <= k < keys.Length ==> keys[k] == was[k]
    {
      NextKeyStep(was, i, insertID, increment);
      if keys[i] == 0 {
        keys[i] := id;
        id := id + increment;
      }
      i := i + 1;
    }
    assert |Generated(was, insertID, increment)| == |was|;
  }

  /** It reports the last key: backward. The last unset row gets that one, and the others, counted back from it, the
      keys that the database gave them. */
  method SetReversed(keys: array<int>, insertID: int, increment: int)
    modifies keys
    ensures keys[..] == Generated(old(keys[..]), FirstFor(old(keys[..]), insertID, increment), increment)
    ensures Numbered(old(keys[..]), keys[..], FirstFor(old(keys[..]), insertID, increment), increment)
    ensures forall i :: 0 <= i < keys.Length && old(keys[..])[i] == 0 && AllSet(old(keys[..]), i + 1, keys.Length) ==>
              keys[i] == insertID
  {
    hide Numbered;
    hide NextKey;
    hide FirstFor;
    ghost var was := keys[..];
    ghost var first := FirstFor(was, insertID, increment);
    GeneratedNumbered(was, first, increment);
    NextIsLast(was, insertID, increment);
    var id := insertID;
    var i := keys.Length;
    while i > 0
      invariant 0 <= i <= keys.Length
      invariant id + increment == NextKey(was, i, first, increment)
      invariant forall k :: i <= k < keys.Length ==> keys[k] == Generated(was, first, increment)[k]
      invariant forall k :: 0 <= k < i ==> keys[k] == was[k]
    {
      i := i - 1;
      NextKeyStep(was, i, first, increment);
      if keys[i] == 0 {
        keys[i] := id;
        id := id - increment;
      }
    }
    assert |Generated(was, first, increment)| == |was|;
    forall k | 0 <= k < keys.Length && was[k] == 0 && AllSet(was, k + 1, keys.Length)
      ensures keys[k] == insertID
    {
      LastNumbered(was, insertID, increment, k);
    }
  }
}
