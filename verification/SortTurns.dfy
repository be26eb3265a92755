/** Where a single callback goes when its turn comes, and lists with callbacks that are to run before everyone. */
module SortTurns {
  import opened Options
  import opened SortCallbacks

  // ----- one turn

  /** The i-th callback is not placed yet and follows nobody by name. */
  ghost predicate Free(st: State, i: nat) {
    i < |st.cs| && st.cs[i].name !in st.sorted && !st.cs[i].after.To?
  }

  /** It comes first if it is to run before everyone, and something is placed; last, without a `before`; else
      right ahead of the one it is to run before, if that is placed. */
  lemma TurnPlaces(st: State, i: nat, fuel: nat)
    requires Free(st, i)
    ensures st.cs[i].before.Everyone? && st.sorted != [] ==>
              SortOne(st, i, fuel) == Sorted(State(st.cs, [st.cs[i].name] + st.sorted))
    ensures st.cs[i].before.Unset? || (st.cs[i].before.Everyone? && st.sorted == []) ==>
              SortOne(st, i, fuel) == Sorted(State(st.cs, st.sorted + [st.cs[i].name]))
  {
  }

  lemma TurnBeforeOne(st: State, i: nat, fuel: nat, a: seq<Name>, b: Name, z: seq<Name>)
    requires Free(st, i) && st.cs[i].before == To(b) && st.sorted == a + [b] + z && b !in z
    ensures SortOne(st, i, fuel) == Sorted(State(st.cs, a + [st.cs[i].name] + ([b] + z)))
  {
    var at := RIndex(st.sorted, b);
    assert st.sorted[|a|] == b && forall k :: |a| < k < |st.sorted| ==> st.sorted[k] == z[k - |a| - 1];
    assert at == |a|;
    assert st.sorted[..at] == a && st.sorted[at..] == [b] + z;
  }

  /** A callback that is placed is in conflict if it stands behind the one it is to run before, or ahead of the one
      it is to follow; otherwise it stays where it is. */
  lemma TurnChecks(st: State, i: nat, fuel: nat)
    requires i < |st.cs| && Distinct(st.sorted) && st.cs[i].name in st.sorted
    requires st.cs[i].before.To? ==> st.cs[i].before.name in st.sorted
    requires st.cs[i].after.To? ==> st.cs[i].after.name in st.sorted
    ensures
      var c := st.cs[i];
      var bad := (c.before.To? && Ahead(st.sorted, c.before.name, c.name))
                 || (c.after.To? && Ahead(st.sorted, c.name, c.after.name));
      SortOne(st, i, fuel) == if bad then Conflict else Sorted(st)
  {
    hide BeforeStep;
    hide Ahead;
    hide Distinct;
    var c := st.cs[i];
    BeforeChecks(st, i);
    if c.after.To? {
      AheadIsIndex(st.sorted, c.name, c.after.name);
    }
  }

  lemma BeforeChecks(st: State, i: nat)
    requires i < |st.cs| && Distinct(st.sorted) && st.cs[i].name in st.sorted
    requires st.cs[i].before.To? ==> st.cs[i].before.name in st.sorted
    ensures
      var c := st.cs[i];
      BeforeStep(st, i) == if c.before.To? && Ahead(st.sorted, c.before.name, c.name) then None else Some(st)
  {
    hide Ahead;
    hide Distinct;
    if st.cs[i].before.To? {
      AheadIsIndex(st.sorted, st.cs[i].before.name, st.cs[i].name);
    }
  }

  /** A callback that was placed ahead of its turn to follow another is looked at again when that one is placed. */
  lemma LooksAgain(s: State, i: nat, idx: nat, fuel: nat)
    requires i < |s.cs| && idx < |s.cs| && SortOne(TellTarget(s, i, idx), idx, fuel).Sorted?
    requires
      var t := SortOne(TellTarget(s, i, idx), idx, fuel).st;
      && Distinct(t.sorted) && t.cs[i].name in t.sorted
      && t.cs[i].after.To? && Ahead(t.sorted, t.cs[i].name, t.cs[i].after.name)
      && (t.cs[i].before.To? ==> t.cs[i].before.name in t.sorted)
    ensures SortTargetFirst(s, i, idx, fuel) == Conflict
  {
    hide SortOne;
    TurnChecks(SortOne(TellTarget(s, i, idx), idx, fuel).st, i, fuel);
  }

  // ----- before everyone

  /** Names are distinct, and no constraint names anyone. */
  ghost predicate NamesNobody(cs: seq<Callback>) {
    && (forall i, j :: 0 <= i < j < |cs| ==> cs[i].name != cs[j].name)
    && (forall c <- cs :: !c.before.To? && !c.after.To?)
  }

  /** Whether the i-th callback gets to the front: the first one finds nothing placed. */
  predicate ToFront(cs: seq<Callback>, i: nat)
    requires i < |cs|
  {
    i > 0 && cs[i].before.Everyone?
  }

  /** How any two of the first n callbacks stand to one another. */
  ghost predicate Ordered(cs: seq<Callback>, n: nat, order: seq<Name>)
    requires n <= |cs|
  {
    && (forall x <- order :: exists k :: 0 <= k < n && cs[k].name == x)
    && (forall k :: 0 <= k < n ==> cs[k].name in order)
    && forall i, j :: 0 <= i < j < n ==>
         if ToFront(cs, j) then Ahead(order, cs[j].name, cs[i].name) else Ahead(order, cs[i].name, cs[j].name)
  }

  lemma AheadCons(x: Name, order: seq<Name>, a: Name, b: Name)
    ensures Ahead(order, a, b) ==> Ahead([x] + order, a, b) && Ahead(order + [x], a, b)
    ensures b in order ==> Ahead([x] + order, x, b) && Ahead(order + [x], b, x)
  {
    var front, back := [x] + order, order + [x];
    if Ahead(order, a, b) {
      var i, j :| 0 <= i < j < |order| && order[i] == a && order[j] == b;
      assert front[i + 1] == a && front[j + 1] == b && back[i] == a && back[j] == b;
    }
    if b in order {
      var j :| 0 <= j < |order| && order[j] == b;
      assert front[0] == x && front[j + 1] == b && back[j] == b && back[|order|] == x;
    }
  }

  lemma OrderedNext(cs: seq<Callback>, n: nat, order: seq<Name>)
    requires n < |cs| && Ordered(cs, n, order)
    ensures Ordered(cs, n + 1, if ToFront(cs, n) then [cs[n].name] + order else order + [cs[n].name])
  {
    var next := if ToFront(cs, n) then [cs[n].name] + order else order + [cs[n].name];
    assert cs[n].name in next;
    forall i, j | 0 <= i < j < n + 1
      ensures
        if ToFront(cs, j) then Ahead(next, cs[j].name, cs[i].name) else Ahead(next, cs[i].name, cs[j].name)
    {
      AheadCons(cs[n].name, order, cs[i].name, cs[j].name);
      AheadCons(cs[n].name, order, cs[j].name, cs[i].name);
    }
  }

  lemma {:induction false} SortsFree(cs: seq<Callback>, n: nat, order: seq<Name>, fuel: nat)
    requires NamesNobody(cs) && n <= |cs| && Ordered(cs, n, order) && (order == [] <==> n == 0)
    ensures
      var r := SortFrom(State(cs, order), n, fuel);
      r.Sorted? && r.st.cs == cs && Ordered(cs, |cs|, r.st.sorted)
    decreases |cs| - n
  {
    hide SortOne;
    if n < |cs| {
      var st := State(cs, order);
      assert cs[n] in cs;
      TurnPlaces(st, n, fuel);
      OrderedNext(cs, n, order);
      SortsFree(cs, n + 1, if ToFront(cs, n) then [cs[n].name] + order else order + [cs[n].name], fuel);
    }
  }

  /** Where no constraint names anyone sorting succeeds. Every callback that is to run before everyone, but for
      the first of the list, stands ahead of all that are registered ahead of it and of all others that are not
      to; the rest keep their order. */
  lemma BeforeEveryone(cs: seq<Callback>, fuel: nat)
    requires NamesNobody(cs)
    ensures SortAll(cs, fuel).Sorted? && SortAll(cs, fuel).st.cs == cs
    ensures
      var order := SortAll(cs, fuel).st.sorted;
      forall i, j :: 0 <= i < j < |cs| ==>
        if ToFront(cs, j) then Ahead(order, cs[j].name, cs[i].name) else Ahead(order, cs[i].name, cs[j].name)
  {
    SortsFree(cs, 0, [], fuel);
  }

  // ----- a `before` that is set stays

  /** What was set in the first list is the same in the second, and the rest is unset or names somebody. */
  ghost predicate BeforesKept(cs: seq<Callback>, now: seq<Callback>) {
    |now| == |cs| && forall j :: 0 <= j < |cs| ==> cs[j].before == Unset || now[j].before == cs[j].before
  }

  lemma KeptTwice(a: seq<Callback>, b: seq<Callback>, c: seq<Callback>)
    requires BeforesKept(a, b) && BeforesKept(b, c)
    ensures BeforesKept(a, c)
  {
  }

  lemma TellKept(s: State, i: nat, idx: nat)
    requires i < |s.cs| && idx < |s.cs|
    ensures BeforesKept(s.cs, TellTarget(s, i, idx).cs)
    ensures s.cs[idx].before == Unset ==> TellTarget(s, i, idx).cs[idx].before == To(s.cs[i].name)
  {
  }

  lemma {:induction false} SortOneKeeps(st: State, i: nat, fuel: nat)
    requires i < |st.cs| && SortOne(st, i, fuel).Sorted?
    ensures BeforesKept(st.cs, SortOne(st, i, fuel).st.cs)
    decreases fuel, 0
  {
    hide BeforeStep;
    BeforeStepKeeps(st, i);
    var s := BeforeStep(st, i).value;
    if s.cs[i].after.To? && s.cs[i].after.name !in s.sorted {
      var idx := RIndex(Names(s.cs), s.cs[i].after.name);
      if idx != -1 {
        TargetIsTold(s, i, idx, fuel - 1);
        KeptTwice(st.cs, s.cs, SortOne(st, i, fuel).st.cs);
      }
    }
  }

  lemma BeforeStepKeeps(st: State, i: nat)
    requires i < |st.cs| && BeforeStep(st, i).Some?
    ensures BeforesKept(st.cs, BeforeStep(st, i).value.cs)
  {
  }

  /** A callback that is followed, and has no `before`, is told by the first that follows it, and keeps that. */
  lemma {:induction false} TargetIsTold(s: State, i: nat, idx: nat, fuel: nat)
    requires i < |s.cs| && idx < |s.cs| && SortTargetFirst(s, i, idx, fuel).Sorted?
    ensures BeforesKept(s.cs, SortTargetFirst(s, i, idx, fuel).st.cs)
    ensures s.cs[idx].before == Unset ==>
              SortTargetFirst(s, i, idx, fuel).st.cs[idx].before == To(s.cs[i].name)
    decreases fuel, 1
  {
    hide SortOne;
    var told := TellTarget(s, i, idx);
    TellKept(s, i, idx);
    SortOneKeeps(told, idx, fuel);
    var t := SortOne(told, idx, fuel).st;
    SortOneKeeps(t, i, fuel);
    KeptTwice(s.cs, told.cs, t.cs);
    KeptTwice(s.cs, t.cs, SortOne(t, i, fuel).st.cs);
  }
}
