/** Sorting callbacks that look ahead: what `after` alone comes to, and what a `before` does to an `after`. */
module SortAfters {
  import opened Options
  import opened SortCallbacks

  // ----- following `after`

  ghost predicate DistinctNames(cs: seq<Callback>) {
    forall i, j :: 0 <= i < j < |cs| ==> cs[i].name != cs[j].name
  }

  /** The registered callback that the i-th is to follow. */
  function Target(cs: seq<Callback>, i: nat): (r: Option<nat>)
    requires i < |cs|
    ensures r.Some? ==> r.value < |cs| && cs[i].after == To(cs[r.value].name)
  {
    if cs[i].after.To? && RIndex(Names(cs), cs[i].after.name) != -1 then Some(RIndex(Names(cs), cs[i].after.name))
    else None
  }

  /** Where following n times leads. */
  function Follow(cs: seq<Callback>, i: nat, n: nat): (r: Option<nat>)
    requires i < |cs|
    ensures r.Some? ==> r.value < |cs|
    decreases n
  {
    if n == 0 then Some(i)
    else match Target(cs, i)
      case None => None
      case Some(j) => Follow(cs, j, n - 1)
  }

  ghost predicate Acyclic(cs: seq<Callback>) {
    forall i, n :: 0 <= i < |cs| && n > 0 ==> Follow(cs, i, n) != Some(i)
  }

  lemma {:induction false} FollowTwice(cs: seq<Callback>, i: nat, m: nat, n: nat)
    requires i < |cs|
    ensures
      Follow(cs, i, m + n)
      == match Follow(cs, i, m) case None => None case Some(j) => Follow(cs, j, n)
    decreases m
  {
    if m > 0 && Target(cs, i).Some? {
      FollowTwice(cs, Target(cs, i).value, m - 1, n);
    }
  }

  /** The callbacks met in the first n steps. */
  ghost function Met(cs: seq<Callback>, i: nat, n: nat): set<nat>
    requires i < |cs|
  {
    if n == 0 then {i} else Met(cs, i, n - 1) + if Follow(cs, i, n).Some? then {Follow(cs, i, n).value} else {}
  }

  lemma {:induction false} MetEarlier(cs: seq<Callback>, i: nat, n: nat, j: nat)
    requires i < |cs| && j in Met(cs, i, n)
    ensures j < |cs| && exists m :: 0 <= m <= n && Follow(cs, i, m) == Some(j)
  {
    if n == 0 {
      assert Follow(cs, i, 0) == Some(i);
    } else if j in Met(cs, i, n - 1) {
      MetEarlier(cs, i, n - 1, j);
    }
  }

  lemma NeverBack(cs: seq<Callback>, i: nat, m: nat, n: nat)
    requires i < |cs| && m < n && Acyclic(cs) && Follow(cs, i, m).Some?
    ensures Follow(cs, i, n) != Follow(cs, i, m)
  {
    FollowTwice(cs, i, m, n - m);
    assert Follow(cs, Follow(cs, i, m).value, n - m) != Follow(cs, i, m);
  }

  lemma {:induction false} NoneMetTwice(cs: seq<Callback>, i: nat, n: nat)
    requires i < |cs| && Acyclic(cs) && Follow(cs, i, n).Some?
    ensures |Met(cs, i, n)| == n + 1
  {
    if n > 0 {
      hide Follow;
      hide Acyclic;
      FollowTwice(cs, i, n - 1, 1);
      NoneMetTwice(cs, i, n - 1);
      var j := Follow(cs, i, n).value;
      if j in Met(cs, i, n - 1) {
        MetEarlier(cs, i, n - 1, j);
        var m :| 0 <= m <= n - 1 && Follow(cs, i, m) == Some(j);
        NeverBack(cs, i, m, n);
      }
    }
  }

  ghost function Below(n: nat): (r: set<nat>)
    ensures |r| == n && forall k: nat :: k in r <==> k < n
  {
    if n == 0 then {} else Below(n - 1) + {n - 1}
  }

  lemma SubsetSize(a: set<nat>, b: set<nat>)
    requires a <= b
    ensures |a| <= |b|
  {
    assert b == a + (b - a);
  }

  /** Without a cycle following comes to an end within as many steps as there are callbacks. */
  lemma FollowEnds(cs: seq<Callback>, i: nat)
    requires i < |cs| && Acyclic(cs)
    ensures Follow(cs, i, |cs|).None?
  {
    if Follow(cs, i, |cs|).Some? {
      NoneMetTwice(cs, i, |cs|);
      forall j | j in Met(cs, i, |cs|)
        ensures j < |cs|
      {
        MetEarlier(cs, i, |cs|, j);
      }
      SubsetSize(Met(cs, i, |cs|), Below(|cs|));
      assert false;
    }
  }

  lemma {:induction false} CycleGoesOn(cs: seq<Callback>, i: nat, n: nat, m: nat)
    requires i < |cs| && n > 0 && Follow(cs, i, n) == Some(i)
    ensures Follow(cs, i, m).Some?
    decreases m
  {
    if m < n {
      FollowTwice(cs, i, m, n - m);
    } else {
      FollowTwice(cs, i, n, m - n);
      CycleGoesOn(cs, i, n, m - n);
    }
  }

  // ----- the states that sorting goes through

  /** b is the follower that j has been told of. */
  ghost predicate Told(cs: seq<Callback>, j: nat, b: Ref)
    requires j < |cs|
  {
    b.Unset? || (b.To? && exists k :: 0 <= k < |cs| && cs[k].name == b.name && cs[k].after == To(cs[j].name))
  }

  /** Only `before` has changed, to followers. */
  ghost predicate Same(cs: seq<Callback>, now: seq<Callback>) {
    && |now| == |cs|
    && forall j :: 0 <= j < |cs| ==>
         now[j].name == cs[j].name && now[j].after == cs[j].after && Told(cs, j, now[j].before)
  }

  /** What is placed is placed behind what it is to follow. */
  ghost predicate Behind(cs: seq<Callback>, order: seq<Name>) {
    && Distinct(order)
    && forall j :: 0 <= j < |cs| && cs[j].name in order && Target(cs, j).Some? ==>
         Ahead(order, cs[Target(cs, j).value].name, cs[j].name)
  }

  ghost predicate On(cs: seq<Callback>, st: State) {
    Same(cs, st.cs) && Behind(cs, st.sorted) && forall x <- st.sorted :: x in Names(cs)
  }

  lemma AheadIn(order: seq<Name>, x: Name, y: Name)
    requires Ahead(order, x, y)
    ensures x in order && y in order
  {
  }

  lemma SameNames(cs: seq<Callback>, now: seq<Callback>)
    requires Same(cs, now)
    ensures Names(now) == Names(cs)
  {
  }

  lemma IndexOfName(cs: seq<Callback>, k: nat)
    requires k < |cs| && DistinctNames(cs)
    ensures RIndex(Names(cs), cs[k].name) == k
  {
    assert Names(cs)[k] == cs[k].name;
    var r := RIndex(Names(cs), cs[k].name);
    assert Names(cs)[r] == cs[r].name;
  }

  /** A callback's `before` changes nothing: it names a follower, which is not placed, or placed behind. */
  lemma BeforeIsIdle(cs: seq<Callback>, st: State, i: nat)
    requires DistinctNames(cs) && On(cs, st) && i < |cs|
    ensures BeforeStep(st, i) == Some(st)
  {
    var c := st.cs[i];
    SameNames(cs, st.cs);
    if c.before.To? {
      var k :| 0 <= k < |cs| && cs[k].name == c.before.name && cs[k].after == To(cs[i].name);
      IndexOfName(cs, i);
      IndexOfName(cs, k);
      assert Target(cs, k) == Some(i);
      if c.before.name in st.sorted {
        AheadIn(st.sorted, c.name, c.before.name);
        AheadIsIndex(st.sorted, c.name, c.before.name);
      } else {
        assert st.cs[k := st.cs[k].(after := To(c.name))] == st.cs;
      }
    }
  }

  lemma AheadAppend(order: seq<Name>, x: Name, y: Name, z: Name)
    ensures Ahead(order, x, y) ==> Ahead(order + [z], x, y)
    ensures x in order ==> Ahead(order + [z], x, z)
  {
    var next := order + [z];
    if Ahead(order, x, y) {
      var i, j :| 0 <= i < j < |order| && order[i] == x && order[j] == y;
      assert next[i] == x && next[j] == y;
    }
    if x in order {
      var i :| 0 <= i < |order| && order[i] == x;
      assert next[i] == x && next[|order|] == z;
    }
  }

  /** Placing a callback whose target is placed, or that has none. */
  lemma SettleBehind(cs: seq<Callback>, st: State, i: nat)
    requires DistinctNames(cs) && On(cs, st) && i < |cs|
    requires Target(cs, i).Some? ==> cs[Target(cs, i).value].name in st.sorted
    ensures On(cs, Settle(st, i)) && cs[i].name in Settle(st, i).sorted
    ensures forall x <- Settle(st, i).sorted :: x in st.sorted || x == cs[i].name
    ensures forall x <- st.sorted :: x in Settle(st, i).sorted
  {
    var order, next := st.sorted, Settle(st, i).sorted;
    assert Names(cs)[i] == cs[i].name;
    if cs[i].name !in order {
      forall j | 0 <= j < |cs| && cs[j].name in next && Target(cs, j).Some?
        ensures Ahead(next, cs[Target(cs, j).value].name, cs[j].name)
      {
        AheadAppend(order, cs[Target(cs, j).value].name, cs[j].name, cs[i].name);
        if cs[j].name !in order {
          assert j == i;
        }
      }
    }
  }

  lemma TellKeeps(cs: seq<Callback>, st: State, i: nat, idx: nat)
    requires DistinctNames(cs) && On(cs, st) && i < |cs| && Target(cs, i) == Some(idx)
    ensures On(cs, TellTarget(st, i, idx))
  {
  }

  /** What one callback is sorted by, once its `before` is out of the way. */
  lemma SortOneShape(cs: seq<Callback>, st: State, i: nat, fuel: nat)
    requires DistinctNames(cs) && On(cs, st) && i < |cs|
    ensures
      var t := Target(cs, i);
      if t.Some? && cs[t.value].name !in st.sorted then
        SortOne(st, i, fuel) == if fuel == 0 then Looping else SortTargetFirst(st, i, t.value, fuel - 1)
      else SortOne(st, i, fuel) == Sorted(Settle(st, i))
    ensures |st.cs| == |cs|
  {
    hide BeforeStep;
    hide SortTargetFirst;
    hide Settle;
    BeforeIsIdle(cs, st, i);
    SameNames(cs, st.cs);
    assert cs[i].after.To? && cs[i].after.name in st.sorted ==> Target(cs, i).Some?;
    if cs[i].after.To? && cs[i].after.name in st.sorted && cs[i].name in st.sorted && Target(cs, i).Some? {
      AheadIsIndex(st.sorted, cs[i].after.name, cs[i].name);
    }
  }

  /** What processing a callback makes of a state: more is placed, the callback among it. */
  ghost predicate Grown(cs: seq<Callback>, st: State, i: nat, next: State)
    requires i < |cs|
  {
    On(cs, next) && cs[i].name in next.sorted && forall x <- st.sorted :: x in next.sorted
  }

  /** The two runs of a callback around its target's. */
  lemma AfterTarget(cs: seq<Callback>, st: State, i: nat, idx: nat, fuel: nat)
    requires DistinctNames(cs) && On(cs, st) && i < |cs| && Target(cs, i) == Some(idx)
    requires SortOne(TellTarget(st, i, idx), idx, fuel).Sorted?
    requires Grown(cs, TellTarget(st, i, idx), idx, SortOne(TellTarget(st, i, idx), idx, fuel).st)
    ensures SortTargetFirst(st, i, idx, fuel).Sorted? && Grown(cs, st, i, SortTargetFirst(st, i, idx, fuel).st)
  {
    hide SortOne;
    hide Behind;
    hide Told;
    hide DistinctNames;
    var t := SortOne(TellTarget(st, i, idx), idx, fuel).st;
    SortOneShape(cs, t, i, fuel);
    SettleBehind(cs, t, i);
    var u := Settle(t, i);
    SettleBehind(cs, u, i);
  }

  /** A callback from which following ends is placed, given that many steps. */
  lemma {:induction false} EndingSorts(cs: seq<Callback>, st: State, i: nat, n: nat, fuel: nat)
    requires DistinctNames(cs) && On(cs, st) && i < |cs| && Follow(cs, i, n).None? && n <= fuel
    ensures SortOne(st, i, fuel).Sorted? && Grown(cs, st, i, SortOne(st, i, fuel).st)
    decreases n
  {
    hide SortOne;
    hide SortTargetFirst;
    hide On;
    hide DistinctNames;
    SortOneShape(cs, st, i, fuel);
    var t := Target(cs, i);
    if t.Some? && cs[t.value].name !in st.sorted {
      TellKeeps(cs, st, i, t.value);
      EndingSorts(cs, TellTarget(st, i, t.value), t.value, n - 1, fuel - 1);
      AfterTarget(cs, st, i, t.value, fuel - 1);
    } else {
      SettleBehind(cs, st, i);
    }
  }

  /** Whatever the depth, a callback is placed or the recursion does not come to an end. */
  lemma {:induction false} NeverConflicts(cs: seq<Callback>, st: State, i: nat, fuel: nat)
    requires DistinctNames(cs) && On(cs, st) && i < |cs|
    ensures
      || SortOne(st, i, fuel) == Looping
      || (SortOne(st, i, fuel).Sorted? && Grown(cs, st, i, SortOne(st, i, fuel).st))
    decreases fuel
  {
    hide SortOne;
    hide On;
    hide DistinctNames;
    SortOneShape(cs, st, i, fuel);
    var t := Target(cs, i);
    if t.Some? && cs[t.value].name !in st.sorted {
      if fuel > 0 {
        TellKeeps(cs, st, i, t.value);
        NeverConflicts(cs, TellTarget(st, i, t.value), t.value, fuel - 1);
        if SortOne(TellTarget(st, i, t.value), t.value, fuel - 1).Sorted? {
          AfterTarget(cs, st, i, t.value, fuel - 1);
        }
      }
    } else {
      SettleBehind(cs, st, i);
    }
  }

  ghost predicate Endless(cs: seq<Callback>, i: nat)
    requires i < |cs|
  {
    forall n: nat :: Follow(cs, i, n).Some?
  }

  lemma EndlessTarget(cs: seq<Callback>, i: nat)
    requires i < |cs| && Endless(cs, i)
    ensures Target(cs, i).Some? && Endless(cs, Target(cs, i).value)
  {
    assert Follow(cs, i, 1).Some?;
    forall n: nat
      ensures Follow(cs, Target(cs, i).value, n).Some?
    {
      assert Follow(cs, i, n + 1).Some?;
    }
  }

  /** What is placed has been followed to its end. */
  lemma {:induction false} PlacedEnds(cs: seq<Callback>, order: seq<Name>, i: nat)
    requires Behind(cs, order) && i < |cs| && cs[i].name in order
    ensures !Endless(cs, i)
    decreases RIndex(order, cs[i].name)
  {
    if Endless(cs, i) {
      EndlessTarget(cs, i);
      var j := Target(cs, i).value;
      AheadIn(order, cs[j].name, cs[i].name);
      AheadIsIndex(order, cs[j].name, cs[i].name);
      PlacedEnds(cs, order, j);
    }
  }

  /** A callback from which following does not end is processed for ever. */
  lemma {:induction false} EndlessLoops(cs: seq<Callback>, st: State, i: nat, fuel: nat)
    requires DistinctNames(cs) && On(cs, st) && i < |cs| && Endless(cs, i)
    ensures SortOne(st, i, fuel) == Looping
    decreases fuel
  {
    hide SortOne;
    hide DistinctNames;
    hide Endless;
    SortOneShape(cs, st, i, fuel);
    EndlessTarget(cs, i);
    var j := Target(cs, i).value;
    if cs[j].name in st.sorted {
      PlacedEnds(cs, st.sorted, j);
    }
    if fuel > 0 {
      TellKeeps(cs, st, i, j);
      EndlessLoops(cs, TellTarget(st, i, j), j, fuel - 1);
    }
  }

  // ----- the whole list

  lemma OnSize(cs: seq<Callback>, st: State)
    requires On(cs, st)
    ensures |st.cs| == |cs|
  {
  }

  lemma {:induction false} AllSort(cs: seq<Callback>, st: State, i: nat, fuel: nat)
    requires DistinctNames(cs) && On(cs, st) && i <= |cs| && Acyclic(cs) && |cs| <= fuel
    requires forall k :: 0 <= k < i ==> cs[k].name in st.sorted
    ensures
      var r := SortFrom(st, i, fuel);
      r.Sorted? && On(cs, r.st) && forall k :: 0 <= k < |cs| ==> cs[k].name in r.st.sorted
    decreases |cs| - i
  {
    hide SortOne;
    hide Acyclic;
    hide DistinctNames;
    hide On;
    hide RIndex;
    OnSize(cs, st);
    if i < |cs| {
      FollowEnds(cs, i);
      EndingSorts(cs, st, i, |cs|, fuel);
      OnSize(cs, SortOne(st, i, fuel).st);
      AllSort(cs, SortOne(st, i, fuel).st, i + 1, fuel);
    }
  }

  lemma {:induction false} OneLoops(cs: seq<Callback>, st: State, i: nat, e: nat, fuel: nat)
    requires DistinctNames(cs) && On(cs, st) && i <= e < |cs| && Endless(cs, e)
    ensures SortFrom(st, i, fuel) == Looping
    decreases e - i
  {
    hide SortOne;
    hide Endless;
    hide DistinctNames;
    hide Behind;
    if i == e {
      EndlessLoops(cs, st, i, fuel);
    } else {
      NeverConflicts(cs, st, i, fuel);
      if SortOne(st, i, fuel).Sorted? {
        OneLoops(cs, SortOne(st, i, fuel).st, i + 1, e, fuel);
      }
    }
  }

  /** c stands behind the registered callback that it is to follow, if there is one. */
  predicate Follows(cs: seq<Callback>, c: Callback, order: seq<Name>) {
    && c.name in order
    && (c.after.To? && c.after.name in Names(cs) ==>
          c.after.name in order && RIndex(order, c.after.name) < RIndex(order, c.name))
  }

  /** Every `before` is unset, or names a callback that is to follow anyway: as registered with `after` alone, or
      as an earlier sort has left it. */
  ghost predicate AftersAlone(cs: seq<Callback>) { Same(cs, cs) }

  /** Registering one more callback with `after` alone. */
  lemma RegisterKeeps(cs: seq<Callback>, c: Callback)
    requires AftersAlone(cs) && c.before.Unset?
    ensures AftersAlone(cs + [c])
  {
    var more := cs + [c];
    forall j | 0 <= j < |more|
      ensures Told(more, j, more[j].before)
    {
      if j < |cs| && cs[j].before.To? {
        var k :| 0 <= k < |cs| && cs[k].name == cs[j].before.name && cs[k].after == To(cs[j].name);
        assert more[k] == cs[k];
      }
    }
  }

  lemma SameAlone(cs: seq<Callback>, now: seq<Callback>)
    requires Same(cs, now)
    ensures AftersAlone(now)
  {
    forall j | 0 <= j < |now|
      ensures Told(now, j, now[j].before)
    {
      if now[j].before.To? {
        var k :| 0 <= k < |cs| && cs[k].name == now[j].before.name && cs[k].after == To(cs[j].name);
        assert now[k].name == cs[k].name;
      }
    }
  }

  lemma StartsOn(cs: seq<Callback>)
    requires AftersAlone(cs)
    ensures On(cs, State(cs, []))
  {
  }

  lemma BehindFollows(cs: seq<Callback>, order: seq<Name>, i: nat)
    requires Behind(cs, order) && i < |cs| && cs[i].name in order
    ensures Follows(cs, cs[i], order)
  {
  }

  /** Callbacks that only say what they follow, earlier or later in the list, are all put behind it, with
      as much depth as there are callbacks, exactly if none follows itself in the end; otherwise sorting
      goes on for ever, whatever the depth. They can then be sorted again, with more of them. */
  lemma AftersSort(cs: seq<Callback>)
    requires DistinctNames(cs) && AftersAlone(cs)
    ensures
      Acyclic(cs) ==>
        forall fuel: nat :: |cs| <= fuel ==>
          && SortAll(cs, fuel).Sorted? && AftersAlone(SortAll(cs, fuel).st.cs)
          && forall c <- cs :: Follows(cs, c, SortAll(cs, fuel).st.sorted)
    ensures !Acyclic(cs) ==> forall fuel: nat :: SortAll(cs, fuel) == Looping
  {
    hide SortOne;
    hide Behind;
    hide DistinctNames;
    hide Follows;
    assert On(cs, State(cs, [])) by { StartsOn(cs); }
    if Acyclic(cs) {
      forall fuel: nat | |cs| <= fuel
        ensures
          && SortAll(cs, fuel).Sorted? && AftersAlone(SortAll(cs, fuel).st.cs)
          && forall c <- cs :: Follows(cs, c, SortAll(cs, fuel).st.sorted)
      {
        AllSort(cs, State(cs, []), 0, fuel);
        SameAlone(cs, SortAll(cs, fuel).st.cs);
        var order := SortAll(cs, fuel).st.sorted;
        forall c | c in cs
          ensures Follows(cs, c, order)
        {
          var i :| 0 <= i < |cs| && cs[i] == c;
          BehindFollows(cs, order, i);
        }
      }
    } else {
      var e, n :| 0 <= e < |cs| && n > 0 && Follow(cs, e, n) == Some(e);
      forall m: nat
        ensures Follow(cs, e, m).Some?
      {
        CycleGoesOn(cs, e, n, m);
      }
      forall fuel: nat
        ensures SortAll(cs, fuel) == Looping
      {
        OneLoops(cs, State(cs, []), 0, e, fuel);
      }
    }
  }

  // ----- a `before` that looks ahead

  /** The list with another `after` for the callback at k. */
  function WithAfter(cs: seq<Callback>, k: nat, r: Ref): seq<Callback>
    requires k < |cs|
  {
    cs[k := cs[k].(after := r)]
  }

  /** A `before` whose target is registered and not placed overwrites what the target was to follow: nothing
      that happens from then on depends on it. */
  lemma ForgetsAfter(st: State, i: nat, fuel: nat, r: Ref)
    requires i < |st.cs| && st.cs[i].before.To? && st.cs[i].before.name !in st.sorted
    requires RIndex(Names(st.cs), st.cs[i].before.name) != -1
    ensures
      var k := RIndex(Names(st.cs), st.cs[i].before.name);
      SortOne(State(WithAfter(st.cs, k, r), st.sorted), i, fuel) == SortOne(st, i, fuel)
  {
    var k := RIndex(Names(st.cs), st.cs[i].before.name);
    var other := State(WithAfter(st.cs, k, r), st.sorted);
    assert Names(other.cs) == Names(st.cs);
    var c := st.cs[i];
    assert other.cs[k := other.cs[k].(after := To(c.name))] == st.cs[k := st.cs[k].(after := To(c.name))];
    assert BeforeStep(other, i) == BeforeStep(st, i);
  }

  /** So if the first callback's `before` names a registered one, that one's own `after` makes no difference
      to the outcome, and is satisfied only if it would be anyway. */
  lemma FirstBeforeForgets(cs: seq<Callback>, fuel: nat, r: Ref)
    requires cs != [] && cs[0].before.To? && cs[0].before.name in Names(cs)
    ensures SortAll(WithAfter(cs, RIndex(Names(cs), cs[0].before.name), r), fuel) == SortAll(cs, fuel)
  {
    hide SortOne;
    var k := RIndex(Names(cs), cs[0].before.name);
    assert WithAfter(cs, k, r)[0].before == cs[0].before;
    ForgetsAfter(State(cs, []), 0, fuel, r);
  }

  /** Told to follow a name that comes out behind it, that callback still stays where it was, and sorting
      succeeds with the constraint broken. */
  lemma FirstBeforeLoses(cs: seq<Callback>, fuel: nat, x: Name)
    requires cs != [] && cs[0].before.To? && cs[0].before.name in Names(cs) && SortAll(cs, fuel).Sorted?
    requires RIndex(SortAll(cs, fuel).st.sorted, cs[0].before.name) < RIndex(SortAll(cs, fuel).st.sorted, x)
    ensures
      var k := RIndex(Names(cs), cs[0].before.name);
      var out := SortAll(WithAfter(cs, k, To(x)), fuel);
      out == SortAll(cs, fuel) && !Satisfied(WithAfter(cs, k, To(x))[k], out.st.sorted)
  {
    hide SortAll;
    var k := RIndex(Names(cs), cs[0].before.name);
    assert Names(cs)[k] == cs[k].name;
    FirstBeforeForgets(cs, fuel, To(x));
  }
}
