/** Ordering callbacks by their before/after constraints: names are inserted one
    by one into `sorted`, and processing one callback may process another first. */
module SortCallbacks {
  import opened Options

  /** Callback names, numbered; "" and "*" are no callback's name. */
  type Name = nat

  /** What `before` and `after` can say: nothing, "*", or a name. */
  datatype Ref = Unset | Everyone | To(name: Name)

  datatype Callback = Callback(name: Name, before: Ref, after: Ref)

  datatype State = State(cs: seq<Callback>, sorted: seq<Name>)

  /** Looping: the recursion has not come to an end within the given depth. */
  datatype Outcome = Sorted(st: State) | Conflict | Looping

  /** The last position of x, or -1. */
  function RIndex(s: seq<Name>, x: Name): (r: int)
    ensures -1 <= r < |s|
    ensures r >= 0 ==> s[r] == x && forall k :: r < k < |s| ==> s[k] != x
    ensures r == -1 <==> x !in s
  {
    if s == [] then -1
    else if s[|s| - 1] == x then |s| - 1
    else
      assert s == s[..|s| - 1] + [s[|s| - 1]];
      RIndex(s[..|s| - 1], x)
  }

  function Names(cs: seq<Callback>): (r: seq<Name>)
    ensures |r| == |cs|
  {
    seq(|cs|, i requires 0 <= i < |cs| => cs[i].name)
  }

  /** x put in front of position k. */
  function InsertAt(s: seq<Name>, k: nat, x: Name): seq<Name>
    requires k <= |s|
  {
    s[..k] + [x] + s[k..]
  }

  function AddFront(s: seq<Name>, x: Name): seq<Name> { if x in s then s else [x] + s }

  function AddBack(s: seq<Name>, x: Name): seq<Name> { if x in s then s else s + [x] }

  /** A callback that has not been placed goes to the end. */
  function Settle(st: State, i: nat): State
    requires i < |st.cs|
  {
    st.(sorted := AddBack(st.sorted, st.cs[i].name))
  }

  /** The constraint `before`: place it, check it, or hand it to a callback that is yet to come. */
  function BeforeStep(st: State, i: nat): (r: Option<State>)
    requires i < |st.cs|
    ensures r.Some? ==> |r.value.cs| == |st.cs| && Names(r.value.cs) == Names(st.cs)
  {
    var c := st.cs[i];
    match c.before
    case Unset => Some(st)
    case Everyone => Some(if st.sorted == [] then st else st.(sorted := AddFront(st.sorted, c.name)))
    case To(b) =>
      if b in st.sorted then
        var at, cur := RIndex(st.sorted, b), RIndex(st.sorted, c.name);
        if cur == -1 then Some(st.(sorted := InsertAt(st.sorted, at, c.name)))
        else if cur > at then None
        else Some(st)
      else
        var idx := RIndex(Names(st.cs), b);
        if idx == -1 then Some(st) else Some(st.(cs := st.cs[idx := st.cs[idx].(after := To(c.name))]))
  }

  /** One callback. It reads `after` when `before` has been dealt with. */
  function SortOne(st: State, i: nat, fuel: nat): (r: Outcome)
    requires i < |st.cs|
    ensures r.Sorted? ==> |r.st.cs| == |st.cs| && Names(r.st.cs) == Names(st.cs)
    decreases fuel, 0
  {
    match BeforeStep(st, i)
    case None => Conflict
    case Some(s) =>
      match s.cs[i].after
      case Unset => Sorted(Settle(s, i))
      case Everyone => Sorted(Settle(s, i))
      case To(a) =>
        if a in s.sorted then
          var cur := RIndex(s.sorted, s.cs[i].name);
          if cur != -1 && cur < RIndex(s.sorted, a) then Conflict else Sorted(Settle(s, i))
        else
          var idx := RIndex(Names(s.cs), a);
          if idx == -1 then Sorted(Settle(s, i))
          else if fuel == 0 then Looping
          else SortTargetFirst(s, i, idx, fuel - 1)
  }

  /** A callback that is to be followed and has no `before` is told who follows it. */
  function TellTarget(s: State, i: nat, idx: nat): (r: State)
    requires i < |s.cs| && idx < |s.cs|
    ensures |r.cs| == |s.cs| && Names(r.cs) == Names(s.cs) && r.sorted == s.sorted
  {
    if s.cs[idx].before.Unset? then s.(cs := s.cs[idx := s.cs[idx].(before := To(s.cs[i].name))]) else s
  }

  /** The callback that the i-th is to follow comes first, then the i-th again. */
  function SortTargetFirst(s: State, i: nat, idx: nat, fuel: nat): (r: Outcome)
    requires i < |s.cs| && idx < |s.cs|
    ensures r.Sorted? ==> |r.st.cs| == |s.cs| && Names(r.st.cs) == Names(s.cs)
    decreases fuel, 1
  {
    match SortOne(TellTarget(s, i, idx), idx, fuel)
    case Sorted(t) =>
      (match SortOne(t, i, fuel)
       case Sorted(u) => Sorted(Settle(u, i))
       case other => other)
    case other => other
  }

  /** The callbacks from the i-th on, in turn. */
  function SortFrom(st: State, i: nat, fuel: nat): Outcome
    requires i <= |st.cs|
    decreases |st.cs| - i
  {
    if i == |st.cs| then Sorted(st)
    else match SortOne(st, i, fuel)
      case Sorted(t) => SortFrom(t, i + 1, fuel)
      case other => other
  }

  function SortAll(cs: seq<Callback>, fuel: nat): Outcome { SortFrom(State(cs, []), 0, fuel) }

  // ----- placed names are never swapped, and none is placed twice

  predicate Distinct(s: seq<Name>) { forall i, j :: 0 <= i < j < |s| ==> s[i] != s[j] }

  /** The elements of s that are in t, in the order of s. */
  function Keep(s: seq<Name>, t: seq<Name>): seq<Name> {
    if s == [] then [] else (if s[0] in t then [s[0]] else []) + Keep(s[1..], t)
  }

  lemma {:induction false} KeepConcat(a: seq<Name>, b: seq<Name>, t: seq<Name>)
    ensures Keep(a + b, t) == Keep(a, t) + Keep(b, t)
  {
    if a == [] {
      assert a + b == b;
    } else {
      assert (a + b)[0] == a[0] && (a + b)[1..] == a[1..] + b;
      KeepConcat(a[1..], b, t);
      Associates(if a[0] in t then [a[0]] else [], Keep(a[1..], t), Keep(b, t));
    }
  }

  lemma Associates(a: seq<Name>, b: seq<Name>, c: seq<Name>)
    ensures a + (b + c) == (a + b) + c
  {
  }

  lemma {:induction false} KeepAll(s: seq<Name>, t: seq<Name>)
    requires forall x <- s :: x in t
    ensures Keep(s, t) == s
  {
    if s != [] {
      KeepAll(s[1..], t);
      assert s == [s[0]] + s[1..];
    }
  }

  lemma {:induction false} KeepKeep(s: seq<Name>, t: seq<Name>, u: seq<Name>)
    requires forall x <- u :: x in t
    ensures Keep(Keep(s, t), u) == Keep(s, u)
  {
    if s != [] {
      KeepKeep(s[1..], t, u);
      KeepConcat(if s[0] in t then [s[0]] else [], Keep(s[1..], t), u);
      assert [s[0]][1..] == [];
    }
  }

  /** `next` has everything `s` has, in the same order, and perhaps more. */
  ghost predicate Extends(s: seq<Name>, next: seq<Name>) {
    Keep(next, s) == s && (forall x <- s :: x in next) && (Distinct(s) ==> Distinct(next))
  }

  lemma ExtendsSelf(s: seq<Name>)
    ensures Extends(s, s)
  {
    KeepAll(s, s);
  }

  lemma ExtendsTrans(a: seq<Name>, b: seq<Name>, c: seq<Name>)
    requires Extends(a, b) && Extends(b, c)
    ensures Extends(a, c)
  {
    KeepKeep(c, b, a);
  }

  lemma {:induction false} KeepSkips(s: seq<Name>, k: nat, x: Name, t: seq<Name>)
    requires k <= |s| && x !in t
    ensures Keep(InsertAt(s, k, x), t) == Keep(s, t)
  {
    if k == 0 {
      assert InsertAt(s, 0, x)[1..] == s;
    } else {
      assert InsertAt(s, k, x)[1..] == InsertAt(s[1..], k - 1, x);
      KeepSkips(s[1..], k - 1, x, t);
    }
  }

  lemma InsertMembers(s: seq<Name>, k: nat, x: Name)
    requires k <= |s|
    ensures forall y :: y in InsertAt(s, k, x) <==> y in s || y == x
  {
  }

  lemma InsertDistinct(s: seq<Name>, k: nat, x: Name)
    requires k <= |s| && x !in s
    ensures Distinct(s) ==> Distinct(InsertAt(s, k, x))
  {
  }

  lemma InsertExtends(s: seq<Name>, k: nat, x: Name)
    requires k <= |s| && x !in s
    ensures Extends(s, InsertAt(s, k, x))
  {
    KeepSkips(s, k, x, s);
    KeepAll(s, s);
    InsertDistinct(s, k, x);
    hide Keep;
    hide InsertAt;
    InsertMembers(s, k, x);
  }

  lemma SettleExtends(s: seq<Name>, x: Name)
    ensures Extends(s, AddBack(s, x)) && Extends(s, AddFront(s, x))
    ensures forall y :: y in AddBack(s, x) <==> y in s || y == x
    ensures forall y :: y in AddFront(s, x) <==> y in s || y == x
  {
    hide Extends;
    if x in s {
      ExtendsSelf(s);
    } else {
      InsertExtends(s, |s|, x);
      InsertExtends(s, 0, x);
      assert InsertAt(s, |s|, x) == s + [x];
      assert InsertAt(s, 0, x) == [x] + s;
    }
  }

  ghost predicate OnlyNames(st: State) { forall x <- st.sorted :: x in Names(st.cs) }

  lemma OneMoreName(st: State, next: State, x: Name)
    requires OnlyNames(st) && Names(next.cs) == Names(st.cs) && x in Names(st.cs)
    requires forall y <- next.sorted :: y in st.sorted || y == x
    ensures OnlyNames(next)
  {
  }

  lemma BeforeStepExtends(st: State, i: nat)
    requires i < |st.cs| && OnlyNames(st) && BeforeStep(st, i).Some?
    ensures Extends(st.sorted, BeforeStep(st, i).value.sorted) && OnlyNames(BeforeStep(st, i).value)
  {
    hide Extends;
    hide OnlyNames;
    hide AddFront;
    hide InsertAt;
    var c := st.cs[i];
    assert Names(st.cs)[i] == c.name;
    ExtendsSelf(st.sorted);
    SettleExtends(st.sorted, c.name);
    if c.before.To? && c.before.name in st.sorted && c.name !in st.sorted {
      InsertExtends(st.sorted, RIndex(st.sorted, c.before.name), c.name);
      InsertMembers(st.sorted, RIndex(st.sorted, c.before.name), c.name);
    }
    OneMoreName(st, BeforeStep(st, i).value, c.name);
  }

  /** Settling the i-th callback. */
  lemma SettleStep(before: seq<Name>, s: State, i: nat)
    requires i < |s.cs| && OnlyNames(s) && Extends(before, s.sorted)
    ensures Extends(before, Settle(s, i).sorted) && OnlyNames(Settle(s, i))
    ensures Names(s.cs)[i] in Settle(s, i).sorted
  {
    hide Extends;
    hide AddBack;
    SettleExtends(s.sorted, s.cs[i].name);
    ExtendsTrans(before, s.sorted, Settle(s, i).sorted);
    assert Names(s.cs)[i] == s.cs[i].name;
    OneMoreName(s, Settle(s, i), s.cs[i].name);
  }

  /** Whatever the constraints, processing a callback keeps the order of the names that are placed,
      and places the callback. */
  lemma {:induction false} SortOneExtends(st: State, i: nat, fuel: nat)
    requires i < |st.cs| && OnlyNames(st) && SortOne(st, i, fuel).Sorted?
    ensures Extends(st.sorted, SortOne(st, i, fuel).st.sorted)
    ensures OnlyNames(SortOne(st, i, fuel).st)
    ensures Names(st.cs)[i] in SortOne(st, i, fuel).st.sorted
    decreases fuel, 0
  {
    hide Extends;
    hide OnlyNames;
    hide BeforeStep;
    hide Settle;
    BeforeStepExtends(st, i);
    var s := BeforeStep(st, i).value;
    SettleStep(st.sorted, s, i);
    if s.cs[i].after.To? && s.cs[i].after.name !in s.sorted {
      var idx := RIndex(Names(s.cs), s.cs[i].after.name);
      if idx != -1 {
        TargetFirstExtends(s, i, idx, fuel - 1);
        ExtendsTrans(st.sorted, s.sorted, SortOne(st, i, fuel).st.sorted);
      }
    }
  }

  lemma {:induction false} TargetFirstExtends(s: State, i: nat, idx: nat, fuel: nat)
    requires i < |s.cs| && idx < |s.cs| && OnlyNames(s) && SortTargetFirst(s, i, idx, fuel).Sorted?
    ensures Extends(s.sorted, SortTargetFirst(s, i, idx, fuel).st.sorted)
    ensures OnlyNames(SortTargetFirst(s, i, idx, fuel).st)
    ensures Names(s.cs)[i] in SortTargetFirst(s, i, idx, fuel).st.sorted
    decreases fuel, 1
  {
    hide Extends;
    hide Settle;
    hide SortOne;
    var target := TellTarget(s, i, idx);
    SortOneExtends(target, idx, fuel);
    var t := SortOne(target, idx, fuel).st;
    SortOneExtends(t, i, fuel);
    var u := SortOne(t, i, fuel).st;
    ExtendsTrans(s.sorted, t.sorted, u.sorted);
    SettleStep(s.sorted, u, i);
  }

  lemma {:induction false} SortFromExtends(st: State, i: nat, fuel: nat)
    requires i <= |st.cs| && OnlyNames(st) && SortFrom(st, i, fuel).Sorted?
    ensures Extends(st.sorted, SortFrom(st, i, fuel).st.sorted)
    ensures OnlyNames(SortFrom(st, i, fuel).st) && Names(SortFrom(st, i, fuel).st.cs) == Names(st.cs)
    ensures forall k :: i <= k < |st.cs| ==> Names(st.cs)[k] in SortFrom(st, i, fuel).st.sorted
    decreases |st.cs| - i
  {
    hide Extends;
    hide SortOne;
    hide OnlyNames;
    if i == |st.cs| {
      ExtendsSelf(st.sorted);
    } else {
      SortOneExtends(st, i, fuel);
      var t := SortOne(st, i, fuel).st;
      SortFromExtends(t, i + 1, fuel);
      ExtendsTrans(st.sorted, t.sorted, SortFrom(st, i, fuel).st.sorted);
      ExtendsMembers(t.sorted, SortFrom(st, i, fuel).st.sorted);
    }
  }

  lemma ExtendsMembers(s: seq<Name>, next: seq<Name>)
    requires Extends(s, next)
    ensures forall x <- s :: x in next
  {
  }

  /** When sorting succeeds it has placed every registered name, each once, and nothing else. */
  lemma SortAllPlacesEachOnce(cs: seq<Callback>, fuel: nat)
    requires SortAll(cs, fuel).Sorted?
    ensures
      var out := SortAll(cs, fuel).st.sorted;
      Distinct(out) && forall x :: x in out <==> x in Names(cs)
  {
    SortFromExtends(State(cs, []), 0, fuel);
    var out := SortAll(cs, fuel).st.sorted;
    forall x | x in Names(cs)
      ensures x in out
    {
      var k :| 0 <= k < |cs| && Names(cs)[k] == x;
    }
  }

  // ----- constraints that only look back

  /** Names are distinct, and every constraint names an earlier callback. */
  ghost predicate LooksBack(cs: seq<Callback>) {
    && (forall i, j :: 0 <= i < j < |cs| ==> cs[i].name != cs[j].name)
    && (forall i :: 0 <= i < |cs| ==> Earlier(cs, i, cs[i].before) && Earlier(cs, i, cs[i].after))
  }

  ghost predicate Earlier(cs: seq<Callback>, i: nat, r: Ref)
    requires i <= |cs|
  {
    match r
    case Unset => true
    case Everyone => false
    case To(n) => exists j :: 0 <= j < i && cs[j].name == n
  }

  /** What c asks of an order. */
  predicate Satisfied(c: Callback, order: seq<Name>) {
    && c.name in order
    && (c.before.To? ==> c.before.name in order && RIndex(order, c.name) < RIndex(order, c.before.name))
    && (c.after.To? ==> c.after.name in order && RIndex(order, c.after.name) < RIndex(order, c.name))
  }

  /** Both of c's targets are placed, and the one it is to follow stands strictly ahead of the other. */
  predicate Placeable(c: Callback, order: seq<Name>) {
    c.before.To? && c.after.To? ==> RIndex(order, c.after.name) < RIndex(order, c.before.name)
  }

  function Placed(c: Callback, order: seq<Name>): seq<Name> {
    if c.before.To? && c.before.name in order then InsertAt(order, RIndex(order, c.before.name), c.name)
    else order + [c.name]
  }

  /** s lists the names of the first i callbacks. */
  ghost predicate PlacedSoFar(st: State, i: nat) {
    && LooksBack(st.cs) && i <= |st.cs| && Distinct(st.sorted)
    && (forall k :: 0 <= k < i ==> st.cs[k].name in st.sorted)
    && (forall x <- st.sorted :: exists k :: 0 <= k < i && st.cs[k].name == x)
  }

  lemma InsertIndex(s: seq<Name>, k: nat, x: Name, y: Name)
    requires k <= |s| && Distinct(s) && x !in s && y in s
    ensures RIndex(InsertAt(s, k, x), x) == k
    ensures RIndex(InsertAt(s, k, x), y) == (if RIndex(s, y) < k then RIndex(s, y) else RIndex(s, y) + 1)
  {
  }

  /** The next callback is placed at once, or found to be in conflict, without any recursion. */
  lemma NextIsPlaced(st: State, i: nat, fuel: nat)
    requires PlacedSoFar(st, i) && i < |st.cs|
    ensures Placeable(st.cs[i], st.sorted) ==>
              SortOne(st, i, fuel) == Sorted(st.(sorted := Placed(st.cs[i], st.sorted)))
    ensures !Placeable(st.cs[i], st.sorted) ==> SortOne(st, i, fuel) == Conflict
  {
    var c := st.cs[i];
    assert c.name !in st.sorted;
    assert Earlier(st.cs, i, c.before) && Earlier(st.cs, i, c.after);
    var s := BeforeStep(st, i).value;
    assert s.cs == st.cs;
    if c.before.To? {
      var at := RIndex(st.sorted, c.before.name);
      assert s.sorted == InsertAt(st.sorted, at, c.name);
      InsertExtends(st.sorted, at, c.name);
      InsertMembers(st.sorted, at, c.name);
      if c.after.To? {
        InsertIndex(st.sorted, at, c.name, c.after.name);
      }
    }
  }

  lemma PlacedKeeps(st: State, i: nat)
    requires PlacedSoFar(st, i) && i < |st.cs| && Placeable(st.cs[i], st.sorted)
    ensures PlacedSoFar(st.(sorted := Placed(st.cs[i], st.sorted)), i + 1)
    ensures Satisfied(st.cs[i], Placed(st.cs[i], st.sorted))
    ensures Extends(st.sorted, Placed(st.cs[i], st.sorted))
  {
    var c := st.cs[i];
    assert c.name !in st.sorted;
    assert Earlier(st.cs, i, c.before) && Earlier(st.cs, i, c.after);
    var k := if c.before.To? then RIndex(st.sorted, c.before.name) else |st.sorted|;
    assert Placed(c, st.sorted) == InsertAt(st.sorted, k, c.name);
    InsertExtends(st.sorted, k, c.name);
    InsertMembers(st.sorted, k, c.name);
    if c.before.To? {
      InsertIndex(st.sorted, k, c.name, c.before.name);
    }
    if c.after.To? {
      InsertIndex(st.sorted, k, c.name, c.after.name);
    }
    assert InsertAt(st.sorted, k, c.name)[k] == c.name;
  }

  lemma {:induction false} KeepIndex(s: seq<Name>, t: seq<Name>, x: Name, y: Name)
    requires Distinct(s) && x in t && y in t && x in s && y in s
    ensures x in Keep(s, t) && y in Keep(s, t) && Distinct(Keep(s, t))
    ensures RIndex(s, x) < RIndex(s, y) <==> RIndex(Keep(s, t), x) < RIndex(Keep(s, t), y)
  {
    KeepMembers(s, t);
    KeepDistinct(s, t);
    KeepOrder(s, t, x, y);
  }

  lemma {:induction false} KeepMembers(s: seq<Name>, t: seq<Name>)
    ensures forall x :: x in Keep(s, t) <==> x in s && x in t
  {
    if s != [] {
      KeepMembers(s[1..], t);
      assert s == [s[0]] + s[1..];
    }
  }

  lemma {:induction false} KeepDistinct(s: seq<Name>, t: seq<Name>)
    requires Distinct(s)
    ensures Distinct(Keep(s, t))
  {
    if s != [] {
      KeepDistinct(s[1..], t);
      KeepMembers(s[1..], t);
    }
  }

  /** x stands ahead of y. */
  ghost predicate Ahead(s: seq<Name>, x: Name, y: Name) {
    exists i, j :: 0 <= i < j < |s| && s[i] == x && s[j] == y
  }

  lemma AheadIsIndex(s: seq<Name>, x: Name, y: Name)
    requires Distinct(s) && x in s && y in s
    ensures Ahead(s, x, y) <==> RIndex(s, x) < RIndex(s, y)
  {
  }

  lemma {:induction false} KeepOrder(s: seq<Name>, t: seq<Name>, x: Name, y: Name)
    requires Distinct(s) && x in t && y in t && x in s && y in s
    requires x in Keep(s, t) && y in Keep(s, t) && Distinct(Keep(s, t))
    ensures RIndex(s, x) < RIndex(s, y) <==> RIndex(Keep(s, t), x) < RIndex(Keep(s, t), y)
  {
    AheadIsIndex(s, x, y);
    AheadIsIndex(s, y, x);
    AheadIsIndex(Keep(s, t), x, y);
    AheadIsIndex(Keep(s, t), y, x);
    if Ahead(s, x, y) {
      KeepAhead(s, t, x, y);
    }
    if Ahead(s, y, x) {
      KeepAhead(s, t, y, x);
    }
  }

  lemma {:induction false} KeepAhead(s: seq<Name>, t: seq<Name>, x: Name, y: Name)
    requires Ahead(s, x, y) && x in t && y in t
    ensures Ahead(Keep(s, t), x, y)
  {
    var i, j :| 0 <= i < j < |s| && s[i] == x && s[j] == y;
    var rest := Keep(s[1..], t);
    if i == 0 {
      KeepMembers(s[1..], t);
      assert s[1..][j - 1] == y;
      var k :| 0 <= k < |rest| && rest[k] == y;
      assert Keep(s, t)[0] == x && Keep(s, t)[k + 1] == y;
    } else {
      assert s[1..][i - 1] == x && s[1..][j - 1] == y;
      KeepAhead(s[1..], t, x, y);
      var a, b :| 0 <= a < b < |rest| && rest[a] == x && rest[b] == y;
      var d := if s[0] in t then 1 else 0;
      assert Keep(s, t)[a + d] == x && Keep(s, t)[b + d] == y;
    }
  }

  lemma StaysSatisfied(c: Callback, s: seq<Name>, next: seq<Name>)
    requires Satisfied(c, s) && Distinct(s) && Extends(s, next)
    ensures Satisfied(c, next)
  {
    if c.before.To? {
      KeepIndex(next, s, c.name, c.before.name);
    }
    if c.after.To? {
      KeepIndex(next, s, c.after.name, c.name);
    }
  }

  /** Placing the callbacks from the i-th on, one by one; None where a callback's after-target does not
      stand strictly ahead of its before-target when its turn comes. */
  function OrderFrom(cs: seq<Callback>, i: nat, order: seq<Name>): Option<seq<Name>>
    requires i <= |cs|
    decreases |cs| - i
  {
    if i == |cs| then Some(order)
    else if Placeable(cs[i], order) then OrderFrom(cs, i + 1, Placed(cs[i], order))
    else None
  }

  ghost predicate SatisfiedUpTo(cs: seq<Callback>, i: nat, order: seq<Name>)
    requires i <= |cs|
  {
    forall k :: 0 <= k < i ==> Satisfied(cs[k], order)
  }

  lemma OneMoreSatisfied(st: State, i: nat)
    requires PlacedSoFar(st, i) && i < |st.cs| && Placeable(st.cs[i], st.sorted)
    requires SatisfiedUpTo(st.cs, i, st.sorted)
    ensures SatisfiedUpTo(st.cs, i + 1, Placed(st.cs[i], st.sorted))
  {
    hide Satisfied;
    hide Placed;
    hide Placeable;
    hide Extends;
    hide LooksBack;
    PlacedKeeps(st, i);
    forall k | 0 <= k < i
      ensures Satisfied(st.cs[k], Placed(st.cs[i], st.sorted))
    {
      StaysSatisfied(st.cs[k], st.sorted, Placed(st.cs[i], st.sorted));
    }
  }

  lemma {:induction false} SortsByPlacing(st: State, i: nat, fuel: nat)
    requires PlacedSoFar(st, i) && SatisfiedUpTo(st.cs, i, st.sorted) && i <= |st.cs|
    ensures
      match OrderFrom(st.cs, i, st.sorted)
      case Some(order) => SortFrom(st, i, fuel) == Sorted(State(st.cs, order)) && SatisfiedUpTo(st.cs, |st.cs|, order)
      case None => SortFrom(st, i, fuel) == Conflict
    decreases |st.cs| - i
  {
    hide SortOne;
    hide PlacedSoFar;
    hide SatisfiedUpTo;
    hide Placed;
    hide Placeable;
    if i < |st.cs| {
      NextIsPlaced(st, i, fuel);
      if Placeable(st.cs[i], st.sorted) {
        PlacedKeeps(st, i);
        OneMoreSatisfied(st, i);
        SortsByPlacing(st.(sorted := Placed(st.cs[i], st.sorted)), i + 1, fuel);
      }
    }
  }

  /** Constraints that only look back are all satisfied, unless some callback's after-target does not
      stand strictly ahead of its before-target when its turn comes: then, and only then, sorting fails.
      It needs no recursion and changes no constraint. */
  lemma LooksBackSorts(cs: seq<Callback>, fuel: nat)
    requires LooksBack(cs)
    ensures
      match OrderFrom(cs, 0, [])
      case Some(order) =>
        && SortAll(cs, fuel) == Sorted(State(cs, order))
        && forall i :: 0 <= i < |cs| ==> Satisfied(cs[i], order)
      case None => SortAll(cs, fuel) == Conflict
  {
    hide Satisfied;
    SortsByPlacing(State(cs, []), 0, fuel);
  }

  // ----- constraints that look ahead

  /** Two callbacks that are each to follow the other are processed for ever. */
  lemma MutualAfterLoops(fuel: nat)
    ensures SortAll([Callback(1, Unset, To(2)), Callback(2, Unset, To(1))], fuel) == Looping
  {
    var cs := [Callback(1, Unset, To(2)), Callback(2, Unset, To(1))];
    var st := State(cs, []);
    var told := State([Callback(1, Unset, To(2)), Callback(2, To(1), To(1))], []);
    assert Names(cs) == [1, 2] && Names(told.cs) == [1, 2];
    assert RIndex([1, 2], 1) == 0 && RIndex([1, 2], 2) == 1;
    assert TellTarget(st, 0, 1) == told;
    assert told.cs[0 := told.cs[0].(after := To(2))] == told.cs;
    assert BeforeStep(told, 1) == Some(told);
    assert TellTarget(told, 1, 0) == BOTH;
    if fuel > 1 {
      EachFollowsTheOther(0, fuel - 2);
    }
    assert fuel > 0 ==> SortOne(told, 1, fuel - 1) == Looping;
    assert SortOne(st, 0, fuel) == Looping;
  }

  const BOTH := State([Callback(1, To(2), To(2)), Callback(2, To(1), To(1))], [])

  lemma {:induction false} EachFollowsTheOther(i: nat, fuel: nat)
    requires i < 2
    ensures SortOne(BOTH, i, fuel) == Looping
    decreases fuel
  {
    assert Names(BOTH.cs) == [1, 2];
    assert RIndex([1, 2], 1) == 0 && RIndex([1, 2], 2) == 1;
    assert BOTH.cs[0 := BOTH.cs[0].(after := To(2))] == BOTH.cs;
    assert BOTH.cs[1 := BOTH.cs[1].(after := To(1))] == BOTH.cs;
    assert BeforeStep(BOTH, i) == Some(BOTH);
    if fuel > 0 {
      EachFollowsTheOther(1 - i, fuel - 1);
      assert TellTarget(BOTH, i, 1 - i) == BOTH;
    }
  }

  const FORWARD := [Callback(1, To(2), Unset), Callback(2, Unset, To(3)), Callback(3, Unset, Unset)]

  const TOLD := [Callback(1, To(2), Unset), Callback(2, Unset, To(1)), Callback(3, Unset, Unset)]

  lemma ForwardFirst(fuel: nat)
    ensures SortOne(State(FORWARD, []), 0, fuel) == Sorted(State(TOLD, [1]))
  {
  }

  lemma ForwardSecond(fuel: nat)
    ensures SortOne(State(TOLD, [1]), 1, fuel) == Sorted(State(TOLD, [1, 2]))
  {
  }

  lemma ForwardThird(fuel: nat)
    ensures SortOne(State(TOLD, [1, 2]), 2, fuel) == Sorted(State(TOLD, [1, 2, 3]))
  {
  }

  /** A `before` that looks ahead takes the place of its target's own `after`, which is then not
      satisfied although sorting succeeds. */
  lemma ForwardBeforeLosesAfter(fuel: nat)
    ensures SortAll(FORWARD, fuel).Sorted?
    ensures !Satisfied(FORWARD[1], SortAll(FORWARD, fuel).st.sorted)
  {
    hide SortOne;
    ForwardFirst(fuel);
    ForwardSecond(fuel);
    ForwardThird(fuel);
    assert SortFrom(State(TOLD, [1, 2, 3]), 3, fuel) == Sorted(State(TOLD, [1, 2, 3]));
    assert SortFrom(State(TOLD, [1, 2]), 2, fuel) == Sorted(State(TOLD, [1, 2, 3]));
    assert SortFrom(State(TOLD, [1]), 1, fuel) == Sorted(State(TOLD, [1, 2, 3]));
    assert RIndex([1, 2, 3], 2) == 1 && RIndex([1, 2, 3], 3) == 2;
  }

  const OPPOSED := [Callback(1, Unset, Unset), Callback(2, Unset, Unset), Callback(3, To(1), To(2))]

  lemma OpposedHasNoPlace()
    ensures LooksBack(OPPOSED) && OrderFrom(OPPOSED, 0, []) == None
  {
  }

  /** Sorting can fail although an order with every constraint satisfied exists: places once given
      are not revised. */
  lemma ConflictDespiteAnOrder(fuel: nat)
    ensures SortAll(OPPOSED, fuel) == Conflict
    ensures forall c <- OPPOSED :: Satisfied(c, [2, 3, 1])
  {
    hide SortOne;
    hide LooksBack;
    hide OrderFrom;
    hide SortAll;
    OpposedHasNoPlace();
    LooksBackSorts(OPPOSED, fuel);
    var order := [2, 3, 1];
    assert order[0] == 2 && order[1] == 3 && order[2] == 1;
  }

  // ----- the sort as it is carried out, on the shared list of callbacks

  datatype Verdict = Done | Failed | TooDeep

  /** The variables that the recursive closure shares. */
  class Sorter {
    var cs: seq<Callback>
    var sorted: seq<Name>

    constructor (callbacks: seq<Callback>)
      ensures View() == State(callbacks, [])
    {
      cs, sorted := callbacks, [];
    }

    function View(): State
      reads this
    {
      State(cs, sorted)
    }

    /** Looks for a name from the right. */
    static method GetRIndex(strs: seq<Name>, str: Name) returns (r: int)
      ensures r == RIndex(strs, str)
    {
      r := |strs| - 1;
      while r >= 0
        invariant -1 <= r < |strs|
        invariant forall k :: r < k < |strs| ==> strs[k] != str
      {
        if strs[r] == str { return; }
        r := r - 1;
      }
    }

    /** Deals with the i-th callback's `before`. */
    method PlaceBefore(i: nat) returns (ok: bool)
      requires i < |cs|
      modifies this
      ensures match BeforeStep(old(View()), i)
              case Some(st) => ok && View() == st
              case None => !ok
    {
      var c := cs[i];
      ok := true;
      match c.before {
        case Unset =>
        case Everyone =>
          if |sorted| > 0 {
            var cur := GetRIndex(sorted, c.name);
            if cur == -1 { sorted := [c.name] + sorted; }
          }
        case To(b) =>
          var at := GetRIndex(sorted, b);
          if at != -1 {
            var cur := GetRIndex(sorted, c.name);
            if cur == -1 {
              sorted := sorted[..at] + ([c.name] + sorted[at..]);
              assert sorted == InsertAt(old(sorted), at, c.name);
            } else if cur > at {
              ok := false;
            }
          } else {
            var idx := GetRIndex(Names(cs), b);
            if idx != -1 { cs := cs[idx := cs[idx].(after := To(c.name))]; }
          }
      }
    }

    /** Sorts the i-th callback, and the one it is to follow before it. */
    method SortCallback(i: nat, fuel: nat) returns (v: Verdict)
      requires i < |cs|
      modifies this
      ensures match SortOne(old(View()), i, fuel)
              case Sorted(st) => v == Done && View() == st
              case Conflict => v == Failed
              case Looping => v == TooDeep
      decreases fuel
    {
      hide BeforeStep;
      var ok := PlaceBefore(i);
      if !ok { return Failed; }
      ghost var s := View();
      match cs[i].after {
        case Unset =>
        case Everyone =>
        case To(a) =>
          var at := GetRIndex(sorted, a);
          if at != -1 {
            var cur := GetRIndex(sorted, cs[i].name);
            if cur != -1 && cur < at { return Failed; }
          } else {
            var idx := GetRIndex(Names(cs), a);
            if idx != -1 {
              if fuel == 0 { return TooDeep; }
              v := FollowTarget(i, idx, fuel);
              if v != Done { return; }
            }
          }
      }
      Append(i);
      v := Done;
    }

    /** Sorts the callback at idx and then the i-th again. */
    method FollowTarget(i: nat, idx: nat, fuel: nat) returns (v: Verdict)
      requires i < |cs| && idx < |cs| && fuel > 0
      modifies this
      ensures match SortTargetFirst(old(View()), i, idx, fuel - 1)
              case Sorted(st) => v == Done && |cs| == old(|cs|) && Settle(View(), i) == st
              case Conflict => v == Failed
              case Looping => v == TooDeep
      decreases fuel, 0
    {
      hide SortOne;
      if cs[idx].before.Unset? {
        cs := cs[idx := cs[idx].(before := To(cs[i].name))];
      }
      v := SortCallback(idx, fuel - 1);
      if v == Done {
        v := SortCallback(i, fuel - 1);
      }
    }

    /** A callback that has not been placed goes last. */
    method Append(i: nat)
      requires i < |cs|
      modifies this
      ensures View() == Settle(old(View()), i)
    {
      var cur := GetRIndex(sorted, cs[i].name);
      if cur == -1 { sorted := sorted + [cs[i].name]; }
    }

    method Sort(fuel: nat) returns (v: Verdict)
      modifies this
      ensures match SortFrom(old(View()), 0, fuel)
              case Sorted(st) => v == Done && View() == st
              case Conflict => v == Failed
              case Looping => v == TooDeep
    {
      hide SortOne;
      v := Done;
      var i := 0;
      while i < |cs|
        invariant i <= |cs|
        invariant SortFrom(View(), i, fuel) == SortFrom(old(View()), 0, fuel)
        invariant v == Done
        decreases |cs| - i
      {
        v := SortCallback(i, fuel);
        if v != Done { return; }
        i := i + 1;
      }
    }
  }
}
