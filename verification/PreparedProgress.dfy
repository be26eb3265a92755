/** No caller waits for ever. */
module PreparedProgress {
  import opened Options
  import opened PreparedRuns
  import opened PreparedStmt

  // ----- no deadlock

  predicate Finished(pc: Pc) { pc.Returned? || pc.Closed? }

  predicate CanMove(s: State, t: Tid) {
    t < |s.threads| && Act(s, t, PLAIN).Some?
  }

  /** Whoever waits for `prepared` waits for a caller that can go on. */
  lemma WaiterOrMaker(s: State, t: Tid) returns (u: Tid)
    requires Inv(s) && t < |s.threads|
    requires s.threads[t].pc.ReadWait? || s.threads[t].pc.WriteWait?
    ensures CanMove(s, u)
  {
    var x := s.threads[t].pc.x;
    assert ThreadOk(s, t, s.threads[t]) && StmtOk(s, x);
    if s.stmts[x].prepared {
      u := t;
    } else {
      u := s.stmts[x].creator;
      assert ThreadOk(s, u, s.threads[u]);
    }
  }

  lemma HolderCanMove(s: State, t: Tid) returns (u: Tid)
    requires Inv(s) && t < |s.threads|
    requires HoldsRead(s.threads[t].pc) || HoldsWrite(s.threads[t].pc)
    ensures CanMove(s, u)
  {
    assert ThreadOk(s, t, s.threads[t]);
    if s.threads[t].pc.ReadWait? || s.threads[t].pc.WriteWait? {
      u := WaiterOrMaker(s, t);
    } else {
      u := t;
    }
  }

  lemma QueuedCanMove(s: State, t: Tid) returns (u: Tid)
    requires Inv(s) && t < |s.threads| && s.threads[t].pc.WriteQueued?
    ensures CanMove(s, u)
  {
    if s.mux.readers == {} {
      u := t;
    } else {
      var r :| r in s.mux.readers;
      assert Booked(s.mux, r, s.threads[r].pc);
      u := HolderCanMove(s, r);
    }
  }

  /** While a call is unfinished, some caller can take a step. */
  lemma NoDeadlock(s: State, t: Tid) returns (u: Tid)
    requires Inv(s) && t < |s.threads| && !Finished(s.threads[t].pc)
    ensures CanMove(s, u)
  {
    var pc, m := s.threads[t].pc, s.mux;
    assert ThreadOk(s, t, s.threads[t]);
    if pc.ReadWait? || pc.WriteWait? {
      u := WaiterOrMaker(s, t);
    } else if pc.WriteQueued? {
      u := QueuedCanMove(s, t);
    } else if (pc.Start? || pc.WantWrite?) && m.writer.Some? {
      assert Booked(m, m.writer.value, s.threads[m.writer.value].pc);
      u := HolderCanMove(s, m.writer.value);
    } else if (pc.Start? || pc.WantWrite?) && m.pending.Some? {
      assert Booked(m, m.pending.value, s.threads[m.pending.value].pc);
      u := QueuedCanMove(s, m.pending.value);
    } else {
      u := t;
    }
  }

  /** An upper bound on the steps a caller has before it. */
  function Rank(pc: Pc): nat {
    match pc
    case Start => 13
    case ReadHeld => 12
    case ReadWait(_) => 11
    case WantWrite => 10
    case WriteQueued => 9
    case WriteHeld => 8
    case CloseHeld => 8
    case WriteWait(_) => 7
    case WriteMiss => 6
    case WriteSet(_) => 4
    case Preparing(_) => 3
    case FailDelete(_) => 2
    case Announce(_) => 1
    case Returned(_, _) => 0
    case Closed => 0
  }

  function Ranks(ths: seq<Thread>): nat {
    if ths == [] then 0 else Rank(ths[0].pc) + Ranks(ths[1..])
  }

  /** Every stored key can be evicted once. */
  function Measure(s: State): nat {
    Ranks(s.threads) + |s.store|
  }

  lemma {:induction false} RanksUpdate(ths: seq<Thread>, t: Tid, th: Thread)
    requires t < |ths|
    ensures Ranks(ths[t := th]) + Rank(ths[t].pc) == Ranks(ths) + Rank(th.pc)
  {
    if t > 0 {
      RanksUpdate(ths[1..], t - 1, th);
      assert ths[t := th][1..] == ths[1..][t - 1 := th];
    }
  }

  lemma StepDecreases(s: State, e: Event)
    requires Next(s, e).Some?
    ensures Measure(Next(s, e).value) < Measure(s)
  {
    var s' := Next(s, e).value;
    match e
    case Evict(q) => assert s'.store.Keys == s.store.Keys - {q};
    case Move(t, c) =>
      RanksUpdate(s.threads, t, s'.threads[t]);
      MoveChangesStore(s, t, c);
  }

  lemma MoveShape(s: State, t: Tid, c: Choice)
    requires t < |s.threads| && Act(s, t, c).Some?
    ensures var s' := Act(s, t, c).value; t < |s'.threads| && s'.threads == s.threads[t := s'.threads[t]]
  {
  }

  /** The ways a move can touch the store, with what it costs in rank. */
  ghost predicate StoreMove(s: State, th: Thread, th': Thread, store': map<Query, StmtId>, c: Choice) {
    || (store' == s.store && Rank(th'.pc) < Rank(th.pc))
    || (th.call.Prepare? && store' == s.store - {th.call.query} && Rank(th'.pc) < Rank(th.pc))
    || (th.call.Prepare? && store' == s.store[th.call.query := |s.stmts|] && Rank(th'.pc) + 1 < Rank(th.pc))
    || (c.key.Some? && c.key.value in s.store && store' == s.store - {c.key.value} && th' == th)
  }

  lemma PrepareTouchesStore(s: State, t: Tid, c: Choice)
    requires t < |s.threads| && s.threads[t].call.Prepare? && Prepares(s, t, c).Some?
    ensures t < |Prepares(s, t, c).value.threads|
    ensures StoreMove(s, s.threads[t], Prepares(s, t, c).value.threads[t], Prepares(s, t, c).value.store, c)
  {
    hide Lookup;
    hide Usable;
    hide Unlocked;
  }

  lemma MoveTouchesStore(s: State, t: Tid, c: Choice)
    requires t < |s.threads| && Act(s, t, c).Some?
    ensures t < |Act(s, t, c).value.threads|
    ensures StoreMove(s, s.threads[t], Act(s, t, c).value.threads[t], Act(s, t, c).value.store, c)
  {
    hide Prepares;
    hide Unlocked;
    if s.threads[t].call.Prepare? && Prepares(s, t, c).Some? {
      PrepareTouchesStore(s, t, c);
    }
  }

  lemma MoveChangesStore(s: State, t: Tid, c: Choice)
    requires t < |s.threads| && Act(s, t, c).Some?
    ensures var s' := Act(s, t, c).value;
      && t < |s'.threads| && s'.threads == s.threads[t := s'.threads[t]]
      && Rank(s'.threads[t].pc) + |s'.store| < Rank(s.threads[t].pc) + |s.store|
  {
    hide Act;
    hide Rank;
    MoveShape(s, t, c);
    MoveTouchesStore(s, t, c);
    var call := s.threads[t].call;
    if call.Prepare? {
      StoreCount(s.store, call.query, |s.stmts|);
    }
    if c.key.Some? {
      StoreCount(s.store, c.key.value, 0);
    }
  }

  lemma StoreCount(store: map<Query, StmtId>, q: Query, x: StmtId)
    ensures |store[q := x]| <= |store| + 1
    ensures |store - {q}| == |store| - (if q in store then 1 else 0)
  {
  }

  lemma {:induction false} InitRanks(calls: seq<Call>)
    ensures Measure(Init(calls)) <= 13 * |calls|
  {
    InitRanksOf(calls, Init(calls).threads);
  }

  lemma {:induction false} InitRanksOf(calls: seq<Call>, ths: seq<Thread>)
    requires |calls| == |ths|
    ensures Ranks(ths) <= 13 * |calls|
  {
    if ths != [] {
      InitRanksOf(calls[1..], ths[1..]);
    }
  }

  lemma {:induction false} RunIsBounded(ss: seq<State>, es: seq<Event>, n: nat)
    requires Run(ss, es) && n <= |es|
    ensures Measure(ss[n]) + n <= Measure(ss[0])
  {
    if n > 0 {
      hide Next;
      hide Measure;
      RunIsBounded(ss, es, n - 1);
      var i := n - 1;
      assert Next(ss[i], es[i]) == Some(ss[i + 1]);
      StepDecreases(ss[i], es[i]);
    }
  }

  /** No run is longer than 13 events a caller, and one that cannot be continued by a caller
      has brought every call to its end: every call returns. */
  lemma EveryCallReturns(ss: seq<State>, es: seq<Event>, calls: seq<Call>)
    requires Run(ss, es) && ss[0] == Init(calls)
    ensures |es| <= 13 * |calls|
    ensures
      || (exists u :: CanMove(ss[|es|], u))
      || (forall t :: 0 <= t < |ss[|es|].threads| ==> Finished(ss[|es|].threads[t].pc))
  {
    InitRanks(calls);
    RunIsBounded(ss, es, |es|);
    RunKeepsInv(ss, es, calls, |es|);
    var s := ss[|es|];
    if t :| 0 <= t < |s.threads| && !Finished(s.threads[t].pc) {
      var u := NoDeadlock(s, t);
    }
  }
}
