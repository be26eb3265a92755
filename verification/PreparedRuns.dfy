/** What every run keeps, and what callers receive. */
module PreparedRuns {
  import opened Options
  import opened PreparedSteps
  import opened PreparedStmt

  lemma MoveKeepsInv(s: State, t: Tid, c: Choice)
    requires Inv(s) && t < |s.threads| && Act(s, t, c).Some?
    ensures Inv(Act(s, t, c).value)
  {
    var s' := Act(s, t, c).value;
    hide Act;
    hide StmtOk;
    hide StoreOk;
    hide ThreadOk;
    hide Booked;
    hide LockOk;
    hide Evolves;
    StepKeepsLock(s, t, c);
    StepEvolves(s, t, c);
    MoverOk(s, t, c);
    forall u | 0 <= u < |s'.threads|
      ensures ThreadOk(s', u, s'.threads[u]) && Booked(s'.mux, u, s'.threads[u].pc)
    {
      StepKeepsBooks(s, t, c, u);
      if u != t {
        OthersStayOk(s, s', t, u, s.threads[u]);
      }
    }
    forall x | 0 <= x < |s'.stmts|
      ensures StmtOk(s', x)
    {
      StepKeepsStmts(s, t, c, x);
    }
    forall q | q in s'.store
      ensures StoreOk(s', q)
    {
      StepKeepsStore(s, t, c, q);
    }
  }

  lemma StepKeepsInv(s: State, e: Event)
    requires Inv(s) && Next(s, e).Some?
    ensures Inv(Next(s, e).value)
  {
    match e
    case Move(t, c) => MoveKeepsInv(s, t, c);
    case Evict(q) =>
      var s' := Next(s, e).value;
      assert forall k <- s'.store :: k in s.store && s'.store[k] == s.store[k];
      assert forall k <- s'.store :: StoreOk(s, k);
      EvictKeepsRest(s, s');
  }

  lemma EvictKeepsRest(s: State, s': State)
    requires s' == s.(store := s'.store) && Inv(s)
    ensures forall t :: 0 <= t < |s'.threads| ==> ThreadOk(s', t, s'.threads[t])
    ensures forall x :: 0 <= x < |s'.stmts| ==> StmtOk(s', x)
  {
    forall t | 0 <= t < |s'.threads|
      ensures ThreadOk(s', t, s'.threads[t])
    {
      assert ThreadOk(s, t, s.threads[t]);
    }
    forall x | 0 <= x < |s'.stmts|
      ensures StmtOk(s', x)
    {
      assert StmtOk(s, x);
    }
  }

  lemma InitInv(calls: seq<Call>)
    ensures Inv(Init(calls))
  {
  }

  /** Every state of every run satisfies the invariant. */
  lemma {:induction false} RunKeepsInv(ss: seq<State>, es: seq<Event>, calls: seq<Call>, n: nat)
    requires Run(ss, es) && ss[0] == Init(calls) && n <= |es|
    ensures Inv(ss[n])
  {
    hide Next;
    hide Inv;
    InitInv(calls);
    if n > 0 {
      RunKeepsInv(ss, es, calls, n - 1);
      var i := n - 1;
      assert Next(ss[i], es[i]) == Some(ss[i + 1]);
      StepKeepsInv(ss[i], es[i]);
    }
  }

  // ----- what callers receive

  /** A caller only gets a finished statement for its own query; outside a transaction it never
      gets one that was prepared inside one; without an error it gets a live handle. */
  lemma ReceivesFinished(ss: seq<State>, es: seq<Event>, calls: seq<Call>, n: nat, t: Tid)
    requires Run(ss, es) && ss[0] == Init(calls) && n <= |es|
    requires t < |ss[n].threads| && ss[n].threads[t].pc.Returned?
    ensures
      var th, x := ss[n].threads[t], ss[n].threads[t].pc.x;
      && th.call.Prepare? && x < |ss[n].stmts|
      && var st := ss[n].stmts[x];
         && st.prepared && st.query == th.call.query
         && (st.transaction ==> th.call.isTransaction)
         && st.err == th.pc.err && (st.err.None? <==> st.handle)
  {
    RunKeepsInv(ss, es, calls, n);
    assert ThreadOk(ss[n], t, ss[n].threads[t]);
    assert StmtOk(ss[n], ss[n].threads[t].pc.x);
  }

  /** Once `prepared` is closed a statement's outcome never changes. */
  lemma {:induction false} OutcomeFixed(ss: seq<State>, es: seq<Event>, calls: seq<Call>, m: nat, n: nat, x: StmtId)
    requires Run(ss, es) && ss[0] == Init(calls) && m <= n <= |es|
    requires x < |ss[m].stmts| && ss[m].stmts[x].prepared
    ensures x < |ss[n].stmts| && ss[n].stmts[x] == ss[m].stmts[x]
  {
    if m < n {
      hide Act;
      OutcomeFixed(ss, es, calls, m, n - 1, x);
      RunKeepsInv(ss, es, calls, n - 1);
      var s, e := ss[n - 1], es[n - 1];
      if e.Move? {
        StepEvolves(s, e.t, e.choice);
      }
    }
  }

  /** All callers that share a statement see the same outcome, whenever they return. */
  lemma SharersAgree(ss: seq<State>, es: seq<Event>, calls: seq<Call>, m: nat, n: nat, t: Tid, u: Tid)
    requires Run(ss, es) && ss[0] == Init(calls) && m <= n <= |es|
    requires t < |ss[m].threads| && u < |ss[n].threads|
    requires ss[m].threads[t].pc.Returned? && ss[n].threads[u].pc.Returned?
    requires ss[m].threads[t].pc.x == ss[n].threads[u].pc.x
    ensures ss[m].threads[t].pc.err == ss[n].threads[u].pc.err
  {
    ReceivesFinished(ss, es, calls, m, t);
    ReceivesFinished(ss, es, calls, n, u);
    OutcomeFixed(ss, es, calls, m, n, ss[m].threads[t].pc.x);
  }

  /** Once a failure is announced no key leads to the failed statement. */
  lemma FailedIsUnmapped(ss: seq<State>, es: seq<Event>, calls: seq<Call>, n: nat, q: Query, x: StmtId)
    requires Run(ss, es) && ss[0] == Init(calls) && n <= |es|
    requires x < |ss[n].stmts| && ss[n].stmts[x].prepared && ss[n].stmts[x].err.Some?
    ensures q in ss[n].store ==> ss[n].store[q] != x
  {
    RunKeepsInv(ss, es, calls, n);
    if q in ss[n].store {
      StoredHasNotFailed(ss[n], q);
    }
  }

  lemma StoredHasNotFailed(s: State, q: Query)
    requires Inv(s) && q in s.store
    ensures s.store[q] < |s.stmts|
    ensures s.stmts[s.store[q]].err.Some? ==> !s.stmts[s.store[q]].prepared
  {
  }
}
