/** What a single move of a caller keeps, part by part of the invariant. */
module PreparedSteps {
  import opened Options
  import opened PreparedStmt

  lemma StepKeepsLock(s: State, t: Tid, c: Choice)
    requires LockOk(s.mux, |s.threads|) && t < |s.threads| && Act(s, t, c).Some?
    requires Booked(s.mux, t, s.threads[t].pc)
    ensures LockOk(Act(s, t, c).value.mux, |s.threads|)
    ensures |Act(s, t, c).value.threads| == |s.threads|
  {
  }

  lemma StepKeepsBooks(s: State, t: Tid, c: Choice, u: Tid)
    requires LockOk(s.mux, |s.threads|) && t < |s.threads| && u < |s.threads| && Act(s, t, c).Some?
    requires Booked(s.mux, t, s.threads[t].pc) && Booked(s.mux, u, s.threads[u].pc)
    ensures |Act(s, t, c).value.threads| == |s.threads|
    ensures Booked(Act(s, t, c).value.mux, u, Act(s, t, c).value.threads[u].pc)
  {
    hide Lookup;
    hide Usable;
  }

  lemma PrepareKeepsStmts(s: State, t: Tid, c: Choice, x: StmtId)
    requires t < |s.threads| && s.threads[t].call.Prepare? && ThreadOk(s, t, s.threads[t])
    requires Prepares(s, t, c).Some? && x < |Prepares(s, t, c).value.stmts|
    requires x < |s.stmts| ==> StmtOk(s, x)
    ensures StmtOk(Prepares(s, t, c).value, x)
  {
    hide Lookup;
    hide Usable;
    hide Unlocked;
    hide Matches;
  }

  lemma StepKeepsStmts(s: State, t: Tid, c: Choice, x: StmtId)
    requires t < |s.threads| && ThreadOk(s, t, s.threads[t])
    requires Act(s, t, c).Some? && x < |Act(s, t, c).value.stmts|
    requires x < |s.stmts| ==> StmtOk(s, x)
    ensures StmtOk(Act(s, t, c).value, x)
  {
    hide Prepares;
    hide Unlocked;
    if s.threads[t].call.Prepare? && Prepares(s, t, c).Some? && x < |Prepares(s, t, c).value.stmts| {
      PrepareKeepsStmts(s, t, c, x);
    }
  }

  lemma PrepareKeepsStore(s: State, t: Tid, c: Choice, q: Query)
    requires t < |s.threads| && s.threads[t].call.Prepare? && ThreadOk(s, t, s.threads[t])
    requires Prepares(s, t, c).Some? && q in Prepares(s, t, c).value.store
    requires q in s.store ==> StoreOk(s, q)
    ensures StoreOk(Prepares(s, t, c).value, q)
  {
    hide Lookup;
    hide Usable;
    hide Unlocked;
  }

  lemma StepKeepsStore(s: State, t: Tid, c: Choice, q: Query)
    requires t < |s.threads| && ThreadOk(s, t, s.threads[t])
    requires Act(s, t, c).Some? && q in Act(s, t, c).value.store
    requires q in s.store ==> StoreOk(s, q)
    ensures StoreOk(Act(s, t, c).value, q)
  {
    hide Prepares;
    hide Unlocked;
    if s.threads[t].call.Prepare? && Prepares(s, t, c).Some? && q in Prepares(s, t, c).value.store {
      PrepareKeepsStore(s, t, c, q);
    }
  }

  /** A move of t changes no statement but one of its own that is still open. */
  ghost predicate Evolves(s: State, s': State, t: Tid) {
    && |s.stmts| <= |s'.stmts|
    && forall x :: 0 <= x < |s.stmts| ==>
         && s'.stmts[x].query == s.stmts[x].query && s'.stmts[x].creator == s.stmts[x].creator
         && s'.stmts[x].transaction == s.stmts[x].transaction
         && ((s.stmts[x].creator == t && !s.stmts[x].prepared) || s'.stmts[x] == s.stmts[x])
  }

  lemma StepEvolves(s: State, t: Tid, c: Choice)
    requires t < |s.threads| && ThreadOk(s, t, s.threads[t]) && Act(s, t, c).Some?
    ensures Evolves(s, Act(s, t, c).value, t)
  {
  }

  lemma OthersStayOk(s: State, s': State, t: Tid, u: Tid, th: Thread)
    requires u != t && Evolves(s, s', t) && ThreadOk(s, u, th)
    ensures ThreadOk(s', u, th)
  {
  }

  lemma PreparerOk(s: State, t: Tid, c: Choice)
    requires t < |s.threads| && s.threads[t].call.Prepare? && ThreadOk(s, t, s.threads[t])
    requires Prepares(s, t, c).Some?
    requires var q := s.threads[t].call.query; q in s.store ==> StoreOk(s, q)
    ensures |Prepares(s, t, c).value.threads| == |s.threads|
    ensures ThreadOk(Prepares(s, t, c).value, t, Prepares(s, t, c).value.threads[t])
    ensures forall u :: 0 <= u < |s.threads| && u != t ==> Prepares(s, t, c).value.threads[u] == s.threads[u]
  {
  }

  lemma MoverOk(s: State, t: Tid, c: Choice)
    requires t < |s.threads| && ThreadOk(s, t, s.threads[t]) && Act(s, t, c).Some?
    requires var call := s.threads[t].call; call.Prepare? && call.query in s.store ==> StoreOk(s, call.query)
    ensures |Act(s, t, c).value.threads| == |s.threads|
    ensures ThreadOk(Act(s, t, c).value, t, Act(s, t, c).value.threads[t])
    ensures forall u :: 0 <= u < |s.threads| && u != t ==> Act(s, t, c).value.threads[u] == s.threads[u]
  {
    hide Prepares;
    hide Unlocked;
    if s.threads[t].call.Prepare? && Prepares(s, t, c).Some? {
      PreparerOk(s, t, c);
    }
  }
}
