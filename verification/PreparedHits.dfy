/** When a cached statement is used, when the driver is asked, and what comes of its answer. */
module PreparedHits {
  import opened Options
  import opened PreparedRuns
  import opened PreparedSteps
  import opened PreparedStmt

  /** One move of t, then another. */
  function TwoMoves(s: State, t: Tid, c: Choice, d: Choice): Option<State> {
    match Next(s, Move(t, c))
    case Some(s') => Next(s', Move(t, d))
    case None => None
  }

  /** The statement stored for q is finished, and a caller may use it: it was prepared outside a transaction, or
      the caller is in one. */
  ghost predicate Ready(s: State, q: Query, isTransaction: bool) {
    && q in s.store && s.store[q] < |s.stmts|
    && s.stmts[s.store[q]].prepared && (!s.stmts[s.store[q]].transaction || isTransaction)
  }

  /** t has returned with the statement stored for q, and nothing else has changed but the lock. */
  ghost predicate Hit(s: State, t: Tid, q: Query, s': State)
    requires t < |s.threads| && q in s.store && s.store[q] < |s.stmts|
  {
    var x := s.store[q];
    && s'.threads == s.threads[t := Thread(s.threads[t].call, Returned(x, s.stmts[x].err))]
    && s'.stmts == s.stmts && s'.store == s.store
  }

  /** A caller with the read lock whose statement is ready has it after two moves, without the write lock and
      without the driver. */
  lemma ReadHit(s: State, t: Tid, c: Choice, d: Choice)
    requires Inv(s) && t < |s.threads| && s.threads[t].pc == ReadHeld && s.threads[t].call.Prepare?
    requires Ready(s, s.threads[t].call.query, s.threads[t].call.isTransaction) && !c.expired
    ensures TwoMoves(s, t, c, d).Some?
    ensures Hit(s, t, s.threads[t].call.query, TwoMoves(s, t, c, d).value)
    ensures TwoMoves(s, t, c, d).value.mux == s.mux.(readers := s.mux.readers - {t})
  {
    var x := s.store[s.threads[t].call.query];
    var s1 := Next(s, Move(t, c)).value;
    assert s1 == s.(threads := s.threads[t := Thread(s.threads[t].call, ReadWait(x))]);
    assert s1.threads[t := Thread(s.threads[t].call, Returned(x, s.stmts[x].err))]
        == s.threads[t := Thread(s.threads[t].call, Returned(x, s.stmts[x].err))];
  }

  /** The same with the write lock, when another caller has prepared it meanwhile. */
  lemma WriteHit(s: State, t: Tid, c: Choice, d: Choice)
    requires Inv(s) && t < |s.threads| && s.threads[t].pc == WriteHeld && s.threads[t].call.Prepare?
    requires Ready(s, s.threads[t].call.query, s.threads[t].call.isTransaction) && !c.expired
    ensures TwoMoves(s, t, c, d).Some?
    ensures Hit(s, t, s.threads[t].call.query, TwoMoves(s, t, c, d).value)
    ensures TwoMoves(s, t, c, d).value.mux == s.mux.(writer := None)
  {
    var x := s.store[s.threads[t].call.query];
    var s1 := Next(s, Move(t, c)).value;
    assert s1 == s.(threads := s.threads[t := Thread(s.threads[t].call, WriteWait(x))]);
    assert s1.threads[t := Thread(s.threads[t].call, Returned(x, s.stmts[x].err))]
        == s.threads[t := Thread(s.threads[t].call, Returned(x, s.stmts[x].err))];
  }

  /** A statement that is not finished is waited for, with the lock in hand. */
  lemma WaitsForAnother(s: State, t: Tid, c: Choice)
    requires Inv(s) && t < |s.threads| && s.threads[t].call.Prepare?
    requires (s.threads[t].pc.ReadWait? || s.threads[t].pc.WriteWait?) && !s.stmts[s.threads[t].pc.x].prepared
    ensures Next(s, Move(t, c)) == None
  {
  }

  /** A writer that has the lock, or has asked for it, keeps new readers and writers out; otherwise a caller that
      begins gets the read lock. */
  lemma WriterKeepsOthersOut(s: State, t: Tid, c: Choice)
    requires Inv(s) && t < |s.threads| && (s.threads[t].pc.Start? || s.threads[t].pc.WantWrite?)
    ensures Next(s, Move(t, c)).Some? <==> s.mux.writer.None? && s.mux.pending.None?
    ensures Next(s, Move(t, c)).Some? && s.threads[t].pc.Start? ==>
              Next(s, Move(t, c)) == Some(s.(threads := s.threads[t := Thread(s.threads[t].call, ReadHeld)],
                                             mux := s.mux.(readers := s.mux.readers + {t})))
  {
    assert ThreadOk(s, t, s.threads[t]);
  }

  /** Why a caller stores a statement of its own: there is none, it has expired, or the one that it found belongs
      to a transaction and the caller to none. */
  ghost predicate Misses(s: State, t: Tid, c: Choice)
    requires t < |s.threads|
  {
    var th := s.threads[t];
    && th.call.Prepare?
    && ((th.pc == WriteHeld && (th.call.query !in s.store || c.expired))
        || (th.pc.WriteWait? && th.pc.x < |s.stmts| && s.stmts[th.pc.x].prepared
            && s.stmts[th.pc.x].transaction && !th.call.isTransaction))
  }

  lemma MissIsMiss(s: State, t: Tid, c: Choice)
    requires Inv(s) && t < |s.threads| && Next(s, Move(t, c)).Some?
    ensures t < |Next(s, Move(t, c)).value.threads|
    ensures Next(s, Move(t, c)).value.threads[t].pc == WriteMiss <==> Misses(s, t, c)
  {
    assert ThreadOk(s, t, s.threads[t]);
  }

  /** On the way to the driver, in it, or just behind it. */
  predicate Preparer(pc: Pc) { pc.WriteMiss? || pc.WriteSet? || pc.Preparing? || pc.FailDelete? || pc.Announce? }

  lemma PreparerBegins(s: State, t: Tid, c: Choice)
    requires Inv(s) && t < |s.threads| && Next(s, Move(t, c)).Some?
    ensures t < |Next(s, Move(t, c)).value.threads|
    ensures Preparer(Next(s, Move(t, c)).value.threads[t].pc) ==> Preparer(s.threads[t].pc) || Misses(s, t, c)
  {
    assert ThreadOk(s, t, s.threads[t]);
  }

  /** In every run, a caller that prepares has missed before. */
  lemma {:induction false} PreparesOnMiss(ss: seq<State>, es: seq<Event>, calls: seq<Call>, n: nat, t: Tid)
    requires Run(ss, es) && ss[0] == Init(calls) && n <= |es|
    requires t < |ss[n].threads| && Preparer(ss[n].threads[t].pc)
    ensures
      exists i :: 0 <= i < n && es[i].Move? && es[i].t == t && t < |ss[i].threads| && Misses(ss[i], t, es[i].choice)
  {
    if n > 0 {
      hide Next;
      hide Inv;
      hide Misses;
      var s, e := ss[n - 1], es[n - 1];
      RunKeepsInv(ss, es, calls, n - 1);
      assert Next(s, e) == Some(ss[n]);
      OnlyMoverMoves(s, e, t);
      if Preparer(s.threads[t].pc) {
        PreparesOnMiss(ss, es, calls, n - 1, t);
      } else {
        PreparerBegins(s, t, e.choice);
      }
    }
  }

  lemma OnlyMoverMoves(s: State, e: Event, t: Tid)
    requires Inv(s) && Next(s, e).Some? && t < |Next(s, e).value.threads|
    ensures t < |s.threads|
    ensures Next(s, e).value.threads[t].pc == s.threads[t].pc || (e.Move? && e.t == t)
  {
    hide Inv;
    hide Usable;
    hide Unlocked;
  }

  /** The driver's answer is what the preparer returns and what the statement keeps; after an error the entry
      is gone, otherwise the handle is set. */
  lemma AnswerIsKept(s: State, t: Tid, c: Choice, d: Choice, e: Choice)
    requires Inv(s) && t < |s.threads| && s.threads[t].pc.Preparing?
    ensures
      var x, th := s.threads[t].pc.x, s.threads[t];
      && x < |s.stmts|
      && (c.driver.None? ==>
            TwoMoves(s, t, c, d)
            == Some(s.(threads := s.threads[t := Thread(th.call, Returned(x, None))],
                       stmts := s.stmts[x := s.stmts[x].(handle := true, prepared := true)])))
      && (c.driver.Some? ==>
            TwoMoves(s, t, c, d).Some?
            && Next(TwoMoves(s, t, c, d).value, Move(t, e))
               == Some(s.(threads := s.threads[t := Thread(th.call, Returned(x, c.driver))],
                          stmts := s.stmts[x := s.stmts[x].(err := c.driver, prepared := true)],
                          store := s.store - {th.call.query})))
  {
    assert ThreadOk(s, t, s.threads[t]);
    var x, th := s.threads[t].pc.x, s.threads[t];
    var s1 := Next(s, Move(t, c)).value;
    if c.driver.None? {
      Twice(s.threads, t, Thread(th.call, Announce(x)), Thread(th.call, Returned(x, None)));
      Twice(s.stmts, x, s.stmts[x].(handle := true), s.stmts[x].(handle := true, prepared := true));
    } else {
      var s2 := TwoMoves(s, t, c, d).value;
      Twice(s.threads, t, Thread(th.call, FailDelete(x)), Thread(th.call, Announce(x)));
      Twice(s.threads, t, Thread(th.call, Announce(x)), Thread(th.call, Returned(x, c.driver)));
      assert s2 == s.(threads := s.threads[t := Thread(th.call, Announce(x))],
                      stmts := s.stmts[x := s.stmts[x].(err := c.driver)], store := s.store - {th.call.query});
      Twice(s.stmts, x, s.stmts[x].(err := c.driver), s.stmts[x].(err := c.driver, prepared := true));
    }
  }

  lemma Twice<T>(s: seq<T>, i: nat, a: T, b: T)
    requires i < |s|
    ensures s[i := a][i := b] == s[i := b] && s[i := a][i] == a
  {
  }

  /** Close deletes the keys it goes through, one at a time, and nothing else. */
  lemma CloseDeletes(s: State, t: Tid, c: Choice)
    requires Inv(s) && t < |s.threads| && s.threads[t].pc == CloseHeld
    ensures c.key.Some? && c.key.value in s.store ==>
              Next(s, Move(t, c)) == Some(s.(store := s.store - {c.key.value}))
    ensures c.key.None? ==>
              Next(s, Move(t, c)) == Some(s.(threads := s.threads[t := Thread(s.threads[t].call, Closed)],
                                             mux := s.mux.(writer := None)))
  {
    assert ThreadOk(s, t, s.threads[t]);
  }
}
