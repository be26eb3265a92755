/** How many callers can be in the driver for one query at a time. */
module PreparedOnce {
  import opened Options
  import opened PreparedProgress
  import opened PreparedRuns
  import opened PreparedStmt

  // ----- one preparation per query at a time

  /** x is stored and on its way to the driver, or in it. */
  ghost predicate Working(s: State, x: StmtId) {
    && x < |s.stmts| && s.stmts[x].creator < |s.threads|
    && var pc := s.threads[s.stmts[x].creator].pc; pc == WriteSet(x) || pc == Preparing(x)
  }

  predicate Asks(th: Thread, q: Query) { th.call.Prepare? && th.call.query == q }

  /** The event takes the entry for q away, or takes it for expired, while its statement is being prepared. */
  ghost predicate Disturbs(s: State, e: Event, q: Query) {
    && q in s.store && Working(s, s.store[q])
    && match e
       case Evict(r) => r == q
       case Move(t, c) =>
         t < |s.threads| &&
         match s.threads[t].pc
         case CloseHeld => c.key == Some(q)
         case WriteHeld => Asks(s.threads[t], q) && c.expired
         case FailDelete(_) => Asks(s.threads[t], q)
         case _ => false
  }

  /** What a caller knows of the entry for q, if that is its query. */
  ghost predicate Keeps(s: State, q: Query, th: Thread) {
    Asks(th, q) ==>
      match th.pc
      case WriteSet(x) => q in s.store && s.store[q] == x
      case Preparing(x) => q in s.store && s.store[q] == x
      case WriteWait(x) => q in s.store ==> s.store[q] == x
      case WriteMiss => q in s.store ==> !Working(s, s.store[q])
      case _ => true
  }

  ghost predicate AllKeep(s: State, q: Query) {
    forall t :: 0 <= t < |s.threads| ==> Keeps(s, q, s.threads[t])
  }

  lemma WorkingIsOpen(s: State, x: StmtId)
    requires Inv(s) && Working(s, x)
    ensures !s.stmts[x].prepared
  {
    var t := s.stmts[x].creator;
    assert ThreadOk(s, t, s.threads[t]);
  }

  lemma MoverKeeps(s: State, t: Tid, c: Choice, q: Query)
    requires Inv(s) && t < |s.threads| && Act(s, t, c).Some?
    requires Keeps(s, q, s.threads[t]) && !Disturbs(s, Move(t, c), q)
    ensures t < |Act(s, t, c).value.threads|
    ensures Keeps(Act(s, t, c).value, q, Act(s, t, c).value.threads[t])
  {
    hide Inv;
    hide Unlocked;
    hide Usable;
    if q in s.store && Working(s, s.store[q]) {
      WorkingIsOpen(s, s.store[q]);
    }
  }

  lemma OthersKeep(s: State, t: Tid, c: Choice, u: Tid, q: Query)
    requires Inv(s) && AllKeep(s, q) && t < |s.threads| && u < |s.threads| && u != t
    requires Act(s, t, c).Some? && !Disturbs(s, Move(t, c), q)
    ensures Keeps(Act(s, t, c).value, q, s.threads[u])
  {
  }

  lemma EvictKeeps(s: State, r: Query, q: Query, u: Tid)
    requires Inv(s) && AllKeep(s, q) && u < |s.threads| && !Disturbs(s, Evict(r), q)
    ensures Keeps(s.(store := s.store - {r}), q, s.threads[u])
  {
    assert ThreadOk(s, u, s.threads[u]) && Keeps(s, q, s.threads[u]);
  }

  ghost predicate Undisturbed(ss: seq<State>, es: seq<Event>, q: Query)
    requires |ss| == |es| + 1
  {
    forall i :: 0 <= i < |es| ==> !Disturbs(ss[i], es[i], q)
  }

  lemma {:induction false} UndisturbedKeeps(ss: seq<State>, es: seq<Event>, calls: seq<Call>, n: nat, q: Query)
    requires Run(ss, es) && ss[0] == Init(calls) && n <= |es| && Undisturbed(ss, es, q)
    ensures AllKeep(ss[n], q)
  {
    if n > 0 {
      hide Act;
      hide Inv;
      hide Keeps;
      hide Disturbs;
      UndisturbedKeeps(ss, es, calls, n - 1, q);
      RunKeepsInv(ss, es, calls, n - 1);
      var s, s', e := ss[n - 1], ss[n], es[n - 1];
      assert Next(s, e) == Some(s') && !Disturbs(s, e, q);
      if e.Move? {
        MoveShape(s, e.t, e.choice);
        MoverKeeps(s, e.t, e.choice, q);
      }
      forall u | 0 <= u < |s'.threads|
        ensures Keeps(s', q, s'.threads[u])
      {
        if e.Evict? {
          EvictKeeps(s, e.query, q, u);
        } else if u != e.t {
          OthersKeep(s, e.t, e.choice, u, q);
        }
      }
    }
  }

  /** Unless an entry is taken away, or taken for expired, while its statement is being prepared, the driver
      never prepares that query twice at the same time, whatever else is evicted, expires or is closed, and
      even when transactions and other callers mix. */
  lemma OnePreparation(ss: seq<State>, es: seq<Event>, calls: seq<Call>, n: nat, q: Query, t: Tid, u: Tid)
    requires Run(ss, es) && ss[0] == Init(calls) && n <= |es| && Undisturbed(ss, es, q)
    requires t < |ss[n].threads| && u < |ss[n].threads|
    requires ss[n].threads[t].pc.Preparing? && ss[n].threads[u].pc.Preparing?
    requires Asks(ss[n].threads[t], q) && Asks(ss[n].threads[u], q)
    ensures t == u
  {
    UndisturbedKeeps(ss, es, calls, n, q);
    RunKeepsInv(ss, es, calls, n);
    assert Keeps(ss[n], q, ss[n].threads[t]) && Keeps(ss[n], q, ss[n].threads[u]);
    assert ThreadOk(ss[n], t, ss[n].threads[t]) && ThreadOk(ss[n], u, ss[n].threads[u]);
  }

  // ----- and why an entry must not be taken away

  function Exec(s: State, es: seq<Event>): Option<State>
    decreases |es|
  {
    if es == [] then Some(s)
    else match Next(s, es[0])
      case Some(s') => Exec(s', es[1..])
      case None => None
  }

  lemma {:induction false} ExecConcat(s: State, es: seq<Event>, fs: seq<Event>)
    requires Exec(s, es).Some?
    ensures Exec(s, es + fs) == Exec(Exec(s, es).value, fs)
    decreases |es|
  {
    if es == [] {
      assert es + fs == fs;
    } else {
      assert (es + fs)[1..] == es[1..] + fs;
      ExecConcat(Next(s, es[0]).value, es[1..], fs);
    }
  }

  /** The same move, n times. */
  function Repeat(m: Event, n: nat): seq<Event> {
    if n == 0 then [] else [m] + Repeat(m, n - 1)
  }

  lemma {:induction false} RepeatOnly(m: Event, n: nat)
    ensures forall e <- Repeat(m, n) :: e == m
  {
    if n > 0 {
      RepeatOnly(m, n - 1);
    }
  }

  lemma ExecFirst(s: State, m: Event, s': State, n: nat, end: State)
    requires Next(s, m) == Some(s') && Exec(s', Repeat(m, n)) == Some(end)
    ensures Exec(s, Repeat(m, n + 1)) == Some(end)
  {
  }

  lemma Regoto(s: State, t: Tid, pc: Pc, pc': Pc)
    requires t < |s.threads|
    ensures |Goto(s, t, pc).threads| == |s.threads|
    ensures Goto(s, t, pc).threads[t] == s.threads[t].(pc := pc)
    ensures Goto(Goto(s, t, pc), t, pc') == Goto(s, t, pc')
  {
  }

  /** A caller that finds the lock free, and its query missing or expired, gets into the driver in seven moves. */
  lemma SoloPreparation(s: State, t: Tid, expired: bool) returns (es: seq<Event>)
    requires t < |s.threads| && s.threads[t].call.Prepare? && s.threads[t].pc == Start
    requires s.mux == RWMutex({}, None, None) && (expired || s.threads[t].call.query !in s.store)
    ensures es == Repeat(Move(t, Choice(expired, None, None)), 7)
    ensures
      var q, isTx := s.threads[t].call.query, s.threads[t].call.isTransaction;
      Exec(s, es) == Some(Goto(s, t, Preparing(|s.stmts|)).(
                            stmts := s.stmts + [Stmt(q, isTx, t, false, false, None)],
                            store := s.store[q := |s.stmts|]))
  {
    var m, x := Move(t, Choice(expired, None, None)), |s.stmts|;
    var q, isTx := s.threads[t].call.query, s.threads[t].call.isTransaction;
    var s1 := Goto(s, t, ReadHeld).(mux := RWMutex({t}, None, None));
    var s2 := Goto(s, t, WantWrite);
    var s3 := Goto(s, t, WriteQueued).(mux := RWMutex({}, Some(t), None));
    var s4 := Goto(s, t, WriteHeld).(mux := RWMutex({}, None, Some(t)));
    var s5 := Goto(s, t, WriteMiss).(mux := RWMutex({}, None, Some(t)));
    var s6 := Goto(s, t, WriteSet(x)).(mux := RWMutex({}, None, Some(t)),
      stmts := s.stmts + [Stmt(q, isTx, t, false, false, None)], store := s.store[q := x]);
    var s7 := Goto(s, t, Preparing(x)).(stmts := s6.stmts, store := s6.store);
    assert {} + {t} == {t} && {t} - {t} == {};
    Regoto(s, t, ReadHeld, WantWrite);
    Regoto(s, t, WantWrite, WriteQueued);
    Regoto(s, t, WriteQueued, WriteHeld);
    Regoto(s, t, WriteHeld, WriteMiss);
    Regoto(s, t, WriteMiss, WriteSet(x));
    Regoto(s, t, WriteSet(x), Preparing(x));
    assert Exec(s7, Repeat(m, 0)) == Some(s7);
    ExecFirst(s6, m, s7, 0, s7);
    ExecFirst(s5, m, s6, 1, s7);
    ExecFirst(s4, m, s5, 2, s7);
    ExecFirst(s3, m, s4, 3, s7);
    ExecFirst(s2, m, s3, 4, s7);
    ExecFirst(s1, m, s2, 5, s7);
    ExecFirst(s, m, s1, 6, s7);
    es := Repeat(m, 7);
  }

  /** Wherever a query is in the driver, and its entry is gone or taken for expired, another caller for it can join
      in there. */
  lemma TakenAwayLetsTwoPrepare(s: State, t: Tid, u: Tid, expired: bool) returns (es: seq<Event>, s': State)
    requires t < |s.threads| && u < |s.threads| && s.threads[t].pc.Preparing? && s.threads[u].pc == Start
    requires s.threads[t].call.Prepare? && s.threads[u].call.Prepare?
    requires s.threads[t].call.query == s.threads[u].call.query
    requires s.mux == RWMutex({}, None, None) && (expired || s.threads[u].call.query !in s.store)
    ensures es == Repeat(Move(u, Choice(expired, None, None)), 7)
    ensures Exec(s, es) == Some(s') && t != u && |s'.threads| == |s.threads|
    ensures s'.threads[t] == s.threads[t] && s'.threads[u].pc.Preparing? && s'.threads[u].call == s.threads[u].call
  {
    es := SoloPreparation(s, u, expired);
    s' := Exec(s, es).value;
  }

  /** Two callers for the same query. */
  function TwoCallers(q: Query): State { Init([Prepare(q, false), Prepare(q, false)]) }

  ghost predicate BothPrepare(s: State, q: Query) {
    && |s.threads| == 2 && s.threads[0].pc.Preparing? && s.threads[1].pc.Preparing?
    && s.threads[0].call == s.threads[1].call == Prepare(q, false)
  }

  /** One eviction at the wrong moment is enough. */
  lemma EvictionLetsTwoPrepare(q: Query) returns (es: seq<Event>, s: State)
    ensures Exec(TwoCallers(q), es) == Some(s) && BothPrepare(s, q)
  {
    var s0 := TwoCallers(q);
    var es0 := SoloPreparation(s0, 0, false);
    var s1 := Exec(s0, es0).value;
    var s2 := s1.(store := s1.store - {q});
    assert Next(s1, Evict(q)) == Some(s2);
    var es2;
    es2, s := TakenAwayLetsTwoPrepare(s2, 0, 1, false);
    es := es0 + ([Evict(q)] + es2);
    ExecConcat(s0, es0, [Evict(q)] + es2);
    assert ([Evict(q)] + es2)[1..] == es2;
  }

  /** So is an entry that expires while its statement is being prepared. */
  lemma ExpiryLetsTwoPrepare(q: Query) returns (es: seq<Event>, s: State)
    ensures Exec(TwoCallers(q), es) == Some(s) && BothPrepare(s, q)
    ensures forall e <- es :: e.Move?
  {
    var s0 := TwoCallers(q);
    var es0 := SoloPreparation(s0, 0, false);
    var s1 := Exec(s0, es0).value;
    var es1;
    es1, s := TakenAwayLetsTwoPrepare(s1, 0, 1, true);
    es := es0 + es1;
    ExecConcat(s0, es0, es1);
    RepeatOnly(Move(0, Choice(false, None, None)), 7);
    RepeatOnly(Move(1, Choice(true, None, None)), 7);
  }
}
