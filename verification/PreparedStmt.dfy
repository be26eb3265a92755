/** The statement-preparation protocol as a transition system: any number of
    callers of PreparedStmtDB.prepare and Close share one store and one RW lock.
    A lock holder may wait on the channel of a statement that is being prepared. */
module PreparedStmt {
  import opened Options

  type Query = string
  type Tid = nat     // a caller: an index into `threads`
  type StmtId = nat  // an allocated Stmt: an index into `stmts`
  type Error = int

  datatype Call = Prepare(query: Query, isTransaction: bool) | Close

  /** `prepared` says that the channel is closed; `handle` that the driver's statement is set. */
  datatype Stmt = Stmt(query: Query, transaction: bool, creator: Tid, prepared: bool, handle: bool, err: Option<Error>)

  datatype Pc =
    | Start                // about to take the read lock
    | ReadHeld             // about to look the query up
    | ReadWait(x: StmtId)  // waiting for `prepared`, read lock held
    | WantWrite            // about to ask for the write lock
    | WriteQueued          // asked; waiting for the readers to leave
    | WriteHeld            // about to look the query up again
    | WriteWait(x: StmtId) // waiting for `prepared`, write lock held
    | WriteMiss            // about to store a new statement
    | WriteSet(x: StmtId)  // stored; about to release the write lock
    | Preparing(x: StmtId) // in the driver, no lock held
    | FailDelete(x: StmtId) // the driver failed; about to delete the key
    | Announce(x: StmtId)  // about to close `prepared`
    | CloseHeld            // deleting keys, write lock held
    | Returned(x: StmtId, err: Option<Error>) // err == None: the caller got x
    | Closed

  datatype Thread = Thread(call: Call, pc: Pc)

  /** Go's RWMutex: a writer that has asked keeps new readers out. */
  datatype RWMutex = RWMutex(readers: set<Tid>, pending: Option<Tid>, writer: Option<Tid>)

  datatype State = State(threads: seq<Thread>, stmts: seq<Stmt>, store: map<Query, StmtId>, mux: RWMutex)

  /** What is not up to the caller: whether an entry it looks up has expired, what the driver
      answers, and which key Close deletes next (None: it is done). */
  datatype Choice = Choice(expired: bool, driver: Option<Error>, key: Option<Query>)

  const PLAIN := Choice(false, None, None)

  /** Evict stands for every removal behind the callers' backs: capacity, expiry
      sweeps, and the deletes after a bad connection. */
  datatype Event = Move(t: Tid, choice: Choice) | Evict(query: Query)

  function Goto(s: State, t: Tid, pc: Pc): State
    requires t < |s.threads|
  {
    s.(threads := s.threads[t := s.threads[t].(pc := pc)])
  }

  /** The store's Get up to the wait: expired entries are not found. */
  function Lookup(s: State, q: Query, expired: bool): Option<StmtId> {
    if q in s.store && !expired then Some(s.store[q]) else None
  }

  /** May a caller use a statement it found? */
  predicate Usable(st: Stmt, isTransaction: bool) {
    !st.transaction || isTransaction
  }

  predicate Unlocked(m: RWMutex) {
    m.pending.None? && m.writer.None?
  }

  /** What caller t does next; None where it has to wait or has returned. */
  function Act(s: State, t: Tid, c: Choice): Option<State>
    requires t < |s.threads|
  {
    var th, m := s.threads[t], s.mux;
    match th.pc
    case WantWrite =>
      if Unlocked(m) then Some(Goto(s, t, WriteQueued).(mux := m.(pending := Some(t)))) else None
    case WriteQueued =>
      if m.readers == {} then
        Some(Goto(s, t, if th.call.Close? then CloseHeld else WriteHeld).(mux := RWMutex({}, None, Some(t))))
      else None
    case CloseHeld =>
      if c.key.Some? then
        if c.key.value in s.store then Some(s.(store := s.store - {c.key.value})) else None
      else Some(Goto(s, t, Closed).(mux := m.(writer := None)))
    case Closed => None
    case Returned(_, _) => None
    case _ => if th.call.Prepare? then Prepares(s, t, c) else None
  }

  function Prepares(s: State, t: Tid, c: Choice): Option<State>
    requires t < |s.threads| && s.threads[t].call.Prepare?
  {
    var m, q, isTx := s.mux, s.threads[t].call.query, s.threads[t].call.isTransaction;
    match s.threads[t].pc
    case Start =>
      if Unlocked(m) then Some(Goto(s, t, ReadHeld).(mux := m.(readers := m.readers + {t}))) else None
    case ReadHeld =>
      (match Lookup(s, q, c.expired)
       case Some(x) => Some(Goto(s, t, ReadWait(x)))
       case None => Some(Goto(s, t, WantWrite).(mux := m.(readers := m.readers - {t}))))
    case ReadWait(x) =>
      if x < |s.stmts| && s.stmts[x].prepared then
        var pc := if Usable(s.stmts[x], isTx) then Returned(x, s.stmts[x].err) else WantWrite;
        Some(Goto(s, t, pc).(mux := m.(readers := m.readers - {t})))
      else None
    case WriteHeld =>
      (match Lookup(s, q, c.expired)
       case Some(x) => Some(Goto(s, t, WriteWait(x)))
       case None => Some(Goto(s, t, WriteMiss)))
    case WriteWait(x) =>
      if x < |s.stmts| && s.stmts[x].prepared then
        if Usable(s.stmts[x], isTx) then
          Some(Goto(s, t, Returned(x, s.stmts[x].err)).(mux := m.(writer := None)))
        else Some(Goto(s, t, WriteMiss))
      else None
    case WriteMiss =>
      var x := |s.stmts|;
      Some(Goto(s, t, WriteSet(x)).(stmts := s.stmts + [Stmt(q, isTx, t, false, false, None)],
                                    store := s.store[q := x]))
    case WriteSet(x) => Some(Goto(s, t, Preparing(x)).(mux := m.(writer := None)))
    case Preparing(x) =>
      if x < |s.stmts| then
        if c.driver.None? then
          Some(Goto(s, t, Announce(x)).(stmts := s.stmts[x := s.stmts[x].(handle := true)]))
        else
          Some(Goto(s, t, FailDelete(x)).(stmts := s.stmts[x := s.stmts[x].(err := c.driver)]))
      else None
    case FailDelete(x) => Some(Goto(s, t, Announce(x)).(store := s.store - {q}))
    case Announce(x) =>
      if x < |s.stmts| then
        Some(Goto(s, t, Returned(x, s.stmts[x].err)).(stmts := s.stmts[x := s.stmts[x].(prepared := true)]))
      else None
    case _ => None
  }

  function Next(s: State, e: Event): Option<State> {
    match e
    case Move(t, c) => if t < |s.threads| then Act(s, t, c) else None
    case Evict(q) => if q in s.store then Some(s.(store := s.store - {q})) else None
  }

  function Init(calls: seq<Call>): State {
    State(seq(|calls|, i requires 0 <= i < |calls| => Thread(calls[i], if calls[i].Close? then WantWrite else Start)),
          [], map[], RWMutex({}, None, None))
  }

  ghost predicate Run(ss: seq<State>, es: seq<Event>) {
    && |ss| == |es| + 1
    && forall i :: 0 <= i < |es| ==> Next(ss[i], es[i]) == Some(ss[i + 1])
  }

  // ----- the invariant

  predicate HoldsRead(pc: Pc) { pc.ReadHeld? || pc.ReadWait? }

  predicate HoldsWrite(pc: Pc) {
    pc.WriteHeld? || pc.WriteWait? || pc.WriteMiss? || pc.WriteSet? || pc.CloseHeld?
  }

  /** t is the one preparing x. */
  predicate Makes(pc: Pc, x: StmtId) {
    pc == WriteSet(x) || pc == Preparing(x) || pc == FailDelete(x) || pc == Announce(x)
  }

  /** x is a statement for what t asked for. */
  ghost predicate Matches(s: State, th: Thread, x: StmtId) {
    th.call.Prepare? && x < |s.stmts| && s.stmts[x].query == th.call.query
  }

  /** x is t's own, and its channel is still open. */
  ghost predicate Own(s: State, t: Tid, th: Thread, x: StmtId) {
    && Matches(s, th, x) && s.stmts[x].creator == t && !s.stmts[x].prepared
    && s.stmts[x].transaction == th.call.isTransaction
  }

  ghost predicate ThreadOk(s: State, t: Tid, th: Thread) {
    match th.pc
    case Start => th.call.Prepare?
    case ReadHeld => th.call.Prepare?
    case ReadWait(x) => Matches(s, th, x)
    case WantWrite => true
    case WriteQueued => true
    case WriteHeld => th.call.Prepare?
    case WriteWait(x) => Matches(s, th, x)
    case WriteMiss => th.call.Prepare?
    case WriteSet(x) => Own(s, t, th, x) && !s.stmts[x].handle && s.stmts[x].err.None?
    case Preparing(x) => Own(s, t, th, x) && !s.stmts[x].handle && s.stmts[x].err.None?
    case FailDelete(x) => Own(s, t, th, x) && !s.stmts[x].handle && s.stmts[x].err.Some?
    case Announce(x) => Own(s, t, th, x) && s.stmts[x].handle == s.stmts[x].err.None?
    case CloseHeld => th.call.Close?
    case Returned(x, err) =>
      && Matches(s, th, x) && s.stmts[x].prepared && s.stmts[x].err == err
      && Usable(s.stmts[x], th.call.isTransaction)
    case Closed => th.call.Close?
  }

  /** An open channel has a caller that will close it; a closed one carries an outcome. */
  ghost predicate StmtOk(s: State, x: StmtId)
    requires x < |s.stmts|
  {
    var st := s.stmts[x];
    if st.prepared then st.handle == st.err.None?
    else st.creator < |s.threads| && Makes(s.threads[st.creator].pc, x)
  }

  /** A key maps to a statement for that query; if it failed, its preparer has yet to delete it. */
  ghost predicate StoreOk(s: State, q: Query)
    requires q in s.store
  {
    var x := s.store[q];
    && x < |s.stmts|
    && s.stmts[x].query == q
    && (s.stmts[x].err.Some? ==> s.stmts[x].creator < |s.threads| && s.threads[s.stmts[x].creator].pc == FailDelete(x))
  }

  /** The lock's books about caller t agree with where t is. */
  predicate Booked(m: RWMutex, t: Tid, pc: Pc) {
    && (t in m.readers <==> HoldsRead(pc))
    && (m.writer == Some(t) <==> HoldsWrite(pc))
    && (m.pending == Some(t) <==> pc.WriteQueued?)
  }

  ghost predicate LockOk(m: RWMutex, n: nat) {
    && (forall t <- m.readers :: t < n)
    && (m.writer.Some? ==> m.writer.value < n && m.readers == {} && m.pending.None?)
    && (m.pending.Some? ==> m.pending.value < n)
  }

  ghost predicate Inv(s: State) {
    && (forall t :: 0 <= t < |s.threads| ==> ThreadOk(s, t, s.threads[t]) && Booked(s.mux, t, s.threads[t].pc))
    && (forall x :: 0 <= x < |s.stmts| ==> StmtOk(s, x))
    && (forall q <- s.store :: StoreOk(s, q))
    && LockOk(s.mux, |s.threads|)
  }
}
