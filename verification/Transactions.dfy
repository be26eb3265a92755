/** Transactions as they run: one for the outermost block, a savepoint for every block inside it, and a
    transaction of its own for each statement outside any block. */
module Transactions {
  import opened Blocks
  import opened Options

  datatype Save = Save(name: SaveName, at: nat)

  /** An open transaction: what it has written, and its savepoints, oldest first. */
  datatype Tx = Tx(log: seq<Write>, saves: seq<Save>)

  ghost predicate TxOk(t: Tx) { forall s <- t.saves :: s.at <= |t.log| }

  /** The names of the savepoints inside. */
  function SaveNames(b: Body): set<SaveName> {
    match b
    case Ends(_) => {}
    case Exec(_, _, _, next) => SaveNames(next)
    case Inner(block, _, _, next) => {block.name} + SaveNames(block.body) + SaveNames(next)
  }

  /** No block uses the name of a savepoint of a block around it. */
  predicate FreshNames(b: Body) {
    match b
    case Ends(_) => true
    case Exec(_, _, _, next) => FreshNames(next)
    case Inner(block, _, _, next) =>
      block.name !in SaveNames(block.body) && FreshNames(block.body) && FreshNames(next)
  }

  // ----- savepoints

  /** The newest savepoint of that name, or -1. */
  function Newest(saves: seq<Save>, name: SaveName): (r: int)
    ensures -1 <= r < |saves|
    ensures r >= 0 ==> saves[r].name == name && forall k :: r < k < |saves| ==> saves[k].name != name
    ensures r == -1 ==> forall k :: 0 <= k < |saves| ==> saves[k].name != name
  {
    if saves == [] then -1
    else if saves[|saves| - 1].name == name then |saves| - 1
    else Newest(saves[..|saves| - 1], name)
  }

  function SaveAs(t: Tx, name: SaveName): Tx { t.(saves := t.saves + [Save(name, |t.log|)]) }

  /** Undoes what was written since the newest savepoint of that name, and forgets the later savepoints. */
  function BackTo(t: Tx, name: SaveName): Tx
    requires TxOk(t)
  {
    var k := Newest(t.saves, name);
    if k == -1 then t else Tx(t.log[..t.saves[k].at], t.saves[..k + 1])
  }

  /** `next` has grown out of `t`: more writes, more savepoints, the savepoints named in `names`. */
  ghost predicate Grew(t: Tx, next: Tx, ws: seq<Write>, names: set<SaveName>) {
    && TxOk(next)
    && next.log == t.log + ws
    && |t.saves| <= |next.saves| && next.saves[..|t.saves|] == t.saves
    && forall k :: |t.saves| <= k < |next.saves| ==> next.saves[k].name in names
  }

  lemma GrewTwice(a: Tx, b: Tx, c: Tx, ws: seq<Write>, vs: seq<Write>, m: set<SaveName>, n: set<SaveName>)
    requires Grew(a, b, ws, m) && Grew(b, c, vs, n)
    ensures Grew(a, c, ws + vs, m + n)
  {
  }

  /** Going back to one's own savepoint undoes exactly what came after, if the name was not used again. */
  lemma BackToOwn(t: Tx, name: SaveName, next: Tx, ws: seq<Write>, names: set<SaveName>)
    requires TxOk(t) && Grew(SaveAs(t, name), next, ws, names) && name !in names
    ensures BackTo(next, name) == SaveAs(t, name)
    ensures Grew(t, BackTo(next, name), [], {name})
  {
    var saved := SaveAs(t, name);
    assert next.saves[|t.saves|] == next.saves[..|saved.saves|][|t.saves|] == Save(name, |t.log|);
    assert Newest(next.saves, name) == |t.saves|;
  }

  /** When a block inside uses the name again, going back stops at that block's savepoint, and what the
      outer block wrote before it stays. */
  lemma ReusedNameKeepsWrites(t: Tx, name: SaveName, ws: seq<Write>)
    requires TxOk(t)
    ensures
      var outer := SaveAs(t, name);
      var inner := SaveAs(outer.(log := outer.log + ws), name);
      BackTo(inner, name).log == t.log + ws
  {
  }

  // ----- running them

  /** The connection: what is committed, and the transaction that is open, if any. */
  class Connection {
    var committed: seq<Write>
    var tx: Option<Tx>

    constructor ()
      ensures committed == [] && tx == None
    {
      committed, tx := [], None;
    }

    ghost predicate Valid()
      reads this
    {
      tx.Some? ==> TxOk(tx.value)
    }
  }

  /** A database handle. It works on the pool or inside the transaction (`inTx`), and keeps its first error. */
  class Handle {
    const conn: Connection
    const inTx: bool
    const nesting: bool
    const skipDefault: bool
    var error: bool

    constructor (conn: Connection, inTx: bool, nesting: bool, skipDefault: bool, error: bool)
      ensures this.conn == conn && this.inTx == inTx && this.error == error
      ensures this.nesting == nesting && this.skipDefault == skipDefault
    {
      this.conn, this.inTx, this.error := conn, inTx, error;
      this.nesting, this.skipDefault := nesting, skipDefault;
    }

    ghost predicate Valid()
      reads this, conn
    {
      conn.Valid() && (inTx ==> conn.tx.Some?)
    }

    /** A handle on the same connection, with the error there is. */
    method Session(inTx: bool) returns (h: Handle)
      ensures fresh(h) && h.conn == conn && h.inTx == inTx && h.error == error
      ensures h.nesting == nesting && h.skipDefault == skipDefault
    {
      h := new Handle(conn, inTx, nesting, skipDefault, error);
    }

    /** Begins a transaction and returns a handle for it; inside one that is an error. A handle's own error
        does not keep the transaction from being opened. */
    method Begin(canBegin: bool) returns (h: Handle)
      requires Valid() && (!inTx ==> conn.tx.None?)
      modifies conn
      ensures fresh(h) && h.conn == conn && h.nesting == nesting && h.skipDefault == skipDefault
      ensures h.Valid() && h.inTx == (inTx || canBegin) && h.error == (error || inTx || !canBegin)
      ensures conn.committed == old(conn.committed)
      ensures conn.tx == if !inTx && canBegin then Some(Tx([], [])) else old(conn.tx)
    {
      if !inTx && canBegin {
        conn.tx := Some(Tx([], []));
      }
      h := Session(inTx || canBegin);
      if inTx || !canBegin {
        h.error := true;
      }
    }

    /** A commit ends the transaction; one that reports an error has had no effect. The handle's error may be
        an older one: then the writes are committed all the same. */
    method Commit(canCommit: bool)
      requires inTx && Valid()
      modifies this, conn
      ensures conn.tx == None && error == (old(error) || !canCommit)
      ensures conn.committed == old(conn.committed) + if canCommit then old(conn.tx).value.log else []
    {
      if canCommit {
        conn.committed := conn.committed + conn.tx.value.log;
      } else {
        error := true;
      }
      conn.tx := None;
    }

    /** Ends the transaction without its writes; one that is over cannot be rolled back. */
    method Rollback()
      requires inTx
      modifies this, conn
      ensures conn.tx == None && conn.committed == old(conn.committed)
      ensures error == (old(error) || old(conn.tx).None?)
    {
      if conn.tx.None? {
        error := true;
      }
      conn.tx := None;
    }

    /** Sets a savepoint. Through a handle with an error nothing is sent. */
    method SavePoint(name: SaveName, canSave: bool)
      requires inTx && Valid()
      modifies this, conn
      ensures error == (old(error) || !canSave) && conn.committed == old(conn.committed)
      ensures conn.tx == Some(if error then old(conn.tx).value else SaveAs(old(conn.tx).value, name))
    {
      if !error && canSave {
        conn.tx := Some(SaveAs(conn.tx.value, name));
      } else {
        error := true;
      }
    }

    /** A statement: its callbacks begin a transaction unless there is one, and end the one they began.
        Through a handle with an error it does nothing and fails. */
    method Statement(ws: seq<Write>, fails: bool, canBegin: bool, canCommit: bool) returns (err: bool)
      requires Valid() && (!inTx ==> conn.tx.None?)
      modifies conn
      ensures inTx ==>
                err == (error || fails) && conn.committed == old(conn.committed)
                && conn.tx == Some(old(conn.tx).value.(log := old(conn.tx).value.log + if error then [] else ws))
      ensures !inTx ==>
                conn.tx == None && err == (error || fails || (!skipDefault && !(canBegin && canCommit)))
      ensures !inTx ==>
                conn.committed == old(conn.committed) + if (if skipDefault then error else err) then [] else ws
    {
      err := error;
      var pool: Handle := this;
      var started := false;
      if !skipDefault && !err {
        var tx := Begin(canBegin);
        if !tx.error {
          pool, started := tx, true;
        } else if !inTx {
          err := true;
        }
      }
      if !err {
        if pool.inTx {
          conn.tx := Some(conn.tx.value.(log := conn.tx.value.log + ws));
        } else {
          conn.committed := conn.committed + ws;
        }
        err := fails;
      } else if inTx {
        assert conn.tx.value.log + [] == conn.tx.value.log;
      }
      if started {
        if err {
          pool.Rollback();
        } else {
          pool.Commit(canCommit);
          err := pool.error;
        }
      }
    }

    /** Runs a block inside the transaction. */
    method Nested(b: Block) returns (o: Outcome)
      requires inTx && Valid() && FreshNames(b.body) && b.name !in SaveNames(b.body)
      modifies this, conn
      ensures Valid() && conn.committed == old(conn.committed)
      ensures o == InnerRun(b, nesting, old(error)) && error == (old(error) || Refused(b, nesting, old(error)))
      ensures Grew(old(conn.tx).value, conn.tx.value, InnerRunKept(b, nesting, old(error)),
                   {b.name} + SaveNames(b.body))
      decreases b
    {
      var panicked, err := true, false;
      if nesting {
        SavePoint(b.name, b.canSave);
        if error { return Fails; }
      }
      ghost var start := conn.tx.value;
      var inner := Session(true);
      var called := inner.Call(b.body);
      ghost var ws := RunKept(b.body, nesting, old(error));
      if !called.Panics? {
        err := called.Fails?;
        panicked := false;
      }
      if nesting && (panicked || err) {
        BackToOwn(old(conn.tx).value, b.name, conn.tx.value, ws, SaveNames(b.body));
        conn.tx := Some(BackTo(conn.tx.value, b.name));
      } else if nesting {
        assert Grew(old(conn.tx).value, start, [], {b.name});
        GrewTwice(old(conn.tx).value, start, conn.tx.value, [], ws, {b.name}, SaveNames(b.body));
        assert [] + ws == ws;
      }
      o := if panicked then Panics else if err then Fails else Succeeds;
    }

    /** The callback of a block, on the handle it is given. */
    method Call(b: Body) returns (o: Outcome)
      requires inTx && Valid() && FreshNames(b)
      modifies this, conn
      ensures Valid() && conn.committed == old(conn.committed)
      ensures o == RunResult(b, nesting, old(error)) && error == RunError(b, nesting, old(error))
      ensures Grew(old(conn.tx).value, conn.tx.value, RunKept(b, nesting, old(error)), SaveNames(b))
      decreases b
    {
      match b
      case Ends(outcome) =>
        o := outcome;
      case Exec(ws, fails, stops, next) =>
        ghost var written := if error then [] else ws;
        var err := Statement(ws, fails, true, true);
        ghost var mid := conn.tx.value;
        assert Grew(old(conn.tx).value, mid, written, {});
        if err && stops { return Fails; }
        o := Call(next);
        GrewTwice(old(conn.tx).value, mid, conn.tx.value, written, RunKept(next, nesting, old(error)),
                  {}, SaveNames(next));
      case Inner(block, stops, recovers, next) =>
        o := Nested(block);
        if !GoesOn(o, stops, recovers) { return; }
        ghost var mid, err := conn.tx.value, error;
        o := Call(next);
        GrewTwice(old(conn.tx).value, mid, conn.tx.value, InnerRunKept(block, nesting, old(error)),
                  RunKept(next, nesting, err), {block.name} + SaveNames(block.body), SaveNames(next));
    }

    /** Runs an outermost block. The writes of its callback end up in the database, or none; an error that is
        left on the handle is returned although they do. On a handle that has an error already the
        transaction is opened, and neither used nor ended. */
    method Transaction(b: Block, canBegin: bool, canCommit: bool) returns (o: Outcome)
      requires !inTx && conn.tx.None? && FreshNames(b.body)
      modifies conn
      ensures error || !canBegin ==> o == Fails && conn.committed == old(conn.committed)
      ensures conn.tx == if error && canBegin then Some(Tx([], [])) else None
      ensures !error && canBegin ==>
                o == RootOutcome(b, nesting, canCommit)
                && conn.committed == old(conn.committed) + RootWrites(b, nesting, canCommit)
    {
      hide RunKept;
      hide RunResult;
      hide RunError;
      hide FreshNames;
      hide SaveNames;
      var panicked, err := true, false;
      var tx := Begin(canBegin);
      if tx.error { return Fails; }
      var called := tx.Call(b.body);
      if called.Succeeds? {
        panicked := false;
        assert conn.tx.value.log == RunKept(b.body, nesting, false);
        tx.Commit(canCommit);
        err := tx.error;
      } else if called.Fails? {
        panicked, err := false, true;
      }
      if panicked || err { tx.Rollback(); }
      o := if panicked then Panics else if err then Fails else Succeeds;
    }
  }

  // ----- what an outermost block leaves, and what it promises to leave

  function RootOutcome(b: Block, nesting: bool, canCommit: bool): Outcome {
    var o := RunResult(b.body, nesting, false);
    if o.Succeeds? && (!canCommit || RunError(b.body, nesting, false)) then Fails else o
  }

  function RootWrites(b: Block, nesting: bool, canCommit: bool): seq<Write> {
    if canCommit && RunResult(b.body, nesting, false).Succeeds? then RunKept(b.body, nesting, false) else []
  }

  function PromisedOutcome(b: Block, nesting: bool, canCommit: bool): Outcome {
    var o := BodyResult(b.body, nesting);
    if o.Succeeds? && !canCommit then Fails else o
  }

  /** Exactly the writes of blocks that succeed together with all the blocks around them. */
  function PromisedWrites(b: Block, nesting: bool, canCommit: bool): seq<Write> {
    if canCommit then Survivors(b, nesting) else []
  }

  predicate PromiseKept(b: Block, nesting: bool, canCommit: bool) {
    && RootOutcome(b, nesting, canCommit) == PromisedOutcome(b, nesting, canCommit)
    && RootWrites(b, nesting, canCommit) == PromisedWrites(b, nesting, canCommit)
  }

  lemma PromisedAreKept(b: Block, nesting: bool, canCommit: bool)
    ensures PromisedWrites(b, nesting, canCommit)
            == if canCommit && BodyResult(b.body, nesting).Succeeds? then Kept(b.body, nesting) else []
  {
    KeptLasts(b.body, nesting, BodyResult(b.body, nesting).Succeeds?);
  }

  /** As long as no block goes on after a block inside it was refused its savepoint, exactly the writes of
      blocks that succeed, with all the blocks around them, end up in the database; panics included. */
  lemma HeededTransaction(b: Block, nesting: bool, canCommit: bool)
    requires nesting ==> Heeded(b.body)
    ensures PromiseKept(b, nesting, canCommit)
  {
    PromisedAreKept(b, nesting, canCommit);
    if nesting {
      HeededIsKept(b.body);
    } else {
      UnnestedIsKept(b.body);
    }
  }

  /** Without panics: outcome and database are what the block promises exactly if it promises to fail, or
      cannot be committed, or honours its promise. */
  lemma TransactionHonoured(b: Block, canCommit: bool)
    requires Calm(b.body)
    ensures
      PromiseKept(b, true, canCommit)
      <==> !canCommit || !BodyResult(b.body, true).Succeeds? || Honoured(b.body, true)
  {
    PromisedAreKept(b, true, canCommit);
    StaysCalm(b.body, false);
    if BodyResult(b.body, true).Succeeds? {
      HonouredExactly(b.body, true);
    } else {
      RunsShort(b.body);
    }
  }

  /** A block that goes on after a refused savepoint: its later write is lost, its earlier one is committed,
      and an error is returned, although it promises success and both writes. */
  lemma IgnoredRefusal(name: SaveName, w: Write, v: Write)
    ensures
      var b := Block(name, true, Exec([w], false, false, Inner(Block(name + 1, false, Ends(Succeeds)), false, false,
                                                               Exec([v], false, false, Ends(Succeeds)))));
      && PromisedOutcome(b, true, true) == Succeeds && PromisedWrites(b, true, true) == [w, v]
      && RootOutcome(b, true, true) == Fails && RootWrites(b, true, true) == [w]
  {
    var rest := Exec([v], false, false, Ends(Succeeds));
    var inner := Inner(Block(name + 1, false, Ends(Succeeds)), false, false, rest);
    var b := Block(name, true, Exec([w], false, false, inner));
    PromisedAreKept(b, true, true);
    ErrorStopsWrites(rest);
    assert BodyResult(rest, true) == RunResult(rest, true, true) == Succeeds;
    assert BodyResult(inner, true) == RunResult(inner, true, false) == Succeeds && RunError(inner, true, false);
    assert b.body.next == inner;
    assert BodyResult(b.body, true) == RunResult(b.body, true, false) == Succeeds && RunError(b.body, true, false);
    assert Kept(rest, true) == [v] + [] == [v];
    assert Kept(inner, true) == [] + [v] == [v];
    assert Kept(b.body, true) == [w] + [v] == [w, v];
    assert RunKept(inner, true, false) == [] + [] == [];
    assert RunKept(b.body, true, false) == [w] + [] == [w];
  }
}
