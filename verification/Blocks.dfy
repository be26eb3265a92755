/** Transaction blocks inside one another: what they promise, what they come to, and when that is the same.
    They differ because the error of a savepoint that is not taken stays on the handle of the block. */
module Blocks {
  type Write = int
  type SaveName = nat

  /** How a callback ends: no error, an error returned, a panic. */
  datatype Outcome = Succeeds | Fails | Panics

  /** What a callback does: statements, with the writes that reach the database and whether the
      statement then reports an error, and blocks inside it. `stops`: it returns an error it is handed;
      `recovers`: it goes on after a panic. */
  datatype Body =
    | Ends(outcome: Outcome)
    | Exec(ws: seq<Write>, fails: bool, stops: bool, next: Body)
    | Inner(block: Block, stops: bool, recovers: bool, next: Body)

  /** One call of Transaction; canSave: the database takes the savepoint. */
  datatype Block = Block(name: SaveName, canSave: bool, body: Body)

  /** Whether the callback goes on after a block that ended so. */
  predicate GoesOn(o: Outcome, stops: bool, recovers: bool) {
    (o.Fails? ==> !stops) && (o.Panics? ==> recovers)
  }

  // ----- what blocks promise

  /** How a callback ends. `nesting`: blocks inside have savepoints. */
  function BodyResult(b: Body, nesting: bool): Outcome {
    match b
    case Ends(o) => o
    case Exec(_, fails, stops, next) => if fails && stops then Fails else BodyResult(next, nesting)
    case Inner(block, stops, recovers, next) =>
      var o := InnerResult(block, nesting);
      if GoesOn(o, stops, recovers) then BodyResult(next, nesting) else o
  }

  function InnerResult(b: Block, nesting: bool): Outcome {
    if nesting && !b.canSave then Fails else BodyResult(b.body, nesting)
  }

  /** A write that is carried out, and whether it is to last. */
  datatype Mark = Mark(w: Write, lasts: bool)

  function Marks(ws: seq<Write>, lasts: bool): seq<Mark> {
    if ws == [] then [] else [Mark(ws[0], lasts)] + Marks(ws[1..], lasts)
  }

  /** Every write in the order it is carried out. It is to last when the block it belongs to and all the
      blocks around that one (`lasts`) succeed. */
  function Trace(b: Body, nesting: bool, lasts: bool): seq<Mark> {
    match b
    case Ends(_) => []
    case Exec(ws, fails, stops, next) =>
      Marks(ws, lasts) + if fails && stops then [] else Trace(next, nesting, lasts)
    case Inner(block, stops, recovers, next) =>
      InnerTrace(block, nesting, lasts)
      + if GoesOn(InnerResult(block, nesting), stops, recovers) then Trace(next, nesting, lasts) else []
  }

  /** Without savepoints a block inside has no say of its own. */
  function InnerTrace(b: Block, nesting: bool, lasts: bool): seq<Mark> {
    if nesting && !b.canSave then []
    else Trace(b.body, nesting, lasts && (nesting ==> BodyResult(b.body, nesting).Succeeds?))
  }

  function Lasting(ms: seq<Mark>): seq<Write> {
    if ms == [] then [] else (if ms[0].lasts then [ms[0].w] else []) + Lasting(ms[1..])
  }

  /** The writes that an outermost block promises to leave in the database. */
  function Survivors(b: Block, nesting: bool): seq<Write> {
    Lasting(Trace(b.body, nesting, BodyResult(b.body, nesting).Succeeds?))
  }

  // ----- the same from the inside out

  function Kept(b: Body, nesting: bool): seq<Write> {
    match b
    case Ends(_) => []
    case Exec(ws, fails, stops, next) => ws + if fails && stops then [] else Kept(next, nesting)
    case Inner(block, stops, recovers, next) =>
      InnerKept(block, nesting)
      + if GoesOn(InnerResult(block, nesting), stops, recovers) then Kept(next, nesting) else []
  }

  function InnerKept(b: Block, nesting: bool): seq<Write> {
    if nesting && !InnerResult(b, nesting).Succeeds? then [] else Kept(b.body, nesting)
  }

  lemma {:induction false} LastingConcat(a: seq<Mark>, b: seq<Mark>)
    ensures Lasting(a + b) == Lasting(a) + Lasting(b)
  {
    if a == [] {
      assert a + b == b;
    } else {
      assert (a + b)[0] == a[0] && (a + b)[1..] == a[1..] + b;
      LastingConcat(a[1..], b);
    }
  }

  lemma {:induction false} LastingMarks(ws: seq<Write>, lasts: bool)
    ensures Lasting(Marks(ws, lasts)) == if lasts then ws else []
  {
    if ws != [] {
      LastingMarks(ws[1..], lasts);
      assert ws == [ws[0]] + ws[1..];
      assert Marks(ws, lasts)[1..] == Marks(ws[1..], lasts);
    }
  }

  /** A write lasts exactly when no block around it fails: what each block in turn hands to the one
      around it adds up to that. */
  lemma {:induction false} KeptLasts(b: Body, nesting: bool, lasts: bool)
    ensures Lasting(Trace(b, nesting, lasts)) == if lasts then Kept(b, nesting) else []
  {
    match b
    case Ends(_) =>
    case Exec(ws, fails, stops, next) =>
      LastingMarks(ws, lasts);
      KeptLasts(next, nesting, lasts);
      LastingConcat(Marks(ws, lasts), if fails && stops then [] else Trace(next, nesting, lasts));
    case Inner(block, stops, recovers, next) =>
      var o := InnerResult(block, nesting);
      KeptLasts(block.body, nesting, lasts && (nesting ==> BodyResult(block.body, nesting).Succeeds?));
      KeptLasts(next, nesting, lasts);
      LastingConcat(InnerTrace(block, nesting, lasts),
                    if GoesOn(o, stops, recovers) then Trace(next, nesting, lasts) else []);
  }

  // ----- what blocks come to: an error on the handle (`err`) stops everything done through it

  /** Whether a block gets no savepoint, which leaves an error on the handle it was asked for. */
  predicate Refused(b: Block, nesting: bool, err: bool) { nesting && (err || !b.canSave) }

  function RunResult(b: Body, nesting: bool, err: bool): Outcome {
    match b
    case Ends(o) => o
    case Exec(_, fails, stops, next) => if (err || fails) && stops then Fails else RunResult(next, nesting, err)
    case Inner(block, stops, recovers, next) =>
      var o := InnerRun(block, nesting, err);
      if GoesOn(o, stops, recovers) then RunResult(next, nesting, err || Refused(block, nesting, err)) else o
  }

  /** The handle of a block inside starts with the error of the one it was taken from. */
  function InnerRun(b: Block, nesting: bool, err: bool): Outcome {
    if Refused(b, nesting, err) then Fails else RunResult(b.body, nesting, err)
  }

  function RunKept(b: Body, nesting: bool, err: bool): seq<Write> {
    match b
    case Ends(_) => []
    case Exec(ws, fails, stops, next) =>
      (if err then [] else ws) + if (err || fails) && stops then [] else RunKept(next, nesting, err)
    case Inner(block, stops, recovers, next) =>
      InnerRunKept(block, nesting, err)
      + if GoesOn(InnerRun(block, nesting, err), stops, recovers)
        then RunKept(next, nesting, err || Refused(block, nesting, err)) else []
  }

  function InnerRunKept(b: Block, nesting: bool, err: bool): seq<Write> {
    if Refused(b, nesting, err) || (nesting && !InnerRun(b, nesting, err).Succeeds?) then []
    else RunKept(b.body, nesting, err)
  }

  /** Whether the handle is left with an error. */
  predicate RunError(b: Body, nesting: bool, err: bool) {
    match b
    case Ends(_) => err
    case Exec(_, fails, stops, next) => if (err || fails) && stops then err else RunError(next, nesting, err)
    case Inner(block, stops, recovers, next) =>
      var next' := err || Refused(block, nesting, err);
      if GoesOn(InnerRun(block, nesting, err), stops, recovers) then RunError(next, nesting, next') else next'
  }

  // ----- when the promise is kept

  /** No block goes on after a block inside it was refused its savepoint. */
  predicate Heeded(b: Body) {
    match b
    case Ends(_) => true
    case Exec(_, fails, stops, next) => (fails && stops) || Heeded(next)
    case Inner(block, stops, recovers, next) =>
      if !block.canSave then stops
      else Heeded(block.body) && (GoesOn(BodyResult(block.body, true), stops, recovers) ==> Heeded(next))
  }

  /** Then every block comes to what it promises, whatever panics or fails. */
  lemma {:induction false} HeededIsKept(b: Body)
    requires Heeded(b)
    ensures RunResult(b, true, false) == BodyResult(b, true) && RunKept(b, true, false) == Kept(b, true)
    ensures BodyResult(b, true).Succeeds? ==> !RunError(b, true, false)
  {
    match b
    case Ends(_) =>
    case Exec(_, fails, stops, next) =>
      if !(fails && stops) {
        HeededIsKept(next);
      }
    case Inner(block, stops, recovers, next) =>
      if block.canSave {
        HeededIsKept(block.body);
        if GoesOn(BodyResult(block.body, true), stops, recovers) {
          HeededIsKept(next);
        }
      }
  }

  /** Without savepoints no handle gets an error. */
  lemma {:induction false} UnnestedIsKept(b: Body)
    ensures RunResult(b, false, false) == BodyResult(b, false) && RunKept(b, false, false) == Kept(b, false)
    ensures !RunError(b, false, false)
  {
    match b
    case Ends(_) =>
    case Exec(_, _, _, next) => UnnestedIsKept(next);
    case Inner(block, _, _, next) =>
      UnnestedIsKept(block.body);
      UnnestedIsKept(next);
  }

  /** No callback panics of itself. */
  predicate Calm(b: Body) {
    match b
    case Ends(o) => !o.Panics?
    case Exec(_, _, _, next) => Calm(next)
    case Inner(block, _, _, next) => Calm(block.body) && Calm(next)
  }

  /** Whatever happens, the callback goes on. */
  predicate NeverStops(b: Body) {
    match b
    case Ends(_) => true
    case Exec(_, _, stops, next) => !stops && NeverStops(next)
    case Inner(_, stops, _, next) => !stops && NeverStops(next)
  }

  /** Once there is an error on the handle nothing more is written through it. */
  lemma {:induction false} ErrorStopsWrites(b: Body)
    ensures RunKept(b, true, true) == [] && RunError(b, true, true)
    ensures BodyResult(b, true).Succeeds? && Calm(b) ==> (RunResult(b, true, true).Succeeds? <==> NeverStops(b))
    ensures BodyResult(b, true).Fails? && Calm(b) ==> RunResult(b, true, true).Fails?
  {
    match b
    case Ends(_) =>
    case Exec(_, _, _, next) => ErrorStopsWrites(next);
    case Inner(block, _, _, next) =>
      ErrorStopsWrites(next);
      if Calm(block.body) {
        StaysCalm(block.body, true);
      }
  }

  lemma {:induction false} StaysCalm(b: Body, err: bool)
    requires Calm(b)
    ensures !BodyResult(b, true).Panics? && !RunResult(b, true, err).Panics?
  {
    match b
    case Ends(_) =>
    case Exec(_, _, _, next) => StaysCalm(next, err);
    case Inner(block, _, _, next) =>
      StaysCalm(block.body, err);
      StaysCalm(next, err);
      StaysCalm(next, true);
  }

  /** What calm blocks come to is never more than what they promise. */
  lemma {:induction false} RunsShort(b: Body)
    requires Calm(b)
    ensures |RunKept(b, true, false)| <= |Kept(b, true)|
    ensures BodyResult(b, true).Fails? ==> RunResult(b, true, false).Fails?
  {
    match b
    case Ends(_) =>
    case Exec(_, _, _, next) => RunsShort(next);
    case Inner(block, _, _, next) =>
      RunsShort(block.body);
      RunsShort(next);
      ErrorStopsWrites(next);
      StaysCalm(block.body, false);
  }

  /** A block that promises success honours it. A savepoint that is refused, and the refusal ignored, does no
      harm where nothing is to be written through the same handle behind it and no error is minded there,
      unless the handle is the outermost (`outermost`), whose error the commit returns. A block inside that
      does not honour its promise does none where it is to write nothing and its error is not minded. */
  predicate Honoured(b: Body, outermost: bool) {
    match b
    case Ends(_) => true
    case Exec(_, _, _, next) => Honoured(next, outermost)
    case Inner(block, stops, _, next) =>
      if !block.canSave then !outermost && Kept(next, true) == [] && NeverStops(next)
      else
        && Honoured(next, outermost)
        && (InnerResult(block, true).Succeeds? ==>
              Honoured(block.body, false) || (Kept(block.body, true) == [] && !stops))
  }

  /** That is exact. */
  lemma {:induction false} HonouredExactly(b: Body, outermost: bool)
    requires Calm(b) && BodyResult(b, true).Succeeds?
    ensures
      Honoured(b, outermost)
      <==> RunResult(b, true, false).Succeeds? && RunKept(b, true, false) == Kept(b, true)
           && (outermost ==> !RunError(b, true, false))
    decreases b, 1
  {
    match b
    case Ends(_) =>
    case Exec(ws, _, _, next) =>
      HonouredExactly(next, outermost);
      SameTail(ws, RunKept(next, true, false), Kept(next, true));
    case Inner(block, _, _, next) =>
      if block.canSave {
        InnerExactly(b, outermost);
      } else {
        ErrorStopsWrites(next);
      }
  }

  lemma SameTail(ws: seq<Write>, a: seq<Write>, b: seq<Write>)
    ensures ws + a == ws + b <==> a == b
  {
    if ws + a == ws + b {
      assert a == (ws + a)[|ws|..] && b == (ws + b)[|ws|..];
    }
  }

  /** Two sequences that are no longer than two others make up the same only if they are the same. */
  lemma SameParts(a: seq<Write>, b: seq<Write>, c: seq<Write>, d: seq<Write>)
    requires |a| <= |c| && |b| <= |d|
    ensures a + b == c + d <==> a == c && b == d
  {
    if a + b == c + d {
      assert |a| == |c|;
      assert a == (a + b)[..|a|] && c == (c + d)[..|c|];
      assert b == (a + b)[|a|..] && d == (c + d)[|c|..];
    }
  }

  lemma {:induction false} InnerExactly(b: Body, outermost: bool)
    requires Calm(b) && b.Inner? && b.block.canSave && BodyResult(b, true).Succeeds?
    ensures
      Honoured(b, outermost)
      <==> RunResult(b, true, false).Succeeds? && RunKept(b, true, false) == Kept(b, true)
           && (outermost ==> !RunError(b, true, false))
    decreases b, 0
  {
    var block, next := b.block, b.next;
    HonouredExactly(next, outermost);
    RunsShort(next);
    RunsShort(block.body);
    StaysCalm(block.body, false);
    if InnerResult(block, true).Succeeds? {
      HonouredExactly(block.body, false);
    }
    SameParts(InnerRunKept(block, true, false), RunKept(next, true, false), InnerKept(block, true), Kept(next, true));
  }
}
