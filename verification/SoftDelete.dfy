/** The soft-delete rewrite of a statement's WHERE clause, and what it does to
    the rows the printed clause accepts. */
module SoftDelete {
  import opened ConditionLaws
  import opened Conditions
  import opened Options
  import opened SearchCondition
  import opened Where

  /** No clause at all is None. */
  type WhereClause = Option<seq<Cond>>

  predicate HasSingleOr(es: seq<Cond>) {
    exists i :: 0 <= i < |es| && SingleOr(es[i])
  }

  /** The expressions after the rewrite: an OR among the old ones puts them into one AND group. */
  function Rewritten(w: WhereClause, del: Cond): seq<Cond> {
    match w
    case None => [del]
    case Some(es) => (if HasSingleOr(es) then [And(es)] else es) + [del]
  }

  /** What the list is worth in the order it was given in, before any reordering. */
  function GivenMeaning(es: seq<Cond>, env: Env): Truth
    requires AllStructured(es)
  {
    ListTruth(ListTerms(es, AND, env))
  }

  predicate StructuredClause(w: WhereClause) {
    w.Some? && w.value != [] ==> AllStructured(w.value)
  }

  lemma RewrittenStructured(w: WhereClause, del: Cond)
    requires StructuredClause(w) && Structured(del)
    ensures AllStructured(Rewritten(w, del))
  {
  }

  lemma NoOrInFront(es: seq<Cond>)
    requires es != [] && !Displaced(es[0])
    ensures SwapFirst(es) == es
  {
  }

  lemma StructuredDisplaced(c: Cond)
    requires Structured(c)
    ensures Displaced(c) <==> SingleOr(c)
  {
  }

  /** The rewritten clause is worth the given list AND the soft-delete condition, in all three values. */
  lemma SoftDeleteMeans(es: seq<Cond>, del: Leaf, env: Env)
    requires AllStructured(es)
    ensures AllStructured(Rewritten(Some(es), Leaf(del)))
    ensures WhereMeaning(Rewritten(Some(es), Leaf(del)), env) ==
            And3(GivenMeaning(es, env), LeafTruth(del, env))
  {
    var d := Leaf(del);
    var rs := Rewritten(Some(es), d);
    RewrittenStructured(Some(es), d);
    assert es[0] in es;
    StructuredDisplaced(es[0]);
    assert Meaning(d, env) == LeafTruth(del, env) && Joint(d, AND) == AND;
    if HasSingleOr(es) {
      NoOrInFront(rs);
      assert Printed(rs) == rs && rs[1] == d && Meaning(rs[0], env) == GivenMeaning(es, env);
      var terms := ListTerms(rs, AND, env);
      assert terms[1..] == [Term(AND, LeafTruth(del, env))];
      AndList(terms);
      assert AndAll(terms[1..]) == And3(LeafTruth(del, env), AndAll(terms[1..][1..]));
      assert terms[1..][1..] == [];
    } else {
      assert !SingleOr(es[0]);
      NoOrInFront(rs);
      var terms := ListTerms(rs, AND, env);
      assert terms == ListTerms(es, AND, env) + [Term(AND, LeafTruth(del, env))];
      assert AllAnd(terms[1..]) && AllAnd(ListTerms(es, AND, env)[1..]);
      AndList(terms);
      AndList(ListTerms(es, AND, env));
      AndAllSnoc(ListTerms(es, AND, env), Term(AND, LeafTruth(del, env)));
    }
  }

  /** Whatever the conditions, the printed clause accepts no deleted row. */
  lemma OnlyUndeleted(w: WhereClause, del: Leaf, env: Env)
    requires StructuredClause(w)
    ensures
      var r := ParseSearch(WhereText(Rewritten(w, Leaf(del))));
      && r.Some? && r.value.1 == []
      && (EvalAst(r.value.0, env).True? ==> LeafTruth(del, env).True?)
  {
    var d := Leaf(del);
    RewrittenStructured(w, d);
    WhereParses(Rewritten(w, d), env);
    if w.Some? && w.value != [] {
      SoftDeleteMeans(w.value, del, env);
    } else {
      assert Rewritten(w, d) == [d];
      NoOrInFront([d]);
      Alone(d, AND, env);
    }
  }

  lemma FlattenMeans(es: seq<Cond>, env: Env)
    requires AllStructured(es)
    ensures AllStructured(Flatten(es)) && GivenMeaning(Flatten(es), env) == GivenMeaning(es, env)
  {
    assert es[0] in es;
    if |es| == 1 {
      assert es == [es[0]];
      Alone(es[0], AND, env);
    }
  }

  /** Building the clause moves nothing: an expression that may stand first does, or none may. */
  predicate InOrder(es: seq<Cond>) {
    var k := FirstOther(Flatten(es));
    k == 0 || k == |Flatten(es)|
  }

  /** When no reordering is due, soft delete filters: the accepted rows are exactly those that
      were accepted before and are undeleted. */
  lemma SoftDeleteFilters(es: seq<Cond>, del: Leaf, env: Env)
    requires AllStructured(es) && InOrder(es)
    ensures AllStructured(Rewritten(Some(es), Leaf(del)))
    ensures WhereMeaning(Rewritten(Some(es), Leaf(del)), env) ==
            And3(WhereMeaning(es, env), LeafTruth(del, env))
  {
    SoftDeleteMeans(es, del, env);
    FlattenMeans(es, env);
    var f := Flatten(es);
    if FirstOther(f) == 0 && f != [] {
      NoOrInFront(f);
    }
    assert Printed(es) == f;
  }

  // ----- what a due reordering does, row by row

  /** The terms of a list that begins with k single Ors and goes on with something else. */
  predicate OrsFirst(g: seq<Term>, k: nat) {
    0 < k < |g| && g[k].joint == AND && forall i :: 0 <= i < k ==> g[i].joint == OR
  }

  function Swapped(g: seq<Term>, k: nat): seq<Term>
    requires k < |g|
  {
    g[0 := g[k]][k := g[0]]
  }

  predicate OneHolds(g: seq<Term>, lo: nat, hi: int)
    requires hi <= |g|
  {
    exists i :: lo <= i < hi && g[i].t.True?
  }

  /** A run that starts behind the k-th term holds. */
  ghost predicate RunBehind(g: seq<Term>, k: nat) { exists i :: i > k && RunHolds(g, i) }

  /** What is joined to the k-th term by AND holds. */
  predicate RestHolds(g: seq<Term>, k: nat)
    requires k < |g|
  {
    PrefixHolds(g[k + 1..])
  }

  lemma GivenRuns(g: seq<Term>, k: nat)
    requires OrsFirst(g, k)
    ensures ListTruth(g).True? <==>
      OneHolds(g, 0, k - 1) || (g[k - 1].t.True? && g[k].t.True? && RestHolds(g, k)) || RunBehind(g, k)
  {
    ListAccepts(g);
    assert g[k - 1 + 1..][0] == g[k] && g[k - 1 + 1..][1..] == g[k + 1..];
    assert RunHolds(g, k - 1) <==> g[k - 1].t.True? && g[k].t.True? && RestHolds(g, k);
    forall i: nat | i < k - 1
      ensures RunHolds(g, i) <==> g[i].t.True?
    {
      assert g[i + 1..][0] == g[i + 1];
    }
    assert !RunHolds(g, k);
  }

  lemma SwappedRuns(g: seq<Term>, k: nat)
    requires OrsFirst(g, k)
    ensures ListTruth(Swapped(g, k)).True? <==>
      OneHolds(g, 1, k + 1) || (g[0].t.True? && RestHolds(g, k)) || RunBehind(g, k)
  {
    var s := Swapped(g, k);
    ListAccepts(s);
    assert s[k + 1..] == g[k + 1..];
    assert RunHolds(s, k) <==> g[0].t.True? && RestHolds(g, k);
    forall i: nat | i < k
      ensures RunHolds(s, i) <==> s[i].t.True?
    {
      assert s[i + 1..][0] == s[i + 1];
    }
    assert s[0] == g[k];
    forall i: nat | i > k
      ensures RunHolds(s, i) <==> RunHolds(g, i)
    {
      if i < |g| {
        assert s[i + 1..] == g[i + 1..];
      }
    }
    OrsMoved(g, k);
  }

  lemma OrsMoved(g: seq<Term>, k: nat)
    requires OrsFirst(g, k)
    ensures OneHolds(g, 1, k + 1) <==> OneHolds(Swapped(g, k), 0, k)
  {
    var s := Swapped(g, k);
    if i :| 1 <= i < k + 1 && g[i].t.True? {
      assert i == k ==> s[0].t.True?;
      assert i < k ==> s[i].t.True?;
    }
    if i :| 0 <= i < k && s[i].t.True? {
      assert i == 0 ==> g[k].t.True?;
      assert i > 0 ==> g[i].t.True?;
    }
  }

  /** The clause as it is printed has the first expression that is no single Or in front. */
  lemma TermsSwap(es: seq<Cond>, env: Env)
    requires AllStructured(es) && !InOrder(es)
    ensures AllStructured(Flatten(es)) && AllStructured(Printed(es))
    ensures
      var g, k := ListTerms(Flatten(es), AND, env), FirstOther(Flatten(es));
      OrsFirst(g, k) && ListTerms(Printed(es), AND, env) == Swapped(g, k)
  {
    var f := Flatten(es);
    var k := FirstOther(f);
    FlattenMeans(es, env);
    PrintedStructured(es);
    forall i | 0 <= i <= k
      ensures SingleOr(f[i]) <==> i < k
    {
      assert f[i] in f;
      StructuredDisplaced(f[i]);
    }
  }

  /** The rows that are accepted before the rewrite and not after it. */
  ghost predicate Lost(g: seq<Term>, k: nat)
    requires OrsFirst(g, k)
  {
    && !OneHolds(g, 0, k - 1) && !RunBehind(g, k)
    && (g[k].t.True? || (g[k - 1].t.True? && (k > 1 || RestHolds(g, k))))
    && !(g[k - 1].t.True? && g[k].t.True? && RestHolds(g, k))
  }

  /** The rows that are accepted after it and not before. */
  ghost predicate Returned(g: seq<Term>, k: nat)
    requires OrsFirst(g, k)
  {
    k > 1 && g[0].t.True? && !OneHolds(g, 1, k + 1) && !RestHolds(g, k) && !RunBehind(g, k)
  }

  lemma OneMore(g: seq<Term>, k: nat)
    requires OrsFirst(g, k)
    ensures OneHolds(g, 1, k + 1) <==> OneHolds(g, 1, k - 1) || g[k].t.True? || (k > 1 && g[k - 1].t.True?)
    ensures OneHolds(g, 0, k - 1) <==> OneHolds(g, 1, k - 1) || (k > 1 && g[0].t.True?)
  {
  }


  /** What the reordered list accepts and the given one does not, and the other way round. */
  lemma SwapLoses(g: seq<Term>, k: nat)
    requires OrsFirst(g, k)
    ensures
      var before, after := ListTruth(Swapped(g, k)).True?, ListTruth(g).True?;
      (before && !after <==> Lost(g, k)) && (after && !before <==> Returned(g, k))
  {
    hide RunBehind;
    hide RestHolds;
    hide OneHolds;
    hide ListTruth;
    GivenRuns(g, k);
    SwappedRuns(g, k);
    OneMore(g, k);
  }

  /** Where a reordering is due, the rewrite takes away exactly these undeleted rows, and gives back exactly
      those. */
  lemma SoftDeleteLoses(es: seq<Cond>, del: Leaf, env: Env)
    requires AllStructured(es) && !InOrder(es) && LeafTruth(del, env).True?
    ensures AllStructured(Flatten(es)) && AllStructured(Rewritten(Some(es), Leaf(del)))
    ensures
      var g, k := ListTerms(Flatten(es), AND, env), FirstOther(Flatten(es));
      var before, after := WhereMeaning(es, env).True?, WhereMeaning(Rewritten(Some(es), Leaf(del)), env).True?;
      && OrsFirst(g, k)
      && (before && !after <==> Lost(g, k))
      && (after && !before <==> Returned(g, k))
  {
    hide Lost;
    hide Returned;
    hide Rewritten;
    hide ListTruth;
    hide LeafTruth;
    TermsSwap(es, env);
    SoftDeleteMeans(es, del, env);
    FlattenMeans(es, env);
    SwapLoses(ListTerms(Flatten(es), AND, env), FirstOther(Flatten(es)));
  }

  /** A row in which one column holds 1 and all others are NULL. */
  function Only(column: string): Env {
    Env((c: string) => if c == column then Num(1) else Null, (x: int, y: int) => false)
  }

  function IsOne(column: string): Cond { Leaf(Eq(column, One(Num(1)))) }

  /** OR a, OR b, then x and y: the row with x alone is lost, the one with a alone comes back. */
  lemma SoftDeleteLosesSome()
    ensures
      var es := [Or([IsOne("a")]), Or([IsOne("b")]), IsOne("x"), IsOne("y")];
      var del := Eq("deleted_at", One(Null));
      && AllStructured(es) && AllStructured(Rewritten(Some(es), Leaf(del)))
      && LeafTruth(del, Only("x")).True? && LeafTruth(del, Only("a")).True?
      && WhereMeaning(es, Only("x")).True? && !WhereMeaning(Rewritten(Some(es), Leaf(del)), Only("x")).True?
      && !WhereMeaning(es, Only("a")).True? && WhereMeaning(Rewritten(Some(es), Leaf(del)), Only("a")).True?
  {
    hide LeafTruth;
    hide RunBehind;
    hide RestHolds;
    var es := [Or([IsOne("a")]), Or([IsOne("b")]), IsOne("x"), IsOne("y")];
    var del := Eq("deleted_at", One(Null));
    NotDeleted("x");
    NotDeleted("a");
    ExampleRow(es, "x");
    ExampleRow(es, "a");
    SoftDeleteLoses(es, del, Only("x"));
    SoftDeleteLoses(es, del, Only("a"));
  }

  lemma NotDeleted(column: string)
    requires column != "deleted_at"
    ensures LeafTruth(Eq("deleted_at", One(Null)), Only(column)).True?
  {
  }

  lemma ExampleRow(es: seq<Cond>, column: string)
    requires es == [Or([IsOne("a")]), Or([IsOne("b")]), IsOne("x"), IsOne("y")]
    ensures AllStructured(es) && !InOrder(es) && Flatten(es) == es && FirstOther(es) == 2
    ensures
      var g := ListTerms(es, AND, Only(column));
      && OrsFirst(g, 2) && !RunBehind(g, 2) && (RestHolds(g, 2) <==> column == "y")
      && (g[0].t.True? <==> column == "a") && (g[1].t.True? <==> column == "b")
      && (g[2].t.True? <==> column == "x") && (g[3].t.True? <==> column == "y")
  {
    var env := Only(column);
    assert es[1..] == [es[1], es[2], es[3]] && es[1..][1..] == [es[2], es[3]];
    assert FirstOther(es[1..][1..]) == 0;
    assert FirstOther(es[1..]) == 1;
    Alone(IsOne("a"), OR, env);
    Alone(IsOne("b"), OR, env);
    LastOfFour(ListTerms(es, AND, env));
  }

  lemma LastOfFour(g: seq<Term>)
    requires |g| == 4 && g[3].joint == AND
    ensures !RunBehind(g, 2) && (RestHolds(g, 2) <==> g[3].t.True?)
  {
    var rest := [g[3]];
    assert g[2 + 1..] == rest && rest[1..] == [];
    assert PrefixHolds(rest) <==> g[3].t.True?;
  }

  // ----- the statement

  class Statement {
    var whereExprs: WhereClause
    var softDeleteEnabled: bool
    const unscoped: bool

    constructor (w: WhereClause, unscoped: bool)
      ensures whereExprs == w && !softDeleteEnabled && this.unscoped == unscoped
    {
      whereExprs, softDeleteEnabled, this.unscoped := w, false, unscoped;
    }

    /** Adds a WHERE clause: merged behind the one that is there. */
    method AddWhere(exprs: seq<Cond>)
      modifies this`whereExprs
      ensures whereExprs == Some((if old(whereExprs).Some? then old(whereExprs).value else []) + exprs)
    {
      match whereExprs
      case Some(w) => whereExprs := Some(w + exprs);
      case None =>
        assert [] + exprs == exprs;
        whereExprs := Some(exprs);
    }

    /** The soft-delete rewrite; a statement that has been rewritten, or is unscoped, is left alone. */
    method ModifyStatement(del: Cond)
      modifies this`whereExprs, this`softDeleteEnabled
      ensures old(softDeleteEnabled) || unscoped ==>
        whereExprs == old(whereExprs) && softDeleteEnabled == old(softDeleteEnabled)
      ensures !old(softDeleteEnabled) && !unscoped ==>
        whereExprs == Some(Rewritten(old(whereExprs), del)) && softDeleteEnabled
    {
      if !softDeleteEnabled && !unscoped {
        if whereExprs.Some? && |whereExprs.value| >= 1 {
          var exprs := whereExprs.value;
          for i := 0 to |exprs|
            invariant whereExprs == old(whereExprs) == Some(exprs)
            invariant forall j :: 0 <= j < i ==> !SingleOr(exprs[j])
          {
            if exprs[i].Or? && |exprs[i].es| == 1 {
              assert SingleOr(exprs[i]) && MakeAnd(exprs) == Some(And(exprs));
              whereExprs := Some([MakeAnd(exprs).value]);
              break;
            }
          }
          assert whereExprs == Some(if HasSingleOr(exprs) then [And(exprs)] else exprs);
        }
        assert [] + [del] == [del];
        AddWhere([del]);
        softDeleteEnabled := true;
      }
    }
  }

  /** The second rewrite of a statement changes nothing, and what is built from it is the same. */
  method RewriteTwice(stmt: Statement, del: Cond)
    modifies stmt
    ensures !old(stmt.softDeleteEnabled) && !stmt.unscoped ==>
              stmt.whereExprs == Some(Rewritten(old(stmt.whereExprs), del))
    ensures old(stmt.softDeleteEnabled) || stmt.unscoped ==> stmt.whereExprs == old(stmt.whereExprs)
  {
    stmt.ModifyStatement(del);
    stmt.ModifyStatement(del);
  }
}
