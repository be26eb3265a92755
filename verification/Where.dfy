/** The WHERE clause: its in-place reordering, the builder that prints it, and
    what the printed text means when it is read back. */
module Where {
  import opened Conditions
  import opened SearchCondition

  // ----- the list a clause prints

  /** A lone group is printed as its members. */
  function Flatten(es: seq<Cond>): seq<Cond> {
    if |es| == 1 && es[0].And? then es[0].es else es
  }

  /** What may not stand first: an Or group of one. */
  predicate Displaced(c: Cond) { c.Or? && |c.es| <= 1 }

  /** The first element that may stand first, or |es|. */
  function FirstOther(es: seq<Cond>): (k: nat)
    ensures k <= |es|
    ensures k < |es| ==> !Displaced(es[k])
    ensures forall i :: 0 <= i < k ==> Displaced(es[i])
  {
    if es == [] || !Displaced(es[0]) then 0 else 1 + FirstOther(es[1..])
  }

  function SwapFirst(es: seq<Cond>): (r: seq<Cond>)
    ensures |r| == |es|
  {
    var k := FirstOther(es);
    if k < |es| then es[0 := es[k]][k := es[0]] else es
  }

  function Printed(es: seq<Cond>): seq<Cond> { SwapFirst(Flatten(es)) }

  function WhereText(es: seq<Cond>): seq<Tok> { PrintList(Printed(es), AND) }

  /** A lone group is printed like its members. */
  lemma LoneGroupPrints(es: seq<Cond>)
    requires !(|es| == 1 && es[0].And?)
    ensures WhereText([And(es)]) == WhereText(es)
  {
  }

  /** The expressions a clause holds once it has been built: the swap is made in place. */
  function AfterBuild(es: seq<Cond>): seq<Cond> {
    if |es| == 1 && es[0].And? then [And(Printed(es))] else Printed(es)
  }

  lemma PrintedStructured(es: seq<Cond>)
    requires AllStructured(es)
    ensures AllStructured(Printed(es)) && AllStructured(AfterBuild(es))
    ensures multiset(Printed(es)) == multiset(Flatten(es))
  {
    var f := Flatten(es);
    assert es[0] in es;
    var k := FirstOther(f);
    if k < |f| {
      var moved: seq<Cond> := f[0 := f[k]][k := f[0]];
      assert multiset(moved) == multiset(f);
    }
    forall e | e in Printed(es)
      ensures Structured(e)
    {
      assert e in multiset(Printed(es));
      assert e in f;
    }
  }

  function WhereMeaning(es: seq<Cond>, env: Env): Truth
    requires AllStructured(es)
  {
    PrintedStructured(es);
    ListTruth(ListTerms(Printed(es), AND, env))
  }

  /** The printed clause reads back, to its last token, as what the clause means. */
  lemma WhereParses(es: seq<Cond>, env: Env)
    requires AllStructured(es)
    ensures
      var r := ParseSearch(WhereText(es));
      r.Some? && r.value.1 == [] && EvalAst(r.value.0, env) == WhereMeaning(es, env)
  {
    PrintedStructured(es);
    var parts := ListParts(Printed(es), AND);
    ListReads(Printed(es), AND, env);
    JoinedParses(parts, ListTerms(Printed(es), AND, env), [], env);
    assert Joined(parts) + [] == WhereText(es);
  }

  lemma SwapTwice(es: seq<Cond>)
    ensures SwapFirst(SwapFirst(es)) == SwapFirst(es)
  {
  }

  /** Building a clause again prints the same text and moves nothing more. */
  lemma BuildTwice(es: seq<Cond>)
    ensures WhereText(AfterBuild(es)) == WhereText(es)
    ensures AfterBuild(AfterBuild(es)) == AfterBuild(es)
  {
    SwapTwice(Flatten(es));
  }

  // ----- the builder

  class Builder {
    var out: seq<Tok>

    constructor ()
      ensures out == []
    {
      out := [];
    }

    method Write(t: Tok)
      modifies this
      ensures out == old(out) + [t]
    {
      out := out + [t];
    }

    method WriteAll(ts: seq<Tok>)
      modifies this
      ensures out == old(out) + ts
    {
      out := out + ts;
    }
  }

  lemma {:induction false} FlowSnoc(parts: seq<Part>, p: Part)
    ensures Flow(parts + [p]) == Flow(parts) + [p.joint] + p.text
  {
    if parts == [] {
      assert Flow([p]) == [p.joint] + p.text + Flow([]);
    } else {
      assert (parts + [p])[1..] == parts[1..] + [p];
      FlowSnoc(parts[1..], p);
    }
  }

  lemma JoinedSnoc(parts: seq<Part>, i: nat)
    requires i < |parts|
    ensures Joined(parts[..i + 1]) ==
            Joined(parts[..i]) + (if i > 0 then [parts[i].joint] else []) + parts[i].text
  {
    if i > 0 {
      assert parts[..i + 1][1..] == parts[..i][1..] + [parts[i]];
      FlowSnoc(parts[..i][1..], parts[i]);
    }
  }

  lemma JoinedNone(parts: seq<Part>)
    ensures Joined(parts[..0]) == []
  {
  }

  lemma ListPartAt(es: seq<Cond>, join: Tok, i: nat)
    requires i < |es|
    ensures ListParts(es, join)[i] == Part(Joint(es[i], join), Parens(|es| > 1 && Wrapped(es[i]), Print(es[i])))
  {
  }

  lemma NegatedPartAt(es: seq<Cond>, i: nat)
    requires i < |es|
    ensures NegatedParts(es)[i] == Part(AND, NegatedText(es[i]))
  {
  }

  lemma UnderNotPartAt(es: seq<Cond>, i: nat)
    requires i < |es|
    ensures UnderNotParts(es)[i] ==
            Part(if es[i].Or? then OR else AND, Parens(es[i].Raw? && Wrapped(es[i]), Print(es[i])))
  {
  }

  method BuildExprs(exprs: seq<Cond>, builder: Builder, join: Tok)
    modifies builder
    ensures builder.out == old(builder.out) + PrintList(exprs, join)
    decreases exprs, 0
  {
    hide ListParts;
    hide Joined;
    hide Print;
    hide Wrapped;
    hide Parens;
    ghost var parts := ListParts(exprs, join);
    JoinedNone(parts);
    for idx := 0 to |exprs|
      invariant builder.out == old(builder.out) + Joined(parts[..idx])
    {
      JoinedSnoc(parts, idx);
      ListPartAt(exprs, join, idx);
      if idx > 0 {
        if exprs[idx].Or? && |exprs[idx].es| == 1 {
          builder.Write(OR);
        } else {
          builder.Write(join);
        }
      }
      BuildItem(exprs[idx], builder, |exprs| > 1);
    }
    assert parts[..|exprs|] == parts;
  }

  /** An element of a list; `many` says that it is not alone. */
  method BuildItem(expr: Cond, builder: Builder, many: bool)
    modifies builder
    ensures builder.out == old(builder.out) + Parens(many && Wrapped(expr), Print(expr))
    decreases expr, 2
  {
    var wrapInParentheses := false;
    if many {
      match expr
      case Or(es) =>
        if |es| == 1 && es[0].Raw? {
          wrapInParentheses := HasConnective(es[0].text);
        }
      case And(es) =>
        if |es| == 1 && es[0].Raw? {
          wrapInParentheses := HasConnective(es[0].text);
        }
      case Raw(text) =>
        wrapInParentheses := HasConnective(text);
      case _ =>
    }
    assert wrapInParentheses == (many && Wrapped(expr));
    if wrapInParentheses {
      builder.Write(LP);
      BuildCond(expr, builder);
      builder.Write(RP);
    } else {
      BuildCond(expr, builder);
    }
  }

  /** An element of a NOT; raw text with a connective is put in parentheses. */
  method BuildElement(c: Cond, builder: Builder)
    modifies builder
    ensures builder.out == old(builder.out) + Parens(c.Raw? && Wrapped(c), Print(c))
    decreases c, 2
  {
    var wrapInParentheses := c.Raw?;
    if wrapInParentheses {
      wrapInParentheses := HasConnective(c.text);
      if wrapInParentheses {
        builder.Write(LP);
      }
    }
    BuildCond(c, builder);
    if wrapInParentheses {
      builder.Write(RP);
    }
  }

  method BuildNot(exprs: seq<Cond>, builder: Builder)
    modifies builder
    ensures builder.out == old(builder.out) + Print(Not(exprs))
    decreases exprs, 2
  {
    var anyNegationBuilder := false;
    for i := 0 to |exprs|
      invariant anyNegationBuilder <==> AnyNegatable(exprs[..i])
    {
      assert exprs[..i + 1] == exprs[..i] + [exprs[i]];
      if exprs[i].Leaf? {
        anyNegationBuilder := true;
        assert exprs[..i + 1][i].Leaf?;
        AnyNegatablePrefix(exprs, i + 1);
        break;
      }
    }
    assert exprs[..|exprs|] == exprs;
    if anyNegationBuilder {
      BuildNegated(exprs, builder);
    } else {
      BuildUnderNot(exprs, builder);
    }
  }

  lemma AnyNegatablePrefix(es: seq<Cond>, i: nat)
    requires i <= |es| && AnyNegatable(es[..i])
    ensures AnyNegatable(es)
  {
  }

  ghost function NegatedText(c: Cond): seq<Tok> {
    if c.Leaf? then [P(NegationBuildLeaf(c.leaf))] else [NOT] + Parens(c.Raw? && Wrapped(c), Print(c))
  }

  method BuildNegated(exprs: seq<Cond>, builder: Builder)
    modifies builder
    ensures builder.out == old(builder.out) + Parens(|exprs| > 1, Joined(NegatedParts(exprs)))
    decreases exprs, 1
  {
    hide NegatedParts;
    hide Joined;
    if |exprs| > 1 {
      builder.Write(LP);
    }
    BuildNegatedList(exprs, builder);
    if |exprs| > 1 {
      builder.Write(RP);
    }
  }

  method BuildNegatedList(exprs: seq<Cond>, builder: Builder)
    modifies builder
    ensures builder.out == old(builder.out) + Joined(NegatedParts(exprs))
    decreases exprs, 0
  {
    hide NegatedParts;
    hide NegatedText;
    hide Joined;
    ghost var parts := NegatedParts(exprs);
    JoinedNone(parts);
    for idx := 0 to |exprs|
      invariant builder.out == old(builder.out) + Joined(parts[..idx])
    {
      JoinedSnoc(parts, idx);
      NegatedPartAt(exprs, idx);
      if idx > 0 {
        builder.Write(AND);
      }
      BuildNegatedItem(exprs[idx], builder);
    }
    assert parts[..|exprs|] == parts;
  }

  method BuildNegatedItem(c: Cond, builder: Builder)
    modifies builder
    ensures builder.out == old(builder.out) + NegatedText(c)
    decreases c, 3
  {
    hide Print;
    hide Wrapped;
    hide Parens;
    if c.Leaf? {
      builder.Write(P(NegationBuildLeaf(c.leaf)));
    } else {
      builder.Write(NOT);
      BuildElement(c, builder);
    }
  }

  method BuildUnderNot(exprs: seq<Cond>, builder: Builder)
    modifies builder
    ensures builder.out == old(builder.out) + [NOT] + Parens(|exprs| > 1, Joined(UnderNotParts(exprs)))
    decreases exprs, 1
  {
    hide UnderNotParts;
    hide Joined;
    builder.Write(NOT);
    if |exprs| > 1 {
      builder.Write(LP);
    }
    BuildUnderNotList(exprs, builder);
    if |exprs| > 1 {
      builder.Write(RP);
    }
  }

  method BuildUnderNotList(exprs: seq<Cond>, builder: Builder)
    modifies builder
    ensures builder.out == old(builder.out) + Joined(UnderNotParts(exprs))
    decreases exprs, 0
  {
    hide UnderNotParts;
    hide Joined;
    hide Print;
    hide Wrapped;
    hide Parens;
    ghost var parts := UnderNotParts(exprs);
    JoinedNone(parts);
    for idx := 0 to |exprs|
      invariant builder.out == old(builder.out) + Joined(parts[..idx])
    {
      JoinedSnoc(parts, idx);
      UnderNotPartAt(exprs, idx);
      if idx > 0 {
        if exprs[idx].Or? {
          builder.Write(OR);
        } else {
          builder.Write(AND);
        }
      }
      BuildElement(exprs[idx], builder);
    }
    assert parts[..|exprs|] == parts;
  }

  method BuildCond(c: Cond, builder: Builder)
    modifies builder
    ensures builder.out == old(builder.out) + Print(c)
    decreases c, 1
  {
    match c
    case Leaf(l) => builder.Write(P(BuildLeaf(l)));
    case Raw(text) => builder.WriteAll(text);
    case And(es) => BuildGroup(es, builder, AND);
    case Or(es) => BuildGroup(es, builder, OR);
    case Not(es) => BuildNot(es, builder);
  }

  method BuildGroup(es: seq<Cond>, builder: Builder, join: Tok)
    modifies builder
    ensures builder.out == old(builder.out) + Parens(|es| > 1, PrintList(es, join))
    decreases es, 1
  {
    hide PrintList;
    if |es| > 1 {
      builder.Write(LP);
      BuildExprs(es, builder, join);
      builder.Write(RP);
    } else {
      BuildExprs(es, builder, join);
    }
  }

  class Clause {
    var exprs: seq<Cond>

    constructor (exprs: seq<Cond>)
      ensures this.exprs == exprs
    {
      this.exprs := exprs;
    }

    /** Prints the clause, moving a leading single Or behind the first other expression, in place. */
    method Build(builder: Builder)
      modifies this, builder
      ensures builder.out == old(builder.out) + WhereText(old(exprs))
      ensures exprs == AfterBuild(old(exprs))
    {
      var list := exprs;
      var lone := |exprs| == 1 && exprs[0].And?;
      if lone {
        list := exprs[0].es;
      }
      ghost var was := list;
      var idx := 0;
      while idx < |list|
        invariant idx <= |list| && list == was
        invariant forall i :: 0 <= i < idx ==> Displaced(list[i])
      {
        if !list[idx].Or? || |list[idx].es| > 1 {
          FirstOtherIs(list, idx);
          if idx != 0 {
            list := list[0 := list[idx]][idx := list[0]];
          }
          break;
        }
        idx := idx + 1;
      }
      assert list == SwapFirst(was) by {
        FirstOtherIs(was, idx);
        if 0 == idx < |was| {
          assert was[0 := was[0]][0 := was[0]] == was;
        }
      }
      exprs := if lone then [And(list)] else list;
      BuildExprs(list, builder, AND);
    }
  }

  lemma FirstOtherIs(es: seq<Cond>, k: nat)
    requires k <= |es|
    requires forall i :: 0 <= i < k ==> Displaced(es[i])
    requires k < |es| ==> !Displaced(es[k])
    ensures FirstOther(es) == k
  {
  }
}
