/** Reading printed conditions back: a recursive-descent parser for the search
    conditions of SQL (subclause 8.12 of ISO/IEC 9075:1992), in which NOT binds
    tighter than AND, and AND tighter than OR. NOT may be repeated. */
module SearchCondition {
  import opened Conditions
  import opened Options

  datatype Ast = Atom(p: Pred) | NotOf(a: Ast) | AndOf(a: Ast, b: Ast) | OrOf(a: Ast, b: Ast)

  type Parse = Option<(Ast, seq<Tok>)>

  function EvalAst(a: Ast, env: Env): Truth {
    match a
    case Atom(p) => EvalPred(p, env)
    case NotOf(b) => Not3(EvalAst(b, env))
    case AndOf(b, c) => And3(EvalAst(b, env), EvalAst(c, env))
    case OrOf(b, c) => Or3(EvalAst(b, env), EvalAst(c, env))
  }

  /** search condition = boolean term { OR boolean term } */
  function ParseSearch(ts: seq<Tok>): (r: Parse)
    ensures r.Some? ==> |r.value.1| < |ts|
    decreases |ts|, 3
  {
    match ParseTerm(ts)
    case Some((t, rest)) => SearchTail(t, rest)
    case None => None
  }

  function SearchTail(acc: Ast, ts: seq<Tok>): (r: Parse)
    ensures r.Some? ==> |r.value.1| <= |ts|
    decreases |ts|, 0
  {
    if ts == [] || ts[0] != OR then Some((acc, ts))
    else match ParseTerm(ts[1..])
      case Some((t, rest)) => SearchTail(OrOf(acc, t), rest)
      case None => None
  }

  /** boolean term = boolean factor { AND boolean factor } */
  function ParseTerm(ts: seq<Tok>): (r: Parse)
    ensures r.Some? ==> |r.value.1| < |ts|
    decreases |ts|, 2
  {
    match ParseFactor(ts)
    case Some((f, rest)) => TermTail(f, rest)
    case None => None
  }

  function TermTail(acc: Ast, ts: seq<Tok>): (r: Parse)
    ensures r.Some? ==> |r.value.1| <= |ts|
    decreases |ts|, 0
  {
    if ts == [] || ts[0] != AND then Some((acc, ts))
    else match ParseFactor(ts[1..])
      case Some((f, rest)) => TermTail(AndOf(acc, f), rest)
      case None => None
  }

  /** boolean factor = NOT boolean factor | predicate | ( search condition ) */
  function ParseFactor(ts: seq<Tok>): (r: Parse)
    ensures r.Some? ==> |r.value.1| < |ts|
    decreases |ts|, 1
  {
    if ts == [] then None
    else match ts[0]
      case NOT =>
        (match ParseFactor(ts[1..])
         case Some((a, rest)) => Some((NotOf(a), rest))
         case None => None)
      case P(p) => Some((Atom(p), ts[1..]))
      case LP =>
        (match ParseSearch(ts[1..])
         case Some((a, rest)) => if rest != [] && rest[0] == RP then Some((a, rest[1..])) else None
         case None => None)
      case _ => None
  }

  // ----- texts that read as one factor

  /** Whatever follows, `text` is read as one factor, and it is worth `t`. */
  ghost predicate Reads(text: seq<Tok>, t: Truth, env: Env) {
    forall rest: seq<Tok> :: ReadsBefore(text, rest, t, env)
  }

  ghost predicate ReadsBefore(text: seq<Tok>, rest: seq<Tok>, t: Truth, env: Env) {
    var r := ParseFactor(text + rest);
    r.Some? && r.value.1 == rest && EvalAst(r.value.0, env) == t
  }

  ghost predicate AllRead(parts: seq<Part>, terms: seq<Term>, env: Env) {
    && |parts| == |terms|
    && forall i :: 0 <= i < |parts| ==>
         && parts[i].joint == terms[i].joint && (parts[i].joint == AND || parts[i].joint == OR)
         && Reads(parts[i].text, terms[i].t, env)
  }

  /** Both loops of the parser at once: the closed runs `acc`, the open run `cur`. */
  function Loop(acc: Option<Ast>, cur: Ast, ts: seq<Tok>): Parse {
    match TermTail(cur, ts)
    case Some((t, rest)) => SearchTail(Close(acc, t), rest)
    case None => None
  }

  function Close(acc: Option<Ast>, run: Ast): Ast {
    if acc.Some? then OrOf(acc.value, run) else run
  }

  lemma LoopAnd(acc: Option<Ast>, cur: Ast, ts: seq<Tok>, f: Ast, more: seq<Tok>)
    requires ts != [] && ts[0] == AND && ParseFactor(ts[1..]) == Some((f, more))
    ensures Loop(acc, cur, ts) == Loop(acc, AndOf(cur, f), more)
  {
  }

  lemma LoopOr(acc: Option<Ast>, cur: Ast, ts: seq<Tok>, f: Ast, more: seq<Tok>)
    requires ts != [] && ts[0] == OR && ParseFactor(ts[1..]) == Some((f, more))
    ensures Loop(acc, cur, ts) == Loop(Some(Close(acc, cur)), f, more)
  {
    assert ParseTerm(ts[1..]) == TermTail(f, more);
    assert Loop(acc, cur, ts) == SearchTail(Close(acc, cur), ts);
  }

  function EvalClosed(acc: Option<Ast>, env: Env): Truth {
    if acc.Some? then EvalAst(acc.value, env) else False
  }

  predicate Stops(rest: seq<Tok>) { rest == [] || (rest[0] != AND && rest[0] != OR) }

  lemma {:induction false} FlowParses(
      parts: seq<Part>, terms: seq<Term>, acc: Option<Ast>, cur: Ast, rest: seq<Tok>, env: Env)
    requires AllRead(parts, terms, env) && Stops(rest)
    ensures
      var r := Loop(acc, cur, Flow(parts) + rest);
      && r.Some? && r.value.1 == rest
      && EvalAst(r.value.0, env) == Gather(EvalClosed(acc, env), EvalAst(cur, env), terms)
    decreases |parts|
  {
    hide AllRead;
    hide EvalAst;
    hide Loop;
    hide TermTail;
    hide SearchTail;
    hide ParseFactor;
    hide Reads;
    hide ReadsBefore;
    AllReadLength(parts, terms, env);
    if parts == [] {
      assert Flow(parts) + rest == rest;
      LoopStops(acc, cur, rest);
      CloseWorth(acc, cur, cur, env);
    } else {
      var ts, more := Flow(parts) + rest, Flow(parts[1..]) + rest;
      assert ts == [parts[0].joint] + (parts[0].text + more);
      assert ts[1..] == parts[0].text + more;
      AllReadHead(parts, terms, env);
      var f := HeadReads(parts[0].text, terms[0].t, more, env);
      CloseWorth(acc, cur, f, env);
      if parts[0].joint == OR {
        var closed := Close(acc, cur);
        LoopOr(acc, cur, ts, f, more);
        FlowParses(parts[1..], terms[1..], Some(closed), f, rest, env);
      } else {
        LoopAnd(acc, cur, ts, f, more);
        FlowParses(parts[1..], terms[1..], acc, AndOf(cur, f), rest, env);
      }
    }
  }

  lemma AllReadLength(parts: seq<Part>, terms: seq<Term>, env: Env)
    requires AllRead(parts, terms, env)
    ensures |parts| == |terms|
  {
  }

  lemma AllReadHead(parts: seq<Part>, terms: seq<Term>, env: Env)
    requires AllRead(parts, terms, env) && parts != []
    ensures |parts| == |terms| && parts[0].joint == terms[0].joint
    ensures parts[0].joint == AND || parts[0].joint == OR
    ensures Reads(parts[0].text, terms[0].t, env)
    ensures AllRead(parts[1..], terms[1..], env)
  {
  }

  lemma CloseWorth(acc: Option<Ast>, run: Ast, f: Ast, env: Env)
    ensures EvalAst(Close(acc, run), env) == Or3(EvalClosed(acc, env), EvalAst(run, env))
    ensures EvalAst(AndOf(run, f), env) == And3(EvalAst(run, env), EvalAst(f, env))
  {
  }

  lemma LoopStops(acc: Option<Ast>, cur: Ast, rest: seq<Tok>)
    requires Stops(rest)
    ensures Loop(acc, cur, rest) == Some((Close(acc, cur), rest))
  {
  }

  lemma HeadReads(text: seq<Tok>, t: Truth, more: seq<Tok>, env: Env) returns (f: Ast)
    requires Reads(text, t, env)
    ensures ParseFactor(text + more) == Some((f, more)) && EvalAst(f, env) == t
  {
    assert ReadsBefore(text, more, t, env);
    f := ParseFactor(text + more).value.0;
  }

  /** A list of readable elements is read as a search condition that is worth the list. */
  lemma JoinedParses(parts: seq<Part>, terms: seq<Term>, rest: seq<Tok>, env: Env)
    requires AllRead(parts, terms, env) && parts != [] && Stops(rest)
    ensures
      var r := ParseSearch(Joined(parts) + rest);
      r.Some? && r.value.1 == rest && EvalAst(r.value.0, env) == ListTruth(terms)
  {
    var more := Flow(parts[1..]) + rest;
    assert Joined(parts) + rest == parts[0].text + more;
    assert Reads(parts[0].text, terms[0].t, env);
    assert ReadsBefore(parts[0].text, more, terms[0].t, env);
    var f := ParseFactor(parts[0].text + more).value.0;
    assert AllRead(parts[1..], terms[1..], env);
    FlowParses(parts[1..], terms[1..], None, f, rest, env);
  }

  /** In parentheses, or alone, it is read as one factor. */
  lemma GroupReads(parts: seq<Part>, terms: seq<Term>, env: Env)
    requires AllRead(parts, terms, env) && parts != []
    ensures Reads(Parens(|parts| > 1, Joined(parts)), ListTruth(terms), env)
  {
    var text := Parens(|parts| > 1, Joined(parts));
    forall rest: seq<Tok>
      ensures ReadsBefore(text, rest, ListTruth(terms), env)
    {
      if |parts| == 1 {
        assert Flow(parts[1..]) == [];
        assert text == parts[0].text;
        assert Reads(parts[0].text, terms[0].t, env);
        assert ReadsBefore(parts[0].text, rest, terms[0].t, env);
        assert terms[1..] == [];
      } else {
        JoinedParses(parts, terms, [RP] + rest, env);
        assert text + rest == [LP] + (Joined(parts) + ([RP] + rest));
        assert (text + rest)[1..] == Joined(parts) + ([RP] + rest);
      }
    }
  }

  lemma NotReads(text: seq<Tok>, t: Truth, env: Env)
    requires Reads(text, t, env)
    ensures Reads([NOT] + text, Not3(t), env)
  {
    forall rest: seq<Tok>
      ensures ReadsBefore([NOT] + text, rest, Not3(t), env)
    {
      assert ([NOT] + text + rest)[1..] == text + rest;
      assert ReadsBefore(text, rest, t, env);
    }
  }

  lemma PredReads(p: Pred, env: Env)
    ensures Reads([P(p)], EvalPred(p, env), env)
  {
  }

  /** Every structured tree prints as one boolean factor with the tree's meaning. */
  lemma {:induction false} PrintReads(c: Cond, env: Env)
    requires Structured(c)
    ensures Reads(Print(c), Meaning(c, env), env)
    decreases c, 1
  {
    match c
    case Leaf(l) =>
      LeafPrints(l, env);
      PredReads(BuildLeaf(l), env);
    case Raw(text) =>
      assert text == [P(text[0].p)];
      PredReads(text[0].p, env);
    case And(es) =>
      ListReads(es, AND, env);
      GroupReads(ListParts(es, AND), ListTerms(es, AND, env), env);
    case Or(es) =>
      ListReads(es, OR, env);
      GroupReads(ListParts(es, OR), ListTerms(es, OR, env), env);
    case Not(es) =>
      NotPartsRead(es, env);
      if AnyNegatable(es) {
        GroupReads(NegatedParts(es), NegatedTerms(es, env), env);
      } else {
        GroupReads(UnderNotParts(es), UnderNotTerms(es, env), env);
        NotReads(Parens(|es| > 1, Joined(UnderNotParts(es))), ListTruth(UnderNotTerms(es, env)), env);
      }
  }

  lemma {:induction false} ListReads(es: seq<Cond>, join: Tok, env: Env)
    requires (forall e <- es :: Structured(e)) && (join == AND || join == OR)
    ensures AllRead(ListParts(es, join), ListTerms(es, join, env), env)
    decreases es, 0
  {
    forall i | 0 <= i < |es|
      ensures Reads(ListParts(es, join)[i].text, ListTerms(es, join, env)[i].t, env)
    {
      PrintReads(es[i], env);
      NotWrapped(es[i]);
    }
  }

  lemma NotWrapped(c: Cond)
    requires Structured(c)
    ensures !Wrapped(c)
  {
    match c
    case Raw(text) => assert text == [text[0]];
    case And(es) =>
      assert es[0] in es;
      assert es[0].Raw? ==> es[0].text == [es[0].text[0]];
    case Or(es) =>
      assert es[0] in es;
      assert es[0].Raw? ==> es[0].text == [es[0].text[0]];
    case _ =>
  }

  lemma {:induction false} NotPartsRead(es: seq<Cond>, env: Env)
    requires forall e <- es :: Structured(e)
    ensures AllRead(NegatedParts(es), NegatedTerms(es, env), env)
    ensures AllRead(UnderNotParts(es), UnderNotTerms(es, env), env)
    decreases es, 0
  {
    forall i | 0 <= i < |es|
      ensures Reads(NegatedParts(es)[i].text, NegatedTerms(es, env)[i].t, env)
      ensures Reads(UnderNotParts(es)[i].text, UnderNotTerms(es, env)[i].t, env)
    {
      PrintReads(es[i], env);
      NotWrapped(es[i]);
      NotReads(Print(es[i]), Meaning(es[i], env), env);
      if es[i].Leaf? {
        NegationIsExact(es[i].leaf, env);
        PredReads(NegationBuildLeaf(es[i].leaf), env);
      }
    }
  }
}
