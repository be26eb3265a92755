/** Condition trees, the text they are printed as, and what both mean in SQL's
    three-valued logic. */
module Conditions {
  // ----- three-valued logic

  datatype Truth = True | False | Unknown

  function And3(a: Truth, b: Truth): Truth {
    if a.False? || b.False? then False else if a.True? && b.True? then True else Unknown
  }

  function Or3(a: Truth, b: Truth): Truth {
    if a.True? || b.True? then True else if a.False? && b.False? then False else Unknown
  }

  function Not3(a: Truth): Truth {
    match a
    case True => False
    case False => True
    case Unknown => Unknown
  }

  function Holds(b: bool): Truth { if b then True else False }

  // ----- predicates as they are printed

  datatype Value = Null | Num(n: int)

  datatype Op = EQ | NE | GT | GE | LT | LE | LIKE | NOT_LIKE

  datatype Pred =
    | Compare(col: string, op: Op, v: Value)
    | IsNull(col: string, negated: bool)
    | InList(col: string, vs: seq<Value>, negated: bool)

  /** A row, and how LIKE compares a value with a pattern. */
  datatype Env = Env(row: string -> Value, like: (int, int) -> bool)

  function CompareValues(x: Value, op: Op, y: Value, like: (int, int) -> bool): Truth {
    if x.Null? || y.Null? then Unknown
    else match op
      case EQ => Holds(x.n == y.n)
      case NE => Holds(x.n != y.n)
      case GT => Holds(x.n > y.n)
      case GE => Holds(x.n >= y.n)
      case LT => Holds(x.n < y.n)
      case LE => Holds(x.n <= y.n)
      case LIKE => Holds(like(x.n, y.n))
      case NOT_LIKE => Holds(!like(x.n, y.n))
  }

  function Among(x: Value, vs: seq<Value>, like: (int, int) -> bool): Truth {
    if vs == [] then False else Or3(CompareValues(x, EQ, vs[0], like), Among(x, vs[1..], like))
  }

  function EvalPred(p: Pred, env: Env): Truth {
    match p
    case Compare(c, op, v) => CompareValues(env.row(c), op, v, env.like)
    case IsNull(c, negated) => Holds(env.row(c).Null? != negated)
    case InList(c, vs, negated) =>
      if negated then Not3(Among(env.row(c), vs, env.like)) else Among(env.row(c), vs, env.like)
  }

  // ----- structured leaves

  /** A single value, or a slice of them. */
  datatype Operand = One(v: Value) | Many(vs: seq<Value>)

  datatype Leaf =
    | Eq(col: string, value: Operand)
    | Neq(col: string, value: Operand)
    | Gt(col: string, v: Value)
    | Gte(col: string, v: Value)
    | Lt(col: string, v: Value)
    | Lte(col: string, v: Value)
    | Like(col: string, v: Value)
    | IN(col: string, vs: seq<Value>)

  function BuildLeaf(l: Leaf): Pred {
    match l
    case Eq(c, Many(vs)) => if vs == [] then InList(c, [Null], false) else InList(c, vs, false)
    case Eq(c, One(v)) => if v.Null? then IsNull(c, false) else Compare(c, EQ, v)
    case Neq(c, Many(vs)) => InList(c, vs, true)
    case Neq(c, One(v)) => if v.Null? then IsNull(c, true) else Compare(c, NE, v)
    case Gt(c, v) => Compare(c, GT, v)
    case Gte(c, v) => Compare(c, GE, v)
    case Lt(c, v) => Compare(c, LT, v)
    case Lte(c, v) => Compare(c, LE, v)
    case Like(c, v) => Compare(c, LIKE, v)
    case IN(c, vs) =>
      if vs == [] then InList(c, [Null], false)
      else if |vs| == 1 then Compare(c, EQ, vs[0])
      else InList(c, vs, false)
  }

  function NegationBuildLeaf(l: Leaf): Pred {
    match l
    case Eq(c, v) => BuildLeaf(Neq(c, v))
    case Neq(c, v) => BuildLeaf(Eq(c, v))
    case Gt(c, v) => BuildLeaf(Lte(c, v))
    case Gte(c, v) => BuildLeaf(Lt(c, v))
    case Lt(c, v) => BuildLeaf(Gte(c, v))
    case Lte(c, v) => BuildLeaf(Gt(c, v))
    case Like(c, v) => Compare(c, NOT_LIKE, v)
    case IN(c, vs) =>
      if vs == [] then IsNull(c, true)
      else if |vs| == 1 then Compare(c, NE, vs[0])
      else InList(c, vs, true)
  }

  /** A membership test in nothing. */
  predicate EmptyList(l: Leaf) {
    match l
    case Eq(_, Many(vs)) => vs == []
    case Neq(_, Many(vs)) => vs == []
    case IN(_, vs) => vs == []
    case _ => false
  }

  // ----- what leaves mean on a row, however they are printed

  /** A comparison with NULL is unknown. */
  function Told(x: Value, y: Value, holds: bool): Truth { if x == Null || y == Null then Unknown else Holds(holds) }

  /** A value that is not NULL and in the list is a member; no NULL is known to be one, nothing is known not to be
      a member of a list with NULL in it, and an empty list is taken for one of NULL. */
  function Member(x: Value, vs: seq<Value>): Truth {
    if x != Null && x in vs then True else if vs == [] || x == Null || Null in vs then Unknown else False
  }

  function LeafTruth(l: Leaf, env: Env): Truth {
    var x := env.row(l.col);
    match l
    case Eq(_, One(v)) => if v == Null then Holds(x == Null) else Told(x, v, x == v)
    case Neq(_, One(v)) => if v == Null then Holds(x != Null) else Told(x, v, x != v)
    case Eq(_, Many(vs)) => Member(x, vs)
    case Neq(_, Many(vs)) => if vs == [] then True else Not3(Member(x, vs))
    case Gt(_, v) => Told(x, v, x.Num? && v.Num? && x.n > v.n)
    case Gte(_, v) => Told(x, v, x.Num? && v.Num? && x.n >= v.n)
    case Lt(_, v) => Told(x, v, x.Num? && v.Num? && x.n < v.n)
    case Lte(_, v) => Told(x, v, x.Num? && v.Num? && x.n <= v.n)
    case Like(_, v) => Told(x, v, x.Num? && v.Num? && env.like(x.n, v.n))
    case IN(_, vs) => Member(x, vs)
  }

  /** The negation of a leaf; for a membership test in nothing it is something else. */
  function NegatedTruth(l: Leaf, env: Env): Truth {
    if !EmptyList(l) then Not3(LeafTruth(l, env))
    else match l
      case Eq(_, _) => True
      case IN(c, _) => Holds(env.row(c) != Null)
      case _ => Unknown
  }

  lemma {:induction false} AmongIsMember(x: Value, vs: seq<Value>, like: (int, int) -> bool)
    requires vs != []
    ensures Among(x, vs, like) == Member(x, vs)
  {
    var rest := vs[1..];
    assert vs == [vs[0]] + rest;
    if rest == [] {
      assert Among(x, rest, like) == False;
    } else {
      AmongIsMember(x, rest, like);
    }
  }

  /** The predicate that is printed for a leaf is worth what the leaf means. */
  lemma LeafPrints(l: Leaf, env: Env)
    ensures EvalPred(BuildLeaf(l), env) == LeafTruth(l, env)
  {
    var x := env.row(l.col);
    if l.IN? && l.vs != [] {
      AmongIsMember(x, l.vs, env.like);
    }
    if (l.Eq? || l.Neq?) && l.value.Many? && l.value.vs != [] {
      AmongIsMember(x, l.value.vs, env.like);
    }
    AmongIsMember(x, [Null], env.like);
  }

  /** So is the one printed for its negation: the negation on every row, except for membership in an empty list,
      where it is on none. */
  lemma NegationIsExact(l: Leaf, env: Env)
    ensures EvalPred(NegationBuildLeaf(l), env) == NegatedTruth(l, env)
    ensures NegatedTruth(l, env) == Not3(LeafTruth(l, env)) <==> !EmptyList(l)
  {
    var x := env.row(l.col);
    if l.IN? && l.vs != [] {
      AmongIsMember(x, l.vs, env.like);
    }
    if (l.Eq? || l.Neq?) && l.value.Many? && l.value.vs != [] {
      AmongIsMember(x, l.value.vs, env.like);
    }
    AmongIsMember(x, [Null], env.like);
  }

  // ----- trees and their text

  datatype Tok = LP | RP | AND | OR | NOT | P(p: Pred)

  /** Raw stands for Expr: text that does not know how to negate itself. */
  datatype Cond =
    | Leaf(leaf: Leaf)
    | Raw(text: seq<Tok>)
    | And(es: seq<Cond>)
    | Or(es: seq<Cond>)
    | Not(es: seq<Cond>)

  predicate SingleOr(c: Cond) { c.Or? && |c.es| == 1 }

  predicate HasConnective(text: seq<Tok>) { AND in text || OR in text }

  /** Raw text with a connective is put in parentheses, as is a one-element group around it. */
  predicate Wrapped(c: Cond) {
    match c
    case Raw(text) => HasConnective(text)
    case And(es) => |es| == 1 && es[0].Raw? && HasConnective(es[0].text)
    case Or(es) => |es| == 1 && es[0].Raw? && HasConnective(es[0].text)
    case _ => false
  }

  function Parens(yes: bool, text: seq<Tok>): seq<Tok> {
    if yes then [LP] + text + [RP] else text
  }

  /** The connective written before an element of a list. */
  function Joint(c: Cond, join: Tok): Tok {
    if SingleOr(c) then OR else join
  }

  predicate AnyNegatable(es: seq<Cond>) {
    exists i :: 0 <= i < |es| && es[i].Leaf?
  }

  /** A list element as printed: the connective before it, and its text. */
  datatype Part = Part(joint: Tok, text: seq<Tok>)

  function Flow(parts: seq<Part>): seq<Tok> {
    if parts == [] then [] else [parts[0].joint] + parts[0].text + Flow(parts[1..])
  }

  /** The first element has no connective before it. */
  function Joined(parts: seq<Part>): seq<Tok> {
    if parts == [] then [] else parts[0].text + Flow(parts[1..])
  }

  function Print(c: Cond): seq<Tok>
    decreases c, 1
  {
    match c
    case Leaf(l) => [P(BuildLeaf(l))]
    case Raw(text) => text
    case And(es) => Parens(|es| > 1, PrintList(es, AND))
    case Or(es) => Parens(|es| > 1, PrintList(es, OR))
    case Not(es) =>
      if AnyNegatable(es) then Parens(|es| > 1, Joined(NegatedParts(es)))
      else [NOT] + Parens(|es| > 1, Joined(UnderNotParts(es)))
  }

  function PrintList(es: seq<Cond>, join: Tok): seq<Tok>
    decreases es, 1
  {
    Joined(ListParts(es, join))
  }

  function ListParts(es: seq<Cond>, join: Tok): (r: seq<Part>)
    ensures |r| == |es|
    decreases es, 0
  {
    seq(|es|, i requires 0 <= i < |es| =>
      Part(Joint(es[i], join), Parens(|es| > 1 && Wrapped(es[i]), Print(es[i]))))
  }

  /** The elements of a NOT when one of them can negate itself: each is negated. */
  function NegatedParts(es: seq<Cond>): (r: seq<Part>)
    ensures |r| == |es|
    decreases es, 0
  {
    seq(|es|, i requires 0 <= i < |es| =>
      Part(AND, if es[i].Leaf? then [P(NegationBuildLeaf(es[i].leaf))]
                else [NOT] + Parens(es[i].Raw? && Wrapped(es[i]), Print(es[i]))))
  }

  /** The elements of a NOT in front of them all: every Or group is joined with OR. */
  function UnderNotParts(es: seq<Cond>): (r: seq<Part>)
    ensures |r| == |es|
    decreases es, 0
  {
    seq(|es|, i requires 0 <= i < |es| =>
      Part(if es[i].Or? then OR else AND, Parens(es[i].Raw? && Wrapped(es[i]), Print(es[i]))))
  }

  // ----- what a tree means

  datatype Term = Term(joint: Tok, t: Truth)

  /** Runs of AND, separated by OR: `acc` is the disjunction of the closed runs, `cur` the open one. */
  function Gather(acc: Truth, cur: Truth, terms: seq<Term>): Truth
    decreases |terms|
  {
    if terms == [] then Or3(acc, cur)
    else if terms[0].joint == OR then Gather(Or3(acc, cur), terms[0].t, terms[1..])
    else Gather(acc, And3(cur, terms[0].t), terms[1..])
  }

  function ListTruth(terms: seq<Term>): Truth
    requires terms != []
  {
    Gather(False, terms[0].t, terms[1..])
  }

  /** Structured: groups are not empty, and raw text is a single predicate. */
  predicate Structured(c: Cond) {
    match c
    case Leaf(_) => true
    case Raw(text) => |text| == 1 && text[0].P?
    case And(es) => es != [] && forall e <- es :: Structured(e)
    case Or(es) => es != [] && forall e <- es :: Structured(e)
    case Not(es) => es != [] && forall e <- es :: Structured(e)
  }

  predicate AllStructured(es: seq<Cond>) {
    es != [] && forall e <- es :: Structured(e)
  }

  function Meaning(c: Cond, env: Env): Truth
    requires Structured(c)
    decreases c, 1
  {
    match c
    case Leaf(l) => LeafTruth(l, env)
    case Raw(text) => EvalPred(text[0].p, env)
    case And(es) => ListTruth(ListTerms(es, AND, env))
    case Or(es) => ListTruth(ListTerms(es, OR, env))
    case Not(es) =>
      if AnyNegatable(es) then ListTruth(NegatedTerms(es, env))
      else Not3(ListTruth(UnderNotTerms(es, env)))
  }

  function ListTerms(es: seq<Cond>, join: Tok, env: Env): (r: seq<Term>)
    requires forall e <- es :: Structured(e)
    ensures |r| == |es|
    decreases es, 0
  {
    seq(|es|, i requires 0 <= i < |es| => Term(Joint(es[i], join), Meaning(es[i], env)))
  }

  function NegatedTerms(es: seq<Cond>, env: Env): (r: seq<Term>)
    requires forall e <- es :: Structured(e)
    ensures |r| == |es|
    decreases es, 0
  {
    seq(|es|, i requires 0 <= i < |es| =>
      Term(AND, if es[i].Leaf? then NegatedTruth(es[i].leaf, env) else Not3(Meaning(es[i], env))))
  }

  function UnderNotTerms(es: seq<Cond>, env: Env): (r: seq<Term>)
    requires forall e <- es :: Structured(e)
    ensures |r| == |es|
    decreases es, 0
  {
    seq(|es|, i requires 0 <= i < |es| => Term(if es[i].Or? then OR else AND, Meaning(es[i], env)))
  }
}
