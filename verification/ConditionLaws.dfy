/** What lists and negations of conditions are worth. */
module ConditionLaws {
  import opened Conditions
  import opened Options

  // ----- a list is an OR of AND-runs

  /** Every term up to the next OR is true. */
  predicate PrefixHolds(terms: seq<Term>) {
    terms == [] || terms[0].joint == OR || (terms[0].t.True? && PrefixHolds(terms[1..]))
  }

  /** A run starts at i, and all of it is true. */
  predicate RunHolds(terms: seq<Term>, i: nat) {
    && i < |terms|
    && (i == 0 || terms[i].joint == OR)
    && terms[i].t.True?
    && PrefixHolds(terms[i + 1..])
  }

  /** An OR starts a run at i, and all of it is true. */
  predicate OrRunHolds(terms: seq<Term>, i: nat) {
    i < |terms| && terms[i].joint == OR && terms[i].t.True? && PrefixHolds(terms[i + 1..])
  }

  lemma {:induction false} GatherAccepts(acc: Truth, cur: Truth, terms: seq<Term>)
    ensures Gather(acc, cur, terms).True? <==>
      acc.True? || (cur.True? && PrefixHolds(terms)) || exists i :: OrRunHolds(terms, i)
    decreases |terms|
  {
    if terms != [] {
      var rest := terms[1..];
      if terms[0].joint == OR {
        GatherAccepts(Or3(acc, cur), terms[0].t, rest);
      } else {
        GatherAccepts(acc, And3(cur, terms[0].t), rest);
      }
      LaterRuns(terms);
    }
  }

  /** The runs that start behind the first term. */
  lemma LaterRuns(terms: seq<Term>)
    requires terms != []
    ensures (exists i :: OrRunHolds(terms, i)) <==> OrRunHolds(terms, 0) || exists i :: OrRunHolds(terms[1..], i)
  {
    forall i: nat
      ensures OrRunHolds(terms[1..], i) <==> OrRunHolds(terms, i + 1)
    {
      if i < |terms[1..]| {
        assert terms[1..][i] == terms[i + 1] && terms[1..][i + 1..] == terms[i + 1 + 1..];
      }
    }
    if i: nat :| OrRunHolds(terms, i) {
      assert i > 0 ==> OrRunHolds(terms[1..], i - 1);
    }
  }

  /** A list accepts exactly when one of its AND-runs is true from end to end. */
  lemma ListAccepts(terms: seq<Term>)
    requires terms != []
    ensures ListTruth(terms).True? <==> exists i :: RunHolds(terms, i)
  {
    GatherAccepts(False, terms[0].t, terms[1..]);
    forall i: nat
      ensures OrRunHolds(terms[1..], i) <==> RunHolds(terms, i + 1)
    {
      if i < |terms[1..]| {
        assert terms[1..][i] == terms[i + 1] && terms[1..][i + 1..] == terms[i + 1 + 1..];
      }
    }
    if i: nat :| RunHolds(terms, i) {
      assert i > 0 ==> OrRunHolds(terms[1..], i - 1);
    }
    assert RunHolds(terms, 0) <==> terms[0].t.True? && PrefixHolds(terms[1..]);
  }

  // ----- lists without OR

  predicate AllAnd(terms: seq<Term>) {
    forall i :: 0 <= i < |terms| ==> terms[i].joint != OR
  }

  function AndAll(terms: seq<Term>): Truth {
    if terms == [] then True else And3(terms[0].t, AndAll(terms[1..]))
  }

  function OrAll(terms: seq<Term>): Truth {
    if terms == [] then False else Or3(terms[0].t, OrAll(terms[1..]))
  }

  lemma {:induction false} GatherAnds(acc: Truth, cur: Truth, terms: seq<Term>)
    requires AllAnd(terms)
    ensures Gather(acc, cur, terms) == Or3(acc, And3(cur, AndAll(terms)))
    decreases |terms|
  {
    if terms != [] {
      GatherAnds(acc, And3(cur, terms[0].t), terms[1..]);
    }
  }

  lemma {:induction false} GatherOrs(acc: Truth, cur: Truth, terms: seq<Term>)
    requires forall i :: 0 <= i < |terms| ==> terms[i].joint == OR
    ensures Gather(acc, cur, terms) == Or3(acc, Or3(cur, OrAll(terms)))
    decreases |terms|
  {
    if terms != [] {
      GatherOrs(Or3(acc, cur), terms[0].t, terms[1..]);
    }
  }

  /** Joined by AND throughout, a list is the conjunction of its elements. */
  lemma AndList(terms: seq<Term>)
    requires terms != [] && AllAnd(terms[1..])
    ensures ListTruth(terms) == AndAll(terms)
  {
    GatherAnds(False, terms[0].t, terms[1..]);
  }

  /** An Or group is the disjunction of its elements. */
  lemma OrGroup(es: seq<Cond>, env: Env)
    requires AllStructured(es)
    ensures Meaning(Or(es), env) == OrAll(ListTerms(es, OR, env))
  {
    var terms := ListTerms(es, OR, env);
    GatherOrs(False, terms[0].t, terms[1..]);
  }

  /** A conjunct behind the last run of a list without OR. */
  lemma {:induction false} AndAllSnoc(terms: seq<Term>, t: Term)
    ensures AndAll(terms + [t]) == And3(AndAll(terms), t.t)
  {
    if terms == [] {
      assert terms + [t] == [t];
    } else {
      assert (terms + [t])[1..] == terms[1..] + [t];
      AndAllSnoc(terms[1..], t);
    }
  }

  lemma {:induction false} GatherOr(acc: Truth, cur: Truth, terms: seq<Term>, t: Term)
    requires t.joint == OR
    ensures Gather(acc, cur, terms + [t]) == Or3(Gather(acc, cur, terms), t.t)
    decreases |terms|
  {
    if terms == [] {
      assert terms + [t] == [t] && [t][1..] == [];
    } else {
      assert (terms + [t])[0] == terms[0] && (terms + [t])[1..] == terms[1..] + [t];
      GatherOr(Or3(acc, cur), terms[0].t, terms[1..], t);
      GatherOr(acc, And3(cur, terms[0].t), terms[1..], t);
    }
  }

  /** A condition added with Or is an alternative to everything before it; one added without it, to a list
      without Or, is one more that has to hold. */
  lemma AddedCondition(es: seq<Cond>, c: Cond, env: Env)
    requires AllStructured(es) && Structured(c)
    ensures AllStructured(es + [Or([c])]) && AllStructured(es + [c])
    ensures Meaning(And(es + [Or([c])]), env) == Or3(Meaning(And(es), env), Meaning(c, env))
    ensures !SingleOr(c) && (forall i :: 0 <= i < |es| ==> !SingleOr(es[i])) ==>
              Meaning(And(es + [c]), env) == And3(Meaning(And(es), env), Meaning(c, env))
  {
    Alone(c, OR, env);
    var terms, t := ListTerms(es, AND, env), Term(OR, Meaning(Or([c]), env));
    assert ListTerms(es + [Or([c])], AND, env) == terms + [t];
    assert (terms + [t])[1..] == terms[1..] + [t];
    GatherOr(False, terms[0].t, terms[1..], t);
    if !SingleOr(c) && forall i :: 0 <= i < |es| ==> !SingleOr(es[i]) {
      var u := Term(AND, Meaning(c, env));
      assert ListTerms(es + [c], AND, env) == terms + [u];
      AndList(terms);
      AndList(terms + [u]);
      AndAllSnoc(terms, u);
    }
  }

  // ----- constructors

  function MakeAnd(es: seq<Cond>): Option<Cond> {
    if es == [] then None
    else if |es| == 1 && !es[0].Or? then Some(es[0])
    else Some(And(es))
  }

  function MakeNot(es: seq<Cond>): Option<Cond> {
    if es == [] then None
    else if |es| == 1 && es[0].And? then Some(Not(es[0].es))
    else Some(Not(es))
  }

  /** A list of one is worth its element. */
  lemma Alone(c: Cond, join: Tok, env: Env)
    requires Structured(c)
    ensures AllStructured([c]) && ListTruth(ListTerms([c], join, env)) == Meaning(c, env)
  {
  }

  /** Leaving out the parentheses of a lone element does not change what And means, nor that it is joined by AND. */
  lemma MakeAndMeans(es: seq<Cond>, env: Env)
    requires AllStructured(es)
    ensures MakeAnd(es).Some? && Structured(MakeAnd(es).value)
    ensures Meaning(MakeAnd(es).value, env) == Meaning(And(es), env) && Joint(MakeAnd(es).value, AND) == AND
  {
  }

  // ----- the two forms of NOT

  /** No element is a membership test in nothing. */
  predicate NoEmptyLists(es: seq<Cond>) {
    forall i :: 0 <= i < |es| ==> es[i].Leaf? ==> !EmptyList(es[i].leaf)
  }

  function Negations(terms: seq<Term>): seq<Term> {
    seq(|terms|, i requires 0 <= i < |terms| => Term(AND, Not3(terms[i].t)))
  }

  lemma {:induction false} DeMorgan(terms: seq<Term>)
    ensures AndAll(Negations(terms)) == Not3(OrAll(terms))
  {
    if terms != [] {
      assert Negations(terms)[1..] == Negations(terms[1..]);
      DeMorgan(terms[1..]);
    }
  }

  /** With a self-negating element NOT means "none of them"; without one, and without Or groups,
      it means "not all of them". */
  lemma NotMeans(es: seq<Cond>, env: Env)
    requires AllStructured(es) && NoEmptyLists(es)
    ensures AnyNegatable(es) ==> Meaning(Not(es), env) == Not3(OrAll(ListTerms(es, OR, env)))
    ensures !AnyNegatable(es) && (forall i :: 0 <= i < |es| ==> !es[i].Or?) ==>
              Meaning(Not(es), env) == Not3(AndAll(ListTerms(es, AND, env)))
  {
    if AnyNegatable(es) {
      var terms := NegatedTerms(es, env);
      forall i | 0 <= i < |es|
        ensures terms[i] == Negations(ListTerms(es, OR, env))[i]
      {
        if es[i].Leaf? {
          NegationIsExact(es[i].leaf, env);
        }
      }
      assert terms == Negations(ListTerms(es, OR, env));
      AndList(terms);
      DeMorgan(ListTerms(es, OR, env));
    } else if forall i :: 0 <= i < |es| ==> !es[i].Or? {
      assert UnderNotTerms(es, env) == ListTerms(es, AND, env);
      AndList(UnderNotTerms(es, env));
    }
  }

  /** Without a self-negating element NOT rejects exactly the rows on which a run of the elements holds, where
      every Or group starts a new run: "not any of these runs". */
  lemma NotOfRuns(es: seq<Cond>, env: Env, terms: seq<Term>)
    requires AllStructured(es) && !AnyNegatable(es) && terms == UnderNotTerms(es, env)
    ensures Meaning(Not(es), env).False? <==> exists i :: RunHolds(terms, i)
  {
    ListAccepts(terms);
  }

  /** So NOT (a AND (b OR c)), with raw conditions, rejects rows that it should accept: those on which b holds
      and a does not. */
  lemma NotOfRunsDiffers(a: Pred, b: Pred, c: Pred, env: Env)
    requires EvalPred(a, env).False? && EvalPred(b, env).True?
    ensures
      var es := [Raw([P(a)]), Or([Raw([P(b)]), Raw([P(c)])])];
      AllStructured(es) && Not3(Meaning(And(es), env)).True? && Meaning(Not(es), env).False?
  {
    var either := Or([Raw([P(b)]), Raw([P(c)])]);
    var es := [Raw([P(a)]), either];
    assert Structured(either) && Structured(es[0]);
    OrGroup(either.es, env);
    assert Meaning(either.es[0], env) == EvalPred(b, env);
    assert ListTerms(either.es, OR, env)[0].t.True?;
    var conjuncts := ListTerms(es, AND, env);
    AndList(conjuncts);
    assert Meaning(es[0], env) == EvalPred(a, env);
    assert conjuncts[0].t.False?;
    assert Meaning(And(es), env) == ListTruth(conjuncts) == False;
    var terms := UnderNotTerms(es, env);
    assert terms[1].t.True? && terms[1].joint == OR && terms[2..] == [];
    assert RunHolds(terms, 1);
    NotOfRuns(es, env, terms);
  }

  ghost predicate Agree(terms: seq<Term>) {
    forall i, j :: 0 <= i < |terms| && 0 <= j < |terms| ==> terms[i].t == terms[j].t
  }

  lemma {:induction false} AllSame(terms: seq<Term>)
    requires terms != []
    ensures OrAll(terms) == AndAll(terms) <==> Agree(terms)
    ensures Agree(terms) ==> AndAll(terms) == OrAll(terms) == terms[0].t
    ensures OrAll(terms) == AndAll(terms) ==> AndAll(terms) == terms[0].t
  {
    var rest := terms[1..];
    if rest != [] {
      AllSame(rest);
      Between(rest);
      assert forall i :: 0 < i < |terms| ==> terms[i] == rest[i - 1];
    }
  }

  /** The disjunction is at least as true as the conjunction. */
  lemma Between(terms: seq<Term>)
    requires terms != []
    ensures AndAll(terms).True? ==> OrAll(terms).True?
    ensures OrAll(terms).False? ==> AndAll(terms).False?
    ensures AndAll(terms).Unknown? ==> !OrAll(terms).False?
    ensures OrAll(terms).Unknown? ==> !AndAll(terms).True?
  {
  }

  /** NOT applied to a conjunction of conditions that join with AND and can negate themselves is
      the negation of that conjunction on exactly the rows where all of them are worth the same. */
  lemma NotOfAnd(es: seq<Cond>, env: Env)
    requires AllStructured(es) && NoEmptyLists(es) && AnyNegatable(es)
    requires forall i :: 0 <= i < |es| ==> !SingleOr(es[i])
    ensures MakeNot([And(es)]) == Some(Not(es))
    ensures Meaning(Not(es), env) == Not3(Meaning(And(es), env)) <==> Agree(ListTerms(es, AND, env))
  {
    NotMeans(es, env);
    var terms := ListTerms(es, AND, env);
    AndList(terms);
    OrAllJoints(es, env);
    AllSame(terms);
  }

  lemma OrAllJoints(es: seq<Cond>, env: Env)
    requires forall e <- es :: Structured(e)
    ensures OrAll(ListTerms(es, OR, env)) == OrAll(ListTerms(es, AND, env))
  {
    SameTruths(ListTerms(es, OR, env), ListTerms(es, AND, env));
  }

  lemma {:induction false} SameTruths(a: seq<Term>, b: seq<Term>)
    requires |a| == |b| && forall i :: 0 <= i < |a| ==> a[i].t == b[i].t
    ensures OrAll(a) == OrAll(b) && AndAll(a) == AndAll(b)
  {
    if a != [] {
      SameTruths(a[1..], b[1..]);
    }
  }

  /** A row that NOT (a = 1 AND b = 2) should accept and the printed text does not. */
  lemma NotOfAndDiffers()
    ensures
      var es := [Leaf(Eq("a", One(Num(1)))), Leaf(Eq("b", One(Num(2))))];
      var env := Env((c: string) => Num(1), (x: int, y: int) => false);
      Not3(Meaning(And(es), env)) == True && Meaning(MakeNot([And(es)]).value, env) == False
  {
  }
}
