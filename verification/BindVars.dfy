/** Bind variables: how a template and its arguments become SQL text with
    placeholders and a list of variables, and that the two stay in step. */
module BindVars {
  /** An argument. Bytes is a slice of bytes; Nested is an expression with arguments of its own. */
  datatype Var =
    | Scalar(n: int)
    | Nil
    | Bytes(bs: seq<int>)
    | Named(value: Var)
    | Column(name: string)
    | List(vs: seq<Var>)
    | Nested(sql: string, vars: seq<Var>, withoutParentheses: bool)

  /** A written character, or the placeholder of the n-th variable. */
  datatype Ch = C(c: char) | Bind(n: nat)

  /** What is written, and which variables are appended. */
  datatype Out = Out(text: seq<Ch>, vars: seq<Var>)

  function Chars(s: string): (r: seq<Ch>)
    ensures |r| == |s|
  {
    seq(|s|, i requires 0 <= i < |s| => C(s[i]))
  }

  function Then(a: Out, b: Out): Out { Out(a.text + b.text, a.vars + b.vars) }

  /** Between `open` and `close`. */
  function Around(open: string, a: Out, close: string): Out {
    Out(Chars(open) + a.text + Chars(close), a.vars)
  }

  // ----- AddVar, processValue and Expr.Build, with n variables there already

  function RenderVar(v: Var, n: nat): Out
    decreases v, 0
  {
    match v
    case Scalar(_) => Out([Bind(n + 1)], [v])
    case Nil => Out([Bind(n + 1)], [v])
    case Bytes(_) => Out([Bind(n + 1)], [v])
    case Named(value) => Out([], [value])
    case Column(name) => Out(Chars(name), [])
    case List(vs) => if vs == [] then Out(Chars("(NULL)"), []) else Around("(", RenderVars(vs, n), ")")
    case Nested(sql, vars, w) => RenderExpr(sql, vars, false, w, n)
  }

  /** Several variables, separated by commas. */
  function RenderVars(vs: seq<Var>, n: nat): Out
    decreases vs, 0
  {
    if vs == [] then Out([], [])
    else if |vs| == 1 then RenderVar(vs[0], n)
    else
      var first := RenderVar(vs[0], n);
      Then(first, Around(",", RenderVars(vs[1..], n + |first.vars|), ""))
  }

  /** Bytes taken for numbers, separated by commas. */
  function RenderBytes(bs: seq<int>, n: nat): Out {
    if bs == [] then Out([], [])
    else if |bs| == 1 then Out([Bind(n + 1)], [Scalar(bs[0])])
    else Then(Out([Bind(n + 1)], [Scalar(bs[0])]), Around(",", RenderBytes(bs[1..], n + 1), ""))
  }

  /** Behind an opening parenthesis a list is written without its own, and so is a slice of bytes. */
  function RenderBare(v: Var, n: nat): Out
    decreases v, 1
  {
    match v
    case List(vs) => if vs == [] then Out([Bind(n + 1)], [Nil]) else RenderVars(vs, n)
    case Bytes(bs) => if bs == [] then Out([Bind(n + 1)], [Nil]) else RenderBytes(bs, n)
    case _ => RenderVar(v, n)
  }

  /** A template: `?` takes the next argument; arguments that are left over are only appended. */
  function RenderExpr(sql: string, vars: seq<Var>, afterParenthesis: bool, bare: bool, n: nat): Out
    decreases vars, 1, |sql|
  {
    if sql == "" then Out([], vars)
    else if sql[0] == '?' && vars != [] then
      var first := if afterParenthesis || bare then RenderBare(vars[0], n) else RenderVar(vars[0], n);
      Then(first, RenderExpr(sql[1..], vars[1..], afterParenthesis, bare, n + |first.vars|))
    else
      Then(Out([C(sql[0])], []), RenderExpr(sql[1..], vars, sql[0] == '(', bare, n))
  }

  // ----- the same, with the values written in place

  datatype Lit = Plain(c: char) | Value(v: Var)

  function Plains(s: string): (r: seq<Lit>)
    ensures |r| == |s|
  {
    seq(|s|, i requires 0 <= i < |s| => Plain(s[i]))
  }

  function InlineVar(v: Var): seq<Lit>
    decreases v, 0
  {
    match v
    case Scalar(_) => [Value(v)]
    case Nil => [Value(v)]
    case Bytes(_) => [Value(v)]
    case Named(_) => []
    case Column(name) => Plains(name)
    case List(vs) => if vs == [] then Plains("(NULL)") else Plains("(") + InlineVars(vs) + Plains(")")
    case Nested(sql, vars, w) => InlineExpr(sql, vars, false, w)
  }

  function InlineVars(vs: seq<Var>): seq<Lit>
    decreases vs, 0
  {
    if vs == [] then []
    else if |vs| == 1 then InlineVar(vs[0])
    else InlineVar(vs[0]) + (Plains(",") + InlineVars(vs[1..]))
  }

  function InlineBytes(bs: seq<int>): seq<Lit> {
    if bs == [] then []
    else if |bs| == 1 then [Value(Scalar(bs[0]))]
    else [Value(Scalar(bs[0]))] + (Plains(",") + InlineBytes(bs[1..]))
  }

  function InlineBare(v: Var): seq<Lit>
    decreases v, 1
  {
    match v
    case List(vs) => if vs == [] then [Value(Nil)] else InlineVars(vs)
    case Bytes(bs) => if bs == [] then [Value(Nil)] else InlineBytes(bs)
    case _ => InlineVar(v)
  }

  function InlineExpr(sql: string, vars: seq<Var>, afterParenthesis: bool, bare: bool): seq<Lit>
    decreases vars, 1, |sql|
  {
    if sql == "" then []
    else if sql[0] == '?' && vars != [] then
      (if afterParenthesis || bare then InlineBare(vars[0]) else InlineVar(vars[0]))
      + InlineExpr(sql[1..], vars[1..], afterParenthesis, bare)
    else [Plain(sql[0])] + InlineExpr(sql[1..], vars, sql[0] == '(', bare)
  }

  // ----- filling the placeholders gives the inlined text

  function FillCh(c: Ch, vars: seq<Var>): Lit {
    match c
    case C(x) => Plain(x)
    case Bind(n) => if 1 <= n <= |vars| then Value(vars[n - 1]) else Plain('?')
  }

  function Fill(text: seq<Ch>, vars: seq<Var>): (r: seq<Lit>)
    ensures |r| == |text|
  {
    seq(|text|, i requires 0 <= i < |text| => FillCh(text[i], vars))
  }

  lemma FillConcat(a: seq<Ch>, b: seq<Ch>, vars: seq<Var>)
    ensures Fill(a + b, vars) == Fill(a, vars) + Fill(b, vars)
  {
  }

  lemma FillChars(s: string, vars: seq<Var>)
    ensures Fill(Chars(s), vars) == Plains(s)
  {
  }

  /** `out`, written when n variables were there, fills to `lits` from any list that has its variables
      behind the first n. */
  ghost predicate Fills(out: Out, n: nat, lits: seq<Lit>) {
    forall all: seq<Var> :: FillsFrom(out, n, lits, all)
  }

  ghost predicate FillsFrom(out: Out, n: nat, lits: seq<Lit>, all: seq<Var>) {
    |all| >= n + |out.vars| && all[n..n + |out.vars|] == out.vars ==> Fill(out.text, all) == lits
  }

  lemma FillsThen(a: Out, b: Out, n: nat, la: seq<Lit>, lb: seq<Lit>)
    requires Fills(a, n, la) && Fills(b, n + |a.vars|, lb)
    ensures Fills(Then(a, b), n, la + lb)
  {
    forall all: seq<Var>
      ensures FillsFrom(Then(a, b), n, la + lb, all)
    {
      if |all| >= n + |a.vars + b.vars| && all[n..n + |a.vars + b.vars|] == a.vars + b.vars {
        assert all[n..n + |a.vars|] == all[n..n + |a.vars + b.vars|][..|a.vars|] == a.vars;
        assert all[n + |a.vars|..n + |a.vars| + |b.vars|] == all[n..n + |a.vars + b.vars|][|a.vars|..] == b.vars;
        assert FillsFrom(a, n, la, all) && FillsFrom(b, n + |a.vars|, lb, all);
        FillConcat(a.text, b.text, all);
      }
    }
  }

  lemma FillsAround(open: string, a: Out, close: string, n: nat, la: seq<Lit>)
    requires Fills(a, n, la)
    ensures Fills(Around(open, a, close), n, Plains(open) + la + Plains(close))
  {
    forall all: seq<Var>
      ensures FillsFrom(Around(open, a, close), n, Plains(open) + la + Plains(close), all)
    {
      assert FillsFrom(a, n, la, all);
      FillChars(open, all);
      FillChars(close, all);
      FillConcat(Chars(open) + a.text, Chars(close), all);
      FillConcat(Chars(open), a.text, all);
    }
  }

  lemma FillsChars(s: string, n: nat)
    ensures Fills(Out(Chars(s), []), n, Plains(s))
  {
  }

  lemma FillsOne(v: Var, n: nat)
    ensures Fills(Out([Bind(n + 1)], [v]), n, [Value(v)])
  {
  }

  /** Every placeholder stands where its variable would have been written. */
  lemma {:induction false} VarFills(v: Var, n: nat)
    ensures Fills(RenderVar(v, n), n, InlineVar(v))
    decreases v, 0
  {
    match v
    case Scalar(_) => FillsOne(v, n);
    case Nil => FillsOne(v, n);
    case Bytes(_) => FillsOne(v, n);
    case Named(value) => assert forall all: seq<Var> :: FillsFrom(RenderVar(v, n), n, [], all);
    case Column(name) => FillsChars(name, n);
    case List(vs) =>
      if vs == [] {
        FillsChars("(NULL)", n);
      } else {
        VarsFill(vs, n);
        FillsAround("(", RenderVars(vs, n), ")", n, InlineVars(vs));
      }
    case Nested(sql, vars, w) => ExprFills(sql, vars, false, w, n);
  }

  lemma {:induction false} VarsFill(vs: seq<Var>, n: nat)
    ensures Fills(RenderVars(vs, n), n, InlineVars(vs))
    decreases vs, 0
  {
    if vs == [] {
      assert forall all: seq<Var> :: FillsFrom(RenderVars(vs, n), n, [], all);
    } else {
      VarFills(vs[0], n);
      if |vs| > 1 {
        var first := RenderVar(vs[0], n);
        var m := n + |first.vars|;
        VarsFill(vs[1..], m);
        FillsAround(",", RenderVars(vs[1..], m), "", m, InlineVars(vs[1..]));
        assert Plains(",") + InlineVars(vs[1..]) + Plains("") == Plains(",") + InlineVars(vs[1..]);
        FillsThen(first, Around(",", RenderVars(vs[1..], m), ""), n,
                  InlineVar(vs[0]), Plains(",") + InlineVars(vs[1..]));
      }
    }
  }

  lemma {:induction false} BytesFill(bs: seq<int>, n: nat)
    ensures Fills(RenderBytes(bs, n), n, InlineBytes(bs))
  {
    if bs == [] {
      assert forall all: seq<Var> :: FillsFrom(RenderBytes(bs, n), n, [], all);
    } else {
      FillsOne(Scalar(bs[0]), n);
      if |bs| > 1 {
        var rest := RenderBytes(bs[1..], n + 1);
        BytesFill(bs[1..], n + 1);
        FillsAround(",", rest, "", n + 1, InlineBytes(bs[1..]));
        assert Plains(",") + InlineBytes(bs[1..]) + Plains("") == Plains(",") + InlineBytes(bs[1..]);
        FillsThen(Out([Bind(n + 1)], [Scalar(bs[0])]), Around(",", rest, ""), n,
                  [Value(Scalar(bs[0]))], Plains(",") + InlineBytes(bs[1..]));
      }
    }
  }

  lemma {:induction false} BareFills(v: Var, n: nat)
    ensures Fills(RenderBare(v, n), n, InlineBare(v))
    decreases v, 1
  {
    match v
    case List(vs) =>
      if vs == [] {
        FillsOne(Nil, n);
      } else {
        VarsFill(vs, n);
      }
    case Bytes(bs) =>
      if bs == [] {
        FillsOne(Nil, n);
      } else {
        BytesFill(bs, n);
      }
    case _ => VarFills(v, n);
  }

  lemma {:induction false} ExprFills(sql: string, vars: seq<Var>, after: bool, bare: bool, n: nat)
    ensures Fills(RenderExpr(sql, vars, after, bare, n), n, InlineExpr(sql, vars, after, bare))
    decreases vars, 1, |sql|
  {
    if sql == "" {
      assert forall all: seq<Var> :: FillsFrom(Out([], vars), n, [], all);
    } else if sql[0] == '?' && vars != [] {
      VarFills(vars[0], n);
      BareFills(vars[0], n);
      var first := if after || bare then RenderBare(vars[0], n) else RenderVar(vars[0], n);
      var lits := if after || bare then InlineBare(vars[0]) else InlineVar(vars[0]);
      var m := n + |first.vars|;
      ExprFills(sql[1..], vars[1..], after, bare, m);
      FillsThen(first, RenderExpr(sql[1..], vars[1..], after, bare, m), n, lits,
                InlineExpr(sql[1..], vars[1..], after, bare));
    } else {
      FillsChars([sql[0]], n);
      assert Chars([sql[0]]) == [C(sql[0])] && Plains([sql[0]]) == [Plain(sql[0])];
      ExprFills(sql[1..], vars, sql[0] == '(', bare, n);
      FillsThen(Out([C(sql[0])], []), RenderExpr(sql[1..], vars, sql[0] == '(', bare, n), n,
                [Plain(sql[0])], InlineExpr(sql[1..], vars, sql[0] == '(', bare));
    }
  }

  // ----- as many placeholders as variables, in the same order

  /** The numbers of the placeholders, in the order they are written. */
  function Binds(text: seq<Ch>): seq<nat> {
    if text == [] then []
    else (match text[0] case Bind(n) => [n] case C(_) => []) + Binds(text[1..])
  }

  /** n + 1, ..., n + k */
  function UpFrom(n: nat, k: nat): (r: seq<nat>)
    ensures |r| == k
  {
    seq(k, i => n + 1 + i)
  }

  /** Variables that are appended without a placeholder. */
  function Leftovers(v: Var): nat
    decreases v, 0
  {
    match v
    case Named(_) => 1
    case List(vs) => LeftoversOf(vs)
    case Nested(sql, vars, _) => LeftoversIn(sql, vars)
    case _ => 0
  }

  function LeftoversOf(vs: seq<Var>): nat
    decreases vs, 0
  {
    if vs == [] then 0 else Leftovers(vs[0]) + LeftoversOf(vs[1..])
  }

  function LeftoversIn(sql: string, vars: seq<Var>): nat
    decreases vars, 1, |sql|
  {
    if sql == "" then |vars|
    else if sql[0] == '?' && vars != [] then Leftovers(vars[0]) + LeftoversIn(sql[1..], vars[1..])
    else LeftoversIn(sql[1..], vars)
  }

  predicate Atom(v: Var) { v.Scalar? || v.Nil? || v.Bytes? }

  predicate AtomOnly(vs: seq<Var>) { forall i :: 0 <= i < |vs| ==> Atom(vs[i]) }

  /** `left` variables have no placeholder; with none left over, the k-th placeholder is the k-th variable's. */
  ghost predicate InStep(out: Out, n: nat, left: nat) {
    && |Binds(out.text)| + left == |out.vars|
    && (left == 0 ==> Binds(out.text) == UpFrom(n, |out.vars|) && AtomOnly(out.vars))
  }

  lemma {:induction false} BindsConcat(a: seq<Ch>, b: seq<Ch>)
    ensures Binds(a + b) == Binds(a) + Binds(b)
  {
    if a == [] {
      assert a + b == b;
    } else {
      assert (a + b)[1..] == a[1..] + b;
      BindsConcat(a[1..], b);
    }
  }

  lemma {:induction false} NoBinds(text: seq<Ch>)
    requires forall i :: 0 <= i < |text| ==> text[i].C?
    ensures Binds(text) == []
  {
    if text != [] {
      NoBinds(text[1..]);
    }
  }

  lemma StepThen(a: Out, b: Out, n: nat, la: nat, lb: nat)
    requires InStep(a, n, la) && InStep(b, n + |a.vars|, lb)
    ensures InStep(Then(a, b), n, la + lb)
  {
    BindsConcat(a.text, b.text);
    assert UpFrom(n, |a.vars| + |b.vars|) == UpFrom(n, |a.vars|) + UpFrom(n + |a.vars|, |b.vars|);
  }

  lemma StepAround(open: string, a: Out, close: string, n: nat, left: nat)
    requires InStep(a, n, left)
    ensures InStep(Around(open, a, close), n, left)
  {
    BindsConcat(Chars(open) + a.text, Chars(close));
    BindsConcat(Chars(open), a.text);
    NoBinds(Chars(open));
    NoBinds(Chars(close));
  }

  lemma StepOne(v: Var, n: nat)
    requires Atom(v)
    ensures InStep(Out([Bind(n + 1)], [v]), n, 0)
  {
  }

  lemma {:induction false} VarInStep(v: Var, n: nat)
    ensures InStep(RenderVar(v, n), n, Leftovers(v))
    decreases v, 0
  {
    match v
    case Scalar(_) => StepOne(v, n);
    case Nil => StepOne(v, n);
    case Bytes(_) => StepOne(v, n);
    case Named(_) =>
    case Column(name) => NoBinds(Chars(name));
    case List(vs) =>
      if vs == [] {
        NoBinds(Chars("(NULL)"));
      } else {
        VarsInStep(vs, n);
        StepAround("(", RenderVars(vs, n), ")", n, LeftoversOf(vs));
      }
    case Nested(sql, vars, w) => ExprInStep(sql, vars, false, w, n);
  }

  lemma {:induction false} VarsInStep(vs: seq<Var>, n: nat)
    ensures InStep(RenderVars(vs, n), n, LeftoversOf(vs))
    decreases vs, 0
  {
    if vs != [] {
      VarInStep(vs[0], n);
      if |vs| == 1 {
        assert vs[1..] == [];
      } else {
        var first := RenderVar(vs[0], n);
        var m := n + |first.vars|;
        VarsInStep(vs[1..], m);
        StepAround(",", RenderVars(vs[1..], m), "", m, LeftoversOf(vs[1..]));
        StepThen(first, Around(",", RenderVars(vs[1..], m), ""), n, Leftovers(vs[0]), LeftoversOf(vs[1..]));
      }
    }
  }

  lemma {:induction false} BytesInStep(bs: seq<int>, n: nat)
    ensures InStep(RenderBytes(bs, n), n, 0)
  {
    if bs != [] {
      StepOne(Scalar(bs[0]), n);
      if |bs| > 1 {
        var rest := RenderBytes(bs[1..], n + 1);
        BytesInStep(bs[1..], n + 1);
        StepAround(",", rest, "", n + 1, 0);
        StepThen(Out([Bind(n + 1)], [Scalar(bs[0])]), Around(",", rest, ""), n, 0, 0);
      }
    }
  }

  lemma {:induction false} BareInStep(v: Var, n: nat)
    ensures InStep(RenderBare(v, n), n, Leftovers(v))
    decreases v, 1
  {
    match v
    case List(vs) =>
      if vs == [] {
        StepOne(Nil, n);
      } else {
        VarsInStep(vs, n);
      }
    case Bytes(bs) =>
      if bs == [] {
        StepOne(Nil, n);
      } else {
        BytesInStep(bs, n);
      }
    case _ => VarInStep(v, n);
  }

  lemma {:induction false} ExprInStep(sql: string, vars: seq<Var>, after: bool, bare: bool, n: nat)
    ensures InStep(RenderExpr(sql, vars, after, bare, n), n, LeftoversIn(sql, vars))
    decreases vars, 1, |sql|
  {
    if sql == "" {
    } else if sql[0] == '?' && vars != [] {
      VarInStep(vars[0], n);
      BareInStep(vars[0], n);
      var first := if after || bare then RenderBare(vars[0], n) else RenderVar(vars[0], n);
      var m := n + |first.vars|;
      ExprInStep(sql[1..], vars[1..], after, bare, m);
      StepThen(first, RenderExpr(sql[1..], vars[1..], after, bare, m), n,
               Leftovers(vars[0]), LeftoversIn(sql[1..], vars[1..]));
    } else {
      ExprInStep(sql[1..], vars, sql[0] == '(', bare, n);
      NoBinds([C(sql[0])]);
      StepThen(Out([C(sql[0])], []), RenderExpr(sql[1..], vars, sql[0] == '(', bare, n), n,
               0, LeftoversIn(sql[1..], vars));
    }
  }

  /** What a driver without numbers does: the next placeholder takes the next variable. */
  function FillInOrder(text: seq<Ch>, vars: seq<Var>): seq<Lit> {
    if text == [] then []
    else match text[0]
      case C(c) => [Plain(c)] + FillInOrder(text[1..], vars)
      case Bind(_) =>
        if vars == [] then [Plain('?')] + FillInOrder(text[1..], [])
        else [Value(vars[0])] + FillInOrder(text[1..], vars[1..])
  }

  lemma {:induction false} InOrderIsByNumber(text: seq<Ch>, n: nat, vars: seq<Var>)
    requires n <= |vars| && Binds(text) == UpFrom(n, |vars| - n)
    ensures FillInOrder(text, vars[n..]) == Fill(text, vars)
  {
    if text != [] {
      var rest := text[1..];
      assert Fill(text, vars) == [FillCh(text[0], vars)] + Fill(rest, vars);
      match text[0]
      case C(_) =>
        assert Binds(text) == Binds(rest);
        InOrderIsByNumber(rest, n, vars);
      case Bind(k) =>
        assert Binds(text)[0] == k && Binds(text)[1..] == Binds(rest);
        assert UpFrom(n, |vars| - n)[1..] == UpFrom(n + 1, |vars| - (n + 1));
        InOrderIsByNumber(rest, n + 1, vars);
        assert vars[n..][1..] == vars[n + 1..];
    }
  }

  /** Variables and placeholders stay in step exactly when nothing is left over: as many of each, and
      giving the k-th placeholder the k-th variable yields the inlined text. */
  lemma PlaceholdersInStep(v: Var)
    ensures
      var out := RenderVar(v, 0);
      && (Leftovers(v) == 0 <==> |Binds(out.text)| == |out.vars|)
      && (Leftovers(v) == 0 ==> Binds(out.text) == UpFrom(0, |out.vars|)
                                && FillInOrder(out.text, out.vars) == InlineVar(v))
  {
    var out := RenderVar(v, 0);
    VarInStep(v, 0);
    if Leftovers(v) == 0 {
      InOrderIsByNumber(out.text, 0, out.vars);
      VarFills(v, 0);
      assert FillsFrom(out, 0, InlineVar(v), out.vars);
      assert out.vars[0..] == out.vars;
    }
  }

  // ----- writing the same behind d more variables

  function ShiftCh(c: Ch, d: nat): Ch {
    match c
    case C(_) => c
    case Bind(n) => Bind(n + d)
  }

  function Shift(text: seq<Ch>, d: nat): (r: seq<Ch>)
    ensures |r| == |text|
  {
    seq(|text|, i requires 0 <= i < |text| => ShiftCh(text[i], d))
  }

  function ShiftOut(a: Out, d: nat): Out { Out(Shift(a.text, d), a.vars) }

  lemma ShiftThen(a: Out, b: Out, d: nat)
    ensures ShiftOut(Then(a, b), d) == Then(ShiftOut(a, d), ShiftOut(b, d))
  {
  }

  lemma ShiftAround(open: string, a: Out, close: string, d: nat)
    ensures ShiftOut(Around(open, a, close), d) == Around(open, ShiftOut(a, d), close)
  {
  }

  lemma {:induction false} VarShifts(v: Var, n: nat, d: nat)
    ensures RenderVar(v, n + d) == ShiftOut(RenderVar(v, n), d)
    decreases v, 0
  {
    match v
    case List(vs) =>
      if vs != [] {
        VarsShift(vs, n, d);
        ShiftAround("(", RenderVars(vs, n), ")", d);
      }
    case Nested(sql, vars, w) => ExprShifts(sql, vars, false, w, n, d);
    case _ =>
  }

  lemma {:induction false} VarsShift(vs: seq<Var>, n: nat, d: nat)
    ensures RenderVars(vs, n + d) == ShiftOut(RenderVars(vs, n), d)
    decreases vs, 0
  {
    if vs != [] {
      VarShifts(vs[0], n, d);
      if |vs| > 1 {
        var m := n + |RenderVar(vs[0], n).vars|;
        VarsShift(vs[1..], m, d);
        ShiftAround(",", RenderVars(vs[1..], m), "", d);
        ShiftThen(RenderVar(vs[0], n), Around(",", RenderVars(vs[1..], m), ""), d);
      }
    }
  }

  lemma {:induction false} BytesShift(bs: seq<int>, n: nat, d: nat)
    ensures RenderBytes(bs, n + d) == ShiftOut(RenderBytes(bs, n), d)
  {
    if |bs| > 1 {
      var rest := RenderBytes(bs[1..], n + 1);
      BytesShift(bs[1..], n + 1, d);
      ShiftAround(",", rest, "", d);
      ShiftThen(Out([Bind(n + 1)], [Scalar(bs[0])]), Around(",", rest, ""), d);
    }
  }

  lemma {:induction false} BareShifts(v: Var, n: nat, d: nat)
    ensures RenderBare(v, n + d) == ShiftOut(RenderBare(v, n), d)
    decreases v, 1
  {
    match v
    case List(vs) =>
      if vs != [] {
        VarsShift(vs, n, d);
      }
    case Bytes(bs) => BytesShift(bs, n, d);
    case _ => VarShifts(v, n, d);
  }

  lemma {:induction false} ExprShifts(sql: string, vars: seq<Var>, after: bool, bare: bool, n: nat, d: nat)
    ensures RenderExpr(sql, vars, after, bare, n + d) == ShiftOut(RenderExpr(sql, vars, after, bare, n), d)
    decreases vars, 1, |sql|
  {
    hide Shift;
    hide RenderVar;
    hide RenderBare;
    hide Then;
    ShiftNone(vars, d);
    if sql == "" {
    } else if sql[0] == '?' && vars != [] {
      VarShifts(vars[0], n, d);
      BareShifts(vars[0], n, d);
      var first := if after || bare then RenderBare(vars[0], n) else RenderVar(vars[0], n);
      var m := n + |first.vars|;
      ExprShifts(sql[1..], vars[1..], after, bare, m, d);
      ShiftThen(first, RenderExpr(sql[1..], vars[1..], after, bare, m), d);
    } else {
      ExprShifts(sql[1..], vars, sql[0] == '(', bare, n, d);
      ShiftPlain(sql[0], d);
      ShiftThen(Out([C(sql[0])], []), RenderExpr(sql[1..], vars, sql[0] == '(', bare, n), d);
    }
  }

  lemma ShiftNone(vars: seq<Var>, d: nat)
    ensures ShiftOut(Out([], vars), d) == Out([], vars)
  {
  }

  lemma ShiftPlain(c: char, d: nat)
    ensures ShiftOut(Out([C(c)], []), d) == Out([C(c)], [])
  {
  }
}
