/** Statement.AddVar and Expr.Build over a statement whose SQL and variables
    grow in place. */
module StatementVars {
  import opened BindVars
  import opened Placeholders
  import opened Splice

  /** Further list elements, each behind a comma. */
  ghost function RenderRest(vs: seq<Var>, i: nat, n: nat): Out
    requires i <= |vs|
  {
    if i == 0 then RenderVars(vs, n)
    else if i == |vs| then Out([], [])
    else Around(",", RenderVars(vs[i..], n), "")
  }

  lemma RestStep(vs: seq<Var>, i: nat, n: nat)
    requires i < |vs|
    ensures
      var first := RenderVar(vs[i], n);
      RenderRest(vs, i, n) ==
      Then(Out(if i > 0 then [C(',')] else [], []), Then(first, RenderRest(vs, i + 1, n + |first.vars|)))
  {
  }

  ghost function BytesRest(bs: seq<int>, i: nat, n: nat): Out
    requires i <= |bs|
  {
    if i == 0 then RenderBytes(bs, n)
    else if i == |bs| then Out([], [])
    else Around(",", RenderBytes(bs[i..], n), "")
  }

  lemma BytesBounds(bs: seq<int>, n: nat)
    ensures BytesRest(bs, 0, n) == RenderBytes(bs, n)
    ensures BytesRest(bs, |bs|, n) == Out([], [])
  {
  }

  lemma BytesStep(bs: seq<int>, i: nat, n: nat, a: Out)
    requires i < |bs| && n == |a.vars|
    ensures Then(a, BytesRest(bs, i, n)) ==
      Then(Out(a.text + (if i > 0 then [C(',')] else []) + [Bind(n + 1)], a.vars + [Scalar(bs[i])]),
           BytesRest(bs, i + 1, n + 1))
  {
    assert bs[i..][1..] == bs[i + 1..];
  }

  lemma ThenAssoc(a: Out, b: Out, c: Out)
    ensures Then(Then(a, b), c) == Then(a, Then(b, c))
  {
  }

  lemma ThenNothing(a: Out)
    ensures Then(a, Out([], [])) == a
    ensures Then(Out([], []), a) == a
  {
  }

  class Statement {
    var sql: seq<Ch>
    var vars: seq<Var>

    constructor (vars: seq<Var>)
      ensures sql == [] && this.vars == vars
    {
      sql, this.vars := [], vars;
    }

    ghost function Now(): Out
      reads this
    {
      Out(sql, vars)
    }

    method Write(s: string)
      modifies this
      ensures Now() == Then(old(Now()), Out(Chars(s), []))
    {
      sql := sql + Chars(s);
    }

    /** Appends a variable and writes its placeholder. */
    method Append(v: Var)
      modifies this
      ensures Now() == Then(old(Now()), Out([Bind(|old(vars)| + 1)], [v]))
    {
      vars := vars + [v];
      sql := sql + [Bind(|vars|)];
    }

    /** Several variables, separated by commas. */
    method AddVar(vs: seq<Var>)
      modifies this
      ensures Now() == Then(old(Now()), RenderVars(vs, |old(vars)|))
      decreases vs, 1
    {
      hide RenderVar;
      hide RenderVars;
      hide RenderRest;
      hide Then;
      ghost var total := Then(Now(), RenderVars(vs, |vars|));
      RestBounds(vs, |vars|);
      for idx := 0 to |vs|
        invariant Then(Now(), RenderRest(vs, idx, |vars|)) == total
      {
        ghost var before, n := Now(), |vars|;
        ghost var comma := Out(if idx > 0 then [C(',')] else [], []);
        RestStep(vs, idx, n);
        if idx > 0 {
          sql := sql + [C(',')];
        }
        ThenText(before, comma.text);
        assert before.text + [] == before.text;
        ghost var first := RenderVar(vs[idx], n);
        ghost var rest := RenderRest(vs, idx + 1, n + |first.vars|);
        ThenAssoc(before, comma, Then(first, rest));
        ThenAssoc(Then(before, comma), first, rest);
        ThenVars(Then(before, comma), first);
        AddOne(vs[idx]);
      }
      RestBounds(vs, |vars|);
      ThenNothing(Now());
    }

    lemma RestBounds(vs: seq<Var>, n: nat)
      ensures RenderRest(vs, 0, n) == RenderVars(vs, n)
      ensures RenderRest(vs, |vs|, n) == Out([], [])
    {
    }

    lemma ThenText(a: Out, t: seq<Ch>)
      ensures Then(a, Out(t, [])) == Out(a.text + t, a.vars)
    {
    }

    lemma ThenVars(a: Out, b: Out)
      ensures |Then(a, b).vars| == |a.vars| + |b.vars|
    {
    }

    /** One variable, by its kind. */
    method AddOne(v: Var)
      modifies this
      ensures Now() == Then(old(Now()), RenderVar(v, |old(vars)|))
      decreases v, 0
    {
      match v
      case Named(value) => vars := vars + [value];
      case Column(name) => Write(name);
      case Nested(s, vs, withoutParentheses) => Build(s, vs, withoutParentheses);
      case List(vs) =>
        if |vs| > 0 {
          Write("(");
          AddVar(vs);
          Write(")");
        } else {
          Write("(NULL)");
        }
      case Scalar(_) => Append(v);
      case Nil => Append(v);
      case Bytes(_) => Append(v);
    }

    /** Bytes taken for numbers, separated by commas. */
    method AddBytes(bs: seq<int>)
      modifies this
      ensures Now() == Then(old(Now()), RenderBytes(bs, |old(vars)|))
    {
      hide RenderBytes;
      ghost var total := Then(Now(), RenderBytes(bs, |vars|));
      BytesBounds(bs, |vars|);
      for i := 0 to |bs|
        invariant Then(Now(), BytesRest(bs, i, |vars|)) == total
      {
        BytesStep(bs, i, |vars|, Now());
        if i > 0 {
          sql := sql + [C(',')];
        }
        Append(Scalar(bs[i]));
      }
      BytesBounds(bs, |vars|);
      ThenNothing(Now());
    }

    /** A value right behind a parenthesis: a list goes without its own, and a slice of bytes in parts. */
    method ProcessValue(v: Var)
      modifies this
      ensures Now() == Then(old(Now()), RenderBare(v, |old(vars)|))
      decreases v, 1
    {
      match v
      case List(vs) =>
        if |vs| == 0 {
          Append(Nil);
        } else {
          AddVar(vs);
        }
      case Bytes(bs) =>
        if |bs| == 0 {
          Append(Nil);
        } else {
          AddBytes(bs);
        }
      case _ => AddOne(v);
    }

    /** Expr.Build: each question mark takes the next argument while there is one. */
    method Build(template: string, args: seq<Var>, bare: bool)
      modifies this
      ensures Now() == Then(old(Now()), RenderExpr(template, args, false, bare, |old(vars)|))
      decreases args, 2
    {
      hide RenderVar;
      hide RenderBare;
      hide RenderExpr;
      hide Then;
      var after, idx := false, 0;
      ghost var total := Then(Now(), RenderExpr(template, args, false, bare, |vars|));
      assert template[0..] == template && args[0..] == args;
      for i := 0 to |template|
        invariant idx <= |args|
        invariant Then(Now(), RenderExpr(template[i..], args[idx..], after, bare, |vars|)) == total
      {
        ghost var before, n := Now(), |vars|;
        ExprStep(template, i, args, idx, after, bare, n);
        if template[i] == '?' && |args| > idx {
          ghost var first := if after || bare then RenderBare(args[idx], n) else RenderVar(args[idx], n);
          ThenAssoc(before, first,
                    RenderExpr(template[i + 1..], args[idx + 1..], after, bare, n + |first.vars|));
          ThenVars(before, first);
          if after || bare {
            ProcessValue(args[idx]);
          } else {
            AddOne(args[idx]);
          }
          idx := idx + 1;
        } else {
          ghost var first := Out([C(template[i])], []);
          ThenAssoc(before, first, RenderExpr(template[i + 1..], args[idx..], template[i] == '(', bare, n));
          ThenText(before, first.text);
          after := template[i] == '(';
          sql := sql + [C(template[i])];
        }
      }
      ExprEnd(args[idx..], after, bare, |vars|);
      assert template[|template|..] == "";
      ThenLeftovers(Now(), args[idx..]);
      AppendLeftovers(args, idx);
    }

    /** Arguments that have found no question mark are only appended. */
    method AppendLeftovers(args: seq<Var>, first: nat)
      requires first <= |args|
      modifies this`vars
      ensures vars == old(vars) + args[first..]
    {
      var idx := first;
      while idx < |args|
        invariant first <= idx <= |args|
        invariant vars == old(vars) + args[first..idx]
      {
        vars := vars + [args[idx]];
        idx := idx + 1;
      }
    }

    lemma ThenPrepend(text: seq<Ch>, vs: seq<Var>, a: Out)
      ensures
        var behind := Then(Out([], vs), a);
        Then(Out(text, vs), a) == Out(text + behind.text, behind.vars)
    {
    }

    lemma ThenLeftovers(a: Out, vs: seq<Var>)
      ensures Then(a, Out([], vs)) == Out(a.text, a.vars + vs)
    {
    }

    lemma ExprEnd(vs: seq<Var>, after: bool, bare: bool, n: nat)
      ensures RenderExpr("", vs, after, bare, n) == Out([], vs)
    {
    }

    lemma ExprStep(template: string, i: nat, args: seq<Var>, idx: nat, after: bool, bare: bool, n: nat)
      requires i < |template| && idx <= |args|
      ensures
        RenderExpr(template[i..], args[idx..], after, bare, n) ==
        if template[i] == '?' && idx < |args| then
          var first := if after || bare then RenderBare(args[idx], n) else RenderVar(args[idx], n);
          Then(first, RenderExpr(template[i + 1..], args[idx + 1..], after, bare, n + |first.vars|))
        else
          Then(Out([C(template[i])], []), RenderExpr(template[i + 1..], args[idx..], template[i] == '(', bare, n))
    {
    }

    /** A subquery that has been built on its own: its placeholders become question marks again, and
        the template is rebuilt behind this statement's variables. It comes out as if it had been built in
        place exactly if its text is recoverable. */
    method AddSubquery(subSQL: string, subVars: seq<Var>, ghost v: Var)
      requires Leftovers(v) == 0 && '@' !in subSQL
      requires subSQL == Spelled(RenderVar(v, 0).text, 0) && subVars == RenderVar(v, 0).vars
      modifies this
      ensures Now() == Then(old(Now()), RenderVar(v, |old(vars)|))
              <==> Recoverable(RenderVar(v, 0).text, RenderVar(v, 0).vars)
    {
      hide RenderVar;
      hide RenderExpr;
      hide Recoverable;
      hide Leftovers;
      hide Spelled;
      hide Unnumbered;
      SpliceIsInline(v, |vars|);
      var template := Unnumber(subSQL, |subVars|);
      var sub := new Statement(vars);
      sub.Build(template, subVars, false);
      ghost var spliced := RenderExpr(template, subVars, false, false, |vars|);
      ThenPrepend(sql, vars, spliced);
      ThenSame(Now(), spliced, RenderVar(v, |vars|));
      sql := sql + sub.sql;
      vars := sub.vars;
    }

    lemma ThenSame(a: Out, b: Out, c: Out)
      ensures Then(a, b) == Then(a, c) <==> b == c
    {
      if Then(a, b) == Then(a, c) {
        assert b.text == (a.text + b.text)[|a.text|..] && c.text == (a.text + c.text)[|a.text|..];
        assert b.vars == (a.vars + b.vars)[|a.vars|..] && c.vars == (a.vars + c.vars)[|a.vars|..];
      }
    }
  }
}
