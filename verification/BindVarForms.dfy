/** What is written for arguments, letter by letter. */
module BindVarForms {
  import opened BindVars

  /** A value is the next placeholder, a column its name, and a named argument nothing. */
  lemma OneForm(v: Var, n: nat)
    ensures Atom(v) ==> RenderVar(v, n) == Out([Bind(n + 1)], [v])
    ensures v.Column? ==>
              |RenderVar(v, n).text| == |v.name| && RenderVar(v, n).vars == []
              && forall i :: 0 <= i < |v.name| ==> RenderVar(v, n).text[i] == C(v.name[i])
    ensures v.Named? ==> RenderVar(v, n) == Out([], [v.value])
  {
  }

  /** Placeholders in turn, separated by commas. */
  ghost predicate Separated(text: seq<Ch>, count: nat, n: nat) {
    && |text| == 2 * count - 1
    && forall p :: 0 <= p < |text| ==> text[p] == if p % 2 == 0 then Bind(n + p / 2 + 1) else C(',')
  }

  lemma SeparatedOne(n: nat)
    ensures Separated([Bind(n + 1)], 1, n)
  {
  }

  lemma SeparatedCons(text: seq<Ch>, count: nat, n: nat)
    requires count > 0 && Separated(text, count, n + 1)
    ensures Separated([Bind(n + 1), C(',')] + text, count + 1, n)
  {
    var all := [Bind(n + 1), C(',')] + text;
    forall p | 0 <= p < |all|
      ensures all[p] == if p % 2 == 0 then Bind(n + p / 2 + 1) else C(',')
    {
      if p >= 2 {
        assert all[p] == text[p - 2] && (p - 2) % 2 == p % 2 && (p - 2) / 2 == p / 2 - 1;
      }
    }
  }

  lemma {:induction false} ValuesForm(vs: seq<Var>, n: nat)
    requires vs != [] && AtomOnly(vs)
    ensures Separated(RenderVars(vs, n).text, |vs|, n) && RenderVars(vs, n).vars == vs
  {
    hide Separated;
    OneForm(vs[0], n);
    if |vs| == 1 {
      SeparatedOne(n);
    } else {
      var rest := RenderVars(vs[1..], n + 1);
      ValuesForm(vs[1..], n + 1);
      SeparatedCons(rest.text, |vs| - 1, n);
      assert [Bind(n + 1)] + (Chars(",") + rest.text + Chars("")) == [Bind(n + 1), C(',')] + rest.text;
      assert [vs[0]] + vs[1..] == vs;
    }
  }

  /** Any arguments in turn, separated by commas; a list has parentheses around them, except behind one. */
  lemma JoinedForm(v: Var, vs: seq<Var>, n: nat)
    ensures RenderVars([v], n) == RenderVar(v, n)
    ensures
      var first := RenderVar(v, n);
      var rest := RenderVars(vs, n + |first.vars|);
      vs != [] ==> RenderVars([v] + vs, n) == Out(first.text + ([C(',')] + rest.text), first.vars + rest.vars)
    ensures
      var all := RenderVars([v] + vs, n);
      RenderBare(List([v] + vs), n) == all
      && RenderVar(List([v] + vs), n) == Out([C('(')] + all.text + [C(')')], all.vars)
  {
    hide RenderVar;
    assert ([v] + vs)[1..] == vs && Chars(",") == [C(',')] && Chars("") == [];
    ListOpens([v] + vs, n);
    var rest := RenderVars(vs, n + |RenderVar(v, n).vars|);
    assert [C(',')] + rest.text + [] == [C(',')] + rest.text;
  }

  lemma ListOpens(vs: seq<Var>, n: nat)
    requires vs != []
    ensures RenderVar(List(vs), n) == Out([C('(')] + RenderVars(vs, n).text + [C(')')], RenderVars(vs, n).vars)
  {
    hide RenderVars;
    assert Chars("(") == [C('(')] && Chars(")") == [C(')')];
  }

  /** A list of values stands in parentheses, except behind one; an empty one is (NULL), and NULL behind one. */
  lemma ListForm(vs: seq<Var>, n: nat)
    requires AtomOnly(vs)
    ensures
      var out, bare := RenderVar(List(vs), n), RenderBare(List(vs), n);
      if vs == [] then
        out == Out([C('('), C('N'), C('U'), C('L'), C('L'), C(')')], []) && bare == Out([Bind(n + 1)], [Nil])
      else
        && Separated(bare.text, |vs|, n) && bare.vars == vs
        && out == Out([C('(')] + bare.text + [C(')')], vs)
  {
    if vs != [] {
      ValuesForm(vs, n);
      assert Chars("(") == [C('(')] && Chars(")") == [C(')')];
    }
  }

  /** Behind a parenthesis the bytes of a slice are values of their own. */
  lemma {:induction false} BytesForm(bs: seq<int>, n: nat)
    requires bs != []
    ensures
      var out := RenderBare(Bytes(bs), n);
      && Separated(out.text, |bs|, n) && |out.vars| == |bs|
      && forall i :: 0 <= i < |bs| ==> out.vars[i] == Scalar(bs[i])
  {
    hide Separated;
    if |bs| == 1 {
      SeparatedOne(n);
    } else {
      var rest := RenderBare(Bytes(bs[1..]), n + 1);
      BytesForm(bs[1..], n + 1);
      SeparatedCons(rest.text, |bs| - 1, n);
      assert [Bind(n + 1)] + (Chars(",") + rest.text + Chars("")) == [Bind(n + 1), C(',')] + rest.text;
    }
  }

  /** The next question mark of a template takes the next argument; it stands behind a parenthesis if that is the
      last letter before it. */
  lemma {:induction false} TemplateForm(a: string, b: string, v: Var, vs: seq<Var>, after: bool, bare: bool, n: nat)
    requires '?' !in a
    ensures
      var behind := if a == "" then after else a[|a| - 1] == '(';
      var first := if behind || bare then RenderBare(v, n) else RenderVar(v, n);
      var rest := RenderExpr(b, vs, behind, bare, n + |first.vars|);
      RenderExpr(a + ['?'] + b, [v] + vs, after, bare, n)
      == Out(Chars(a) + first.text + rest.text, first.vars + rest.vars)
    decreases a
  {
    hide RenderExpr;
    hide Chars;
    hide Then;
    var sql := a + ['?'] + b;
    if a == "" {
      assert sql == ['?'] + b;
      Takes(b, v, vs, after, bare, n);
      CharsCons('?', "");
    } else {
      assert sql == [a[0]] + (a[1..] + ['?'] + b);
      TemplateForm(a[1..], b, v, vs, a[0] == '(', bare, n);
      Copies(a[0], a[1..] + ['?'] + b, [v] + vs, after, bare, n);
      CharsCons(a[0], a[1..]);
      assert a == [a[0]] + a[1..];
    }
  }

  lemma Takes(b: string, v: Var, vs: seq<Var>, after: bool, bare: bool, n: nat)
    ensures
      var first := if after || bare then RenderBare(v, n) else RenderVar(v, n);
      var rest := RenderExpr(b, vs, after, bare, n + |first.vars|);
      RenderExpr(['?'] + b, [v] + vs, after, bare, n)
      == Out(Chars("") + first.text + rest.text, first.vars + rest.vars)
  {
    hide RenderBare;
    hide RenderVar;
    assert (['?'] + b)[1..] == b && ([v] + vs)[1..] == vs && Chars("") == [];
    var first := if after || bare then RenderBare(v, n) else RenderVar(v, n);
    assert [] + first.text == first.text;
  }

  lemma Copies(c: char, sql: string, vs: seq<Var>, after: bool, bare: bool, n: nat)
    requires c != '?'
    ensures
      var rest := RenderExpr(sql, vs, c == '(', bare, n);
      RenderExpr([c] + sql, vs, after, bare, n) == Out([C(c)] + rest.text, rest.vars)
  {
    assert ([c] + sql)[1..] == sql;
  }

  lemma CharsCons(c: char, s: string)
    ensures Chars([c] + s) == [C(c)] + Chars(s)
  {
  }

  /** Text without question marks is copied, and so is all text when there are no arguments; what is left over is
      appended. */
  lemma {:induction false} CopiedForm(sql: string, vs: seq<Var>, after: bool, bare: bool, n: nat)
    requires '?' !in sql || vs == []
    ensures RenderExpr(sql, vs, after, bare, n) == Out(Chars(sql), vs)
  {
    if sql != "" {
      CopiedForm(sql[1..], vs, sql[0] == '(', bare, n);
      assert Chars(sql) == [C(sql[0])] + Chars(sql[1..]);
    }
  }
}
