/** Taking an already built subquery apart and writing it again behind other
    variables, and writing literals into a template for the log. */
module Splice {
  import opened BindVars
  import opened Decimals
  import opened Placeholders

  // ----- building the recovered template again

  lemma RenderTakes(sql: string, vars: seq<Var>, after: bool, n: nat)
    requires vars != [] && Atom(vars[0]) && !(after && vars[0].Bytes?)
    ensures RenderExpr(['?'] + sql, vars, after, false, n) ==
            Then(Out([Bind(n + 1)], [vars[0]]), RenderExpr(sql, vars[1..], after, false, n + 1))
  {
    assert (['?'] + sql)[1..] == sql;
    assert !vars[0].Bytes? ==> RenderBare(vars[0], n) == RenderVar(vars[0], n);
    assert RenderVar(vars[0], n) == Out([Bind(n + 1)], [vars[0]]);
  }

  /** Behind a parenthesis bytes come in parts, and are no variable any more. */
  lemma RenderTakesApart(sql: string, vars: seq<Var>, n: nat)
    requires vars != [] && vars[0].Bytes?
    ensures
      var out := RenderExpr(['?'] + sql, vars, true, false, n);
      out.vars != [] && out.vars[0] != vars[0]
  {
    assert (['?'] + sql)[1..] == sql;
    assert RenderBare(vars[0], n).vars != [] && !RenderBare(vars[0], n).vars[0].Bytes?;
  }

  lemma RenderCopies(c: char, sql: string, vars: seq<Var>, after: bool, n: nat)
    requires c != '?' || vars == []
    ensures RenderExpr([c] + sql, vars, after, false, n) ==
            Then(Out([C(c)], []), RenderExpr(sql, vars, c == '(', false, n))
  {
  }

  lemma ShiftHead(text: seq<Ch>, n: nat)
    requires text != []
    ensures Shift(text, n) == [ShiftCh(text[0], n)] + Shift(text[1..], n)
  {
  }

  /** No literal question mark stands ahead of a placeholder. */
  predicate MarksBehind(text: seq<Ch>) {
    forall i, p :: 0 <= i < p < |text| && text[p].Bind? ==> text[i] != C('?')
  }

  lemma HasBind(text: seq<Ch>, p: nat)
    requires p < |text| && text[p].Bind?
    ensures Binds(text) != []
  {
    BindIsIn(text, p);
  }

  lemma {:induction false} BindSomewhere(text: seq<Ch>) returns (p: nat)
    requires Binds(text) != []
    ensures p < |text| && text[p].Bind?
  {
    if text[0].Bind? {
      p := 0;
    } else {
      p := BindSomewhere(text[1..]);
      p := p + 1;
    }
  }

  lemma MarksBehindTail(text: seq<Ch>)
    requires text != [] && MarksBehind(text)
    ensures MarksBehind(text[1..])
    ensures text[0] == C('?') ==> Binds(text[1..]) == []
  {
    if Binds(text[1..]) != [] {
      var p := BindSomewhere(text[1..]);
      assert text[p + 1].Bind?;
    }
  }

  /** The numbers behind the first character. */
  lemma BindsTail(text: seq<Ch>, a: nat, count: nat)
    requires text != [] && Binds(text) == UpFrom(a, count)
    ensures text[0].C? ==> Binds(text[1..]) == UpFrom(a, count)
    ensures text[0].Bind? ==> count > 0 && text[0] == Bind(a + 1) && Binds(text[1..]) == UpFrom(a + 1, count - 1)
  {
    if text[0].Bind? {
      assert Binds(text)[0] == text[0].n && Binds(text)[1..] == Binds(text[1..]);
      UpFromParts(a, count, 0);
    }
  }

  lemma MarksHead(text: seq<Ch>)
    requires text != []
    ensures Marks(text) == [match text[0] case C(c) => c case Bind(_) => '?'] + Marks(text[1..])
  {
  }

  /** No slice of bytes has its placeholder behind an opening parenthesis, or behind another placeholder there. */
  predicate BytesKept(text: seq<Ch>, vars: seq<Var>, after: bool)
    decreases |text|
  {
    if text == [] then true
    else match text[0]
      case C(c) => BytesKept(text[1..], vars, c == '(')
      case Bind(_) => vars == [] || (!(after && vars[0].Bytes?) && BytesKept(text[1..], vars[1..], after))
  }

  lemma BytesKeptTail(text: seq<Ch>, vars: seq<Var>, after: bool)
    requires text != [] && BytesKept(text, vars, after)
    ensures text[0].C? ==> BytesKept(text[1..], vars, text[0].c == '(')
    ensures text[0].Bind? && vars != [] ==> !(after && vars[0].Bytes?) && BytesKept(text[1..], vars[1..], after)
  {
  }

  /** Rebuilding the template numbers its placeholders from the outer offset. */
  lemma {:induction false} RebuildTemplate(text: seq<Ch>, a: nat, vars: seq<Var>, after: bool, n: nat)
    requires MarksBehind(text) && Binds(text) == UpFrom(a, |vars|) && AtomOnly(vars) && BytesKept(text, vars, after)
    ensures RenderExpr(Marks(text), vars, after, false, n + a) == Out(Shift(text, n), vars)
    decreases |text|
  {
    hide RenderExpr;
    hide Shift;
    hide MarksBehind;
    hide BytesKept;
    hide Binds;
    hide Marks;
    hide UpFrom;
    hide Then;
    if text == [] {
      RebuildNothing(a, vars, after, n);
    } else {
      var rest := text[1..];
      ShiftHead(text, n);
      MarksHead(text);
      MarksBehindTail(text);
      BytesKeptTail(text, vars, after);
      BindsTail(text, a, |vars|);
      assert |UpFrom(a, |vars|)| == |vars|;
      match text[0]
      case C(c) =>
        RebuildTemplate(rest, a, vars, c == '(', n);
        RenderCopies(c, Marks(rest), vars, after, n + a);
        ThenParts([C(c)], [], Shift(rest, n), vars);
      case Bind(k) =>
        RebuildTemplate(rest, a + 1, vars[1..], after, n);
        RenderTakes(Marks(rest), vars, after, n + a);
        ThenParts([Bind(n + a + 1)], [vars[0]], Shift(rest, n), vars[1..]);
    }
  }

  lemma RebuildNothing(a: nat, vars: seq<Var>, after: bool, n: nat)
    requires Binds([]) == UpFrom(a, |vars|)
    ensures RenderExpr(Marks([]), vars, after, false, n + a) == Out(Shift([], n), vars)
  {
    assert |UpFrom(a, |vars|)| == 0;
  }

  lemma ThenParts(s: seq<Ch>, us: seq<Var>, t: seq<Ch>, vs: seq<Var>)
    ensures Then(Out(s, us), Out(t, vs)) == Out(s + t, us + vs)
    ensures us == [] ==> us + vs == vs
  {
  }

  /** Otherwise a variable is another one. */
  lemma {:induction false} ExposedDiffers(text: seq<Ch>, a: nat, vars: seq<Var>, after: bool, n: nat)
    requires MarksBehind(text) && Binds(text) == UpFrom(a, |vars|) && AtomOnly(vars) && !BytesKept(text, vars, after)
    ensures RenderExpr(Marks(text), vars, after, false, n + a).vars != vars
    decreases |text|
  {
    hide RenderExpr;
    hide MarksBehind;
    hide Binds;
    hide Marks;
    hide UpFrom;
    var rest := text[1..];
    MarksHead(text);
    MarksBehindTail(text);
    BindsTail(text, a, |vars|);
    match text[0]
    case C(c) =>
      ExposedDiffers(rest, a, vars, c == '(', n);
      assert |UpFrom(a, |vars|)| == |vars|;
      RenderCopies(c, Marks(rest), vars, after, n + a);
    case Bind(k) =>
      if after && vars[0].Bytes? {
        RenderTakesApart(Marks(rest), vars, n + a);
      } else {
        ExposedDiffers(rest, a + 1, vars[1..], after, n);
        RenderTakes(Marks(rest), vars, after, n + a);
        assert RenderExpr(Marks(text), vars, after, false, n + a).vars[1..]
            == RenderExpr(Marks(rest), vars[1..], after, false, n + a + 1).vars;
      }
  }

  /** The template has a question mark, ahead of a placeholder, where the text has a literal. */
  ghost predicate StrayAt(template: string, text: seq<Ch>, q: nat, p: nat) {
    && q < |template| && q < p < |text| && text[p].Bind? && text[q].C?
    && template[..q] == Marks(text)[..q] && template[q] == '?'
  }

  lemma StrayTail(template: string, text: seq<Ch>, q: nat, p: nat)
    requires q > 0 && StrayAt(template, text, q, p)
    ensures StrayAt(template[1..], text[1..], q - 1, p - 1) && template[0] == Marks(text)[0]
  {
    assert template[0] == template[..q][0] == Marks(text)[..q][0];
    assert Marks(text)[1..] == Marks(text[1..]);
    assert template[1..][..q - 1] == template[..q][1..] && Marks(text[1..])[..q - 1] == Marks(text)[..q][1..];
  }

  /** Then it takes a variable away from a placeholder, and something else is built: another text, unless a slice
      of bytes has been taken apart. */
  lemma {:induction false} StrayDiffers(template: string, text: seq<Ch>, a: nat, vars: seq<Var>, after: bool, n: nat,
                                        q: nat, p: nat)
    requires StrayAt(template, text, q, p) && Binds(text) == UpFrom(a, |vars|) && AtomOnly(vars)
    ensures
      var out := RenderExpr(template, vars, after, false, n + a);
      out != Out(Shift(text, n), vars) && ((forall v <- vars :: !v.Bytes?) ==> out.text != Shift(text, n))
    decreases |text|
  {
    hide RenderExpr;
    hide Shift;
    hide Binds;
    hide UpFrom;
    hide StrayAt;
    StrayHead(template, text, q, p);
    var rest, tail := text[1..], template[1..];
    assert template == [template[0]] + tail;
    ShiftHead(text, n);
    HasBind(text, p);
    assert |UpFrom(a, |vars|)| == |vars|;
    BindsTail(text, a, |vars|);
    var out, goal := RenderExpr(template, vars, after, false, n + a), Shift(text, n);
    if template[0] == '?' && after && vars[0].Bytes? {
      RenderTakesApart(tail, vars, n + a);
    } else if q == 0 || text[0] == C('?') {
      RenderTakes(tail, vars, after, n + a);
      assert out.text[0] == Bind(n + a + 1);
    } else {
      StrayTail(template, text, q, p);
      assert goal[1..] == Shift(rest, n);
      match text[0] {
        case C(c) =>
          StrayDiffers(tail, rest, a, vars, c == '(', n, q - 1, p - 1);
          RenderCopies(c, tail, vars, after, n + a);
          assert out.text[1..] == RenderExpr(tail, vars, c == '(', false, n + a).text;
        case Bind(k) =>
          StrayDiffers(tail, rest, a + 1, vars[1..], after, n, q - 1, p - 1);
          RenderTakes(tail, vars, after, n + a);
          var next := RenderExpr(tail, vars[1..], after, false, n + a + 1);
          assert out.text[1..] == next.text && out.vars[1..] == next.vars;
      }
    }
  }

  lemma StrayHead(template: string, text: seq<Ch>, q: nat, p: nat)
    requires StrayAt(template, text, q, p)
    ensures template != [] && q < p < |text| && text[p].Bind?
    ensures q == 0 ==> template[0] == '?' && text[0].C?
    ensures q > 0 ==> template[0] == match text[0] case C(c) => c case Bind(_) => '?'
  {
  }

  /** A text that can be taken apart: ahead of no placeholder stands text that looks like it, or a literal
      question mark, and no placeholder of a slice of bytes stands behind a parenthesis. */
  ghost predicate Recoverable(text: seq<Ch>, vars: seq<Var>) {
    NoLookalike(text, 0, |vars|) && MarksBehind(text) && BytesKept(text, vars, false)
  }

  /** Un-numbering a text and building it again is the same as writing it with its numbers raised, exactly if it
      is recoverable. */
  lemma RebuiltExactly(text: seq<Ch>, vars: seq<Var>, n: nat)
    requires Binds(text) == UpFrom(0, |vars|) && AtomOnly(vars)
    ensures
      RenderExpr(Unnumbered(Spelled(text, 0), 0, |vars|), vars, false, false, n) == Out(Shift(text, n), vars)
      <==> Recoverable(text, vars)
  {
    hide RenderExpr;
    hide Shift;
    hide Marks;
    hide Spelled;
    hide Unnumbered;
    hide NoLookalike;
    hide AtomOnly;
    hide BytesKept;
    var template := Unnumbered(Spelled(text, 0), 0, |vars|);
    UnnumberedFrom(text, 0, |vars|);
    if !NoLookalike(text, 0, |vars|) {
      var q: nat, p: nat :| SpoiltAt(template, text, q, p);
      StrayDiffers(template, text, 0, vars, false, n, q, p);
    } else if !MarksBehind(text) {
      var i, p :| 0 <= i < p < |text| && text[p].Bind? && text[i] == C('?');
      MarkIsStray(text, i, p);
      StrayDiffers(template, text, 0, vars, false, n, i, p);
    } else if !BytesKept(text, vars, false) {
      ExposedDiffers(text, 0, vars, false, n);
    } else {
      RebuildTemplate(text, 0, vars, false, n);
    }
  }

  lemma MarkIsStray(text: seq<Ch>, i: nat, p: nat)
    requires i < p < |text| && text[p].Bind? && text[i] == C('?')
    ensures StrayAt(Marks(text), text, i, p)
  {
  }

  /** Splicing in a subquery that was built on its own gives what building it in place would have given, its
      variables behind the outer ones, its placeholders numbered on from theirs, exactly if its text is
      recoverable. */
  lemma SpliceIsInline(v: Var, outer: nat)
    requires Leftovers(v) == 0
    ensures
      var built := RenderVar(v, 0);
      && Binds(built.text) == UpFrom(0, |built.vars|)
      && (RenderExpr(Unnumbered(Spelled(built.text, 0), 0, |built.vars|), built.vars, false, false, outer)
            == RenderVar(v, outer)
          <==> Recoverable(built.text, built.vars))
  {
    hide RenderVar;
    hide RenderExpr;
    hide Binds;
    hide Leftovers;
    hide Unnumbered;
    hide Recoverable;
    hide Shift;
    VarInStep(v, 0);
    var built := RenderVar(v, 0);
    RebuiltExactly(built.text, built.vars, outer);
    VarShifts(v, 0, outer);
  }

  /** A text that looks like a placeholder, ahead of it. */
  lemma LookalikeIsReplaced()
    ensures !Recoverable([C('$'), C('1'), C('='), Bind(1)], [Scalar(7)])
  {
    var text := [C('$'), C('1'), C('='), Bind(1)];
    assert Decimal(1) == "1" && BindVar(1) == "$1";
    assert LiteralAt(text, "$1", 0);
    assert LookalikeAt(text, 1, 0, 3);
    assert Lookalike(text, 1);
  }

  /** A list with a slice of bytes, which comes back as its bytes. */
  lemma BytesAreTakenApart()
    ensures RenderVar(List([Bytes([7, 8])]), 0) == Out([C('('), Bind(1), C(')')], [Bytes([7, 8])])
    ensures RenderExpr("(?)", [Bytes([7, 8])], false, false, 0).vars == [Scalar(7), Scalar(8)]
    ensures !Recoverable([C('('), Bind(1), C(')')], [Bytes([7, 8])])
  {
    var vs := [Bytes([7, 8])];
    assert "(?)"[1..] == "?)" && "?)"[1..] == ")" && ")"[1..] == "" && vs[1..] == [];
    assert RenderExpr(")", [], true, false, 2) == Out([C(')')], []);
    assert RenderExpr("?)", vs, true, false, 0).vars == [Scalar(7), Scalar(8)];
    var text := [C('('), Bind(1), C(')')];
    assert !BytesKept(text[1..], vs, true);
  }

  // ----- dialects that write a question mark for every variable

  function CountMarks(s: string): nat {
    if s == "" then 0 else (if s[0] == '?' then 1 else 0) + CountMarks(s[1..])
  }

  /** Question marks of a template that have found no argument, or stand in a name. */
  function Surplus(text: seq<Ch>): nat {
    if text == [] then 0 else (if text[0] == C('?') then 1 else 0) + Surplus(text[1..])
  }

  lemma {:induction false} MarksAreCounted(text: seq<Ch>)
    ensures CountMarks(Marks(text)) == |Binds(text)| + Surplus(text)
  {
    if text != [] {
      MarksHead(text);
      MarksAreCounted(text[1..]);
      assert Marks(text)[1..] == Marks(text[1..]);
    }
  }

  /** There are as many question marks as variables exactly if as many question marks are surplus as variables
      are left over. */
  lemma MarksInStep(v: Var)
    ensures
      var out := RenderVar(v, 0);
      CountMarks(Marks(out.text)) == |out.vars| <==> Surplus(out.text) == Leftovers(v)
  {
    VarInStep(v, 0);
    MarksAreCounted(RenderVar(v, 0).text);
  }

  // ----- writing literals into a template for the log

  function Written(lits: seq<Lit>, literal: Var -> string): string {
    if lits == [] then ""
    else (match lits[0] case Plain(c) => [c] case Value(v) => literal(v)) + Written(lits[1..], literal)
  }

  /** Each question mark, from the left, takes the next literal; what is written is not read again. */
  function Explained(sql: string, literals: seq<string>): string {
    if sql == "" then ""
    else if sql[0] == '?' && literals != [] then literals[0] + Explained(sql[1..], literals[1..])
    else [sql[0]] + Explained(sql[1..], literals)
  }

  lemma ExplainedSnoc(sql: string, i: nat, literals: seq<string>, idx: nat)
    requires i < |sql| && idx <= |literals|
    ensures Explained(sql[i..], literals[idx..]) ==
            if sql[i] == '?' && idx < |literals| then literals[idx] + Explained(sql[i + 1..], literals[idx + 1..])
            else [sql[i]] + Explained(sql[i + 1..], literals[idx..])
  {
  }

  method ExplainSQL(sql: string, vars: seq<string>) returns (newSQL: string)
    ensures newSQL == Explained(sql, vars)
  {
    hide Explained;
    newSQL := "";
    var idx := 0;
    assert sql[0..] == sql && vars[0..] == vars;
    for i := 0 to |sql|
      invariant idx <= |vars|
      invariant newSQL + Explained(sql[i..], vars[idx..]) == Explained(sql, vars)
    {
      ExplainedSnoc(sql, i, vars, idx);
      ghost var was := newSQL;
      if sql[i] == '?' && |vars| > idx {
        newSQL := newSQL + vars[idx];
        idx := idx + 1;
        assert was + (vars[idx - 1] + Explained(sql[i + 1..], vars[idx..]))
            == newSQL + Explained(sql[i + 1..], vars[idx..]);
      } else {
        newSQL := newSQL + [sql[i]];
        assert was + ([sql[i]] + Explained(sql[i + 1..], vars[idx..])) == newSQL + Explained(sql[i + 1..], vars[idx..]);
      }
    }
    ExplainedEnd(sql, vars[idx..]);
  }

  lemma ExplainedEnd(sql: string, literals: seq<string>)
    ensures Explained(sql[|sql|..], literals) == ""
  {
  }

  function Literals(vars: seq<Var>, literal: Var -> string): (r: seq<string>)
    ensures |r| == |vars|
  {
    seq(|vars|, i requires 0 <= i < |vars| => literal(vars[i]))
  }

  lemma {:induction false} ExplainedFill(text: seq<Ch>, n: nat, vars: seq<Var>, literal: Var -> string)
    requires n <= |vars| && Binds(text) == UpFrom(n, |vars| - n) && MarksBehind(text)
    ensures Explained(Marks(text), Literals(vars, literal)[n..]) == Written(Fill(text, vars), literal)
  {
    hide MarksBehind;
    hide Binds;
    if text != [] {
      var rest, ls := text[1..], Literals(vars, literal);
      MarksBehindTail(text);
      BindsTail(text, n, |vars| - n);
      assert Marks(text)[1..] == Marks(rest);
      assert Fill(text, vars)[1..] == Fill(rest, vars);
      match text[0]
      case C(c) =>
        ExplainedFill(rest, n, vars, literal);
        assert c == '?' ==> |UpFrom(n, |vars| - n)| == 0;
      case Bind(k) =>
        ExplainedFill(rest, n + 1, vars, literal);
        assert ls[n..][0] == literal(vars[n]) && ls[n..][1..] == ls[n + 1..];
    }
  }

  /** With a literal question mark ahead of a placeholder, and x for every literal, an x is written for it. */
  lemma {:induction false} ExplainedStray(text: seq<Ch>, n: nat, vars: seq<Var>, literal: Var -> string, i: nat,
                                          p: nat)
    requires n <= |vars| && Binds(text) == UpFrom(n, |vars| - n)
    requires i < p < |text| && text[p].Bind? && text[i] == C('?') && forall v :: literal(v) == "x"
    ensures Explained(Marks(text), Literals(vars, literal)[n..]) != Written(Fill(text, vars), literal)
  {
    hide Binds;
    hide Explained;
    hide Written;
    hide Marks;
    hide Fill;
    hide UpFrom;
    var rest, ls := text[1..], Literals(vars, literal);
    HasBind(text, p);
    assert |UpFrom(n, |vars| - n)| == |vars| - n;
    BindsTail(text, n, |vars| - n);
    MarksHead(text);
    assert ls[n..][0] == "x" && ls[n..][1..] == ls[n + 1..];
    var shown, meant := Explained(Marks(text), ls[n..]), Written(Fill(text, vars), literal);
    ExplainedHead(Marks(text), ls[n..]);
    WrittenHead(text, vars, literal);
    match text[0]
    case C(c) =>
      if c == '?' {
        assert shown[0] == 'x' && meant[0] == '?';
      } else {
        ExplainedStray(rest, n, vars, literal, i - 1, p - 1);
        assert shown[1..] == Explained(Marks(rest), ls[n..]) && meant[1..] == Written(Fill(rest, vars), literal);
      }
    case Bind(k) =>
      ExplainedStray(rest, n + 1, vars, literal, i - 1, p - 1);
      assert shown[1..] == Explained(Marks(rest), ls[n + 1..]) && meant[1..] == Written(Fill(rest, vars), literal);
  }

  lemma ExplainedHead(sql: string, literals: seq<string>)
    requires sql != ""
    ensures Explained(sql, literals) ==
            if sql[0] == '?' && literals != [] then literals[0] + Explained(sql[1..], literals[1..])
            else [sql[0]] + Explained(sql[1..], literals)
  {
  }

  lemma WrittenHead(text: seq<Ch>, vars: seq<Var>, literal: Var -> string)
    requires text != []
    ensures Written(Fill(text, vars), literal) ==
            (match FillCh(text[0], vars) case Plain(c) => [c] case Value(v) => literal(v))
            + Written(Fill(text[1..], vars), literal)
  {
    assert Fill(text, vars)[1..] == Fill(text[1..], vars);
  }

  ghost predicate ExplainsTo(v: Var, literal: Var -> string) {
    var out := RenderVar(v, 0);
    Explained(Marks(out.text), Literals(out.vars, literal)) == Written(InlineVar(v), literal)
  }

  /** Building with question marks and explaining is writing each literal in place, whatever the literals
      contain, exactly if no literal question mark stands ahead of a placeholder. */
  lemma ExplainIsInline(v: Var)
    requires Leftovers(v) == 0
    ensures (forall literal: Var -> string :: ExplainsTo(v, literal)) <==> MarksBehind(RenderVar(v, 0).text)
  {
    hide RenderVar;
    hide InlineVar;
    hide Explained;
    hide Marks;
    hide Written;
    hide Fill;
    var out := RenderVar(v, 0);
    VarInStep(v, 0);
    VarFills(v, 0);
    assert FillsFrom(out, 0, InlineVar(v), out.vars);
    if MarksBehind(out.text) {
      forall literal: Var -> string
        ensures ExplainsTo(v, literal)
      {
        ExplainedFill(out.text, 0, out.vars, literal);
        assert Literals(out.vars, literal)[0..] == Literals(out.vars, literal);
      }
    } else {
      var i, p :| 0 <= i < p < |out.text| && out.text[p].Bind? && out.text[i] == C('?');
      var literal := (x: Var) => "x";
      ExplainedStray(out.text, 0, out.vars, literal, i, p);
      assert Literals(out.vars, literal)[0..] == Literals(out.vars, literal);
      assert !ExplainsTo(v, literal);
    }
  }

  // ----- string literals

  /** Every quote is doubled. */
  function Doubled(s: string): string {
    if s == "" then "" else (if s[0] == '\'' then "''" else [s[0]]) + Doubled(s[1..])
  }

  function Quoted(s: string): string { "'" + Doubled(s) + "'" }

  /** Reads a string literal behind its opening quote: the string, and what follows the literal. */
  function LexString(t: string): Lexeme {
    if t == "" then Unterminated
    else if t[0] != '\'' then
      match LexString(t[1..])
      case Lexed(s, rest) => Lexed([t[0]] + s, rest)
      case Unterminated => Unterminated
    else if |t| > 1 && t[1] == '\'' then
      match LexString(t[2..])
      case Lexed(s, rest) => Lexed("'" + s, rest)
      case Unterminated => Unterminated
    else Lexed("", t[1..])
  }

  datatype Lexeme = Lexed(s: string, rest: string) | Unterminated

  lemma LexPlain(c: char, more: string)
    requires c != '\'' && LexString(more).Lexed?
    ensures LexString([c] + more) == Lexed([c] + LexString(more).s, LexString(more).rest)
  {
  }

  lemma LexQuote(more: string)
    requires LexString(more).Lexed?
    ensures LexString("''" + more) == Lexed("'" + LexString(more).s, LexString(more).rest)
  {
  }

  lemma LexEnd(rest: string)
    requires rest == "" || rest[0] != '\''
    ensures LexString("'" + rest) == Lexed("", rest)
  {
  }

  /** A quoted literal reads back as the string it was made from, and ends where it ends. */
  lemma {:induction false} QuotedReadsBack(s: string, rest: string)
    requires rest == "" || rest[0] != '\''
    ensures LexString(Doubled(s) + "'" + rest) == Lexed(s, rest)
    ensures Quoted(s) + rest == "'" + (Doubled(s) + "'" + rest)
  {
    hide LexString;
    if s == "" {
      LexEnd(rest);
      assert "" + "'" + rest == "'" + rest;
    } else {
      QuotedReadsBack(s[1..], rest);
      var more := Doubled(s[1..]) + "'" + rest;
      if s[0] == '\'' {
        LexQuote(more);
        assert Doubled(s) + "'" + rest == "''" + more;
      } else {
        LexPlain(s[0], more);
        assert Doubled(s) + "'" + rest == [s[0]] + more;
      }
      assert s == [s[0]] + s[1..];
    }
  }
}
