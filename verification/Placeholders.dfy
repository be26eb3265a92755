/** Numbered placeholders in a text, and turning them back into question marks one by one: exactly when
    that recovers the template. */
module Placeholders {
  import opened BindVars
  import opened Decimals

  // ----- a text with numbered placeholders

  /** What the dialect writes for the n-th variable. */
  function BindVar(n: nat): string { "$" + Decimal(n) }

  /** The text as a string; the placeholders up to the k-th are question marks already. */
  function Spelled(text: seq<Ch>, k: nat): string {
    if text == [] then ""
    else (match text[0]
          case C(c) => [c]
          case Bind(n) => if n <= k then "?" else BindVar(n)) + Spelled(text[1..], k)
  }

  /** All placeholders are question marks. */
  function Marks(text: seq<Ch>): (r: string)
    ensures |r| == |text|
    ensures forall i :: 0 <= i < |text| ==> r[i] == match text[i] case C(c) => c case Bind(_) => '?'
  {
    if text == [] then ""
    else [match text[0] case C(c) => c case Bind(_) => '?'] + Marks(text[1..])
  }

  lemma {:induction false} SpelledConcat(a: seq<Ch>, b: seq<Ch>, k: nat)
    ensures Spelled(a + b, k) == Spelled(a, k) + Spelled(b, k)
  {
    if a == [] {
      assert a + b == b;
    } else {
      assert (a + b)[0] == a[0] && (a + b)[1..] == a[1..] + b;
      SpelledConcat(a[1..], b, k);
    }
  }

  /** No placeholder is numbered between k and a. */
  lemma {:induction false} SpelledAlike(text: seq<Ch>, k: nat, a: nat)
    requires k <= a && forall i :: 0 <= i < |Binds(text)| ==> Binds(text)[i] > a
    ensures Spelled(text, k) == Spelled(text, a)
  {
    if text != [] {
      match text[0]
      case C(_) =>
        assert Binds(text) == Binds(text[1..]);
        SpelledAlike(text[1..], k, a);
      case Bind(n) =>
        assert Binds(text)[0] == n;
        assert forall i :: 0 <= i < |Binds(text[1..])| ==> Binds(text[1..])[i] == Binds(text)[i + 1];
        SpelledAlike(text[1..], k, a);
    }
  }

  lemma {:induction false} SpelledMarks(text: seq<Ch>, k: nat)
    requires forall i :: 0 <= i < |Binds(text)| ==> Binds(text)[i] <= k
    ensures Spelled(text, k) == Marks(text)
  {
    if text != [] {
      match text[0]
      case C(_) =>
        assert Binds(text) == Binds(text[1..]);
        SpelledMarks(text[1..], k);
      case Bind(n) =>
        assert Binds(text)[0] == n;
        assert forall i :: 0 <= i < |Binds(text[1..])| ==> Binds(text[1..])[i] == Binds(text)[i + 1];
        SpelledMarks(text[1..], k);
    }
  }

  /** Different variables have different placeholders. */
  lemma BindVarsDiffer(m: nat, n: nat)
    ensures BindVar(m) == BindVar(n) <==> m == n
  {
    DecimalsDiffer(m, n);
    assert BindVar(m)[1..] == Decimal(m) && BindVar(n)[1..] == Decimal(n);
  }

  // ----- strings.Replace(s, pattern, by, 1): the leftmost occurrence

  function ReplaceFirst(s: string, pattern: string, mark: string): string
    requires pattern != ""
  {
    if |s| < |pattern| then s
    else if s[..|pattern|] == pattern then mark + s[|pattern|..]
    else [s[0]] + ReplaceFirst(s[1..], pattern, mark)
  }

  ghost predicate OccursAt(s: string, pattern: string, j: nat) {
    j + |pattern| <= |s| && forall i :: 0 <= i < |pattern| ==> s[j + i] == pattern[i]
  }

  lemma OccursFirst(s: string, pattern: string)
    requires |pattern| <= |s|
    ensures s[..|pattern|] == pattern <==> OccursAt(s, pattern, 0)
  {
  }

  lemma OccursLater(s: string, pattern: string, i: nat)
    requires s != []
    ensures OccursAt(s, pattern, i + 1) <==> OccursAt(s[1..], pattern, i)
  {
  }

  /** Where the replacement is made; -1 if nowhere. */
  lemma {:induction false} ReplaceWhere(s: string, pattern: string, mark: string) returns (j: int)
    requires pattern != ""
    ensures j < 0 ==> ReplaceFirst(s, pattern, mark) == s && forall i: nat :: !OccursAt(s, pattern, i)
    ensures j >= 0 ==>
              && OccursAt(s, pattern, j) && (forall i: nat :: i < j ==> !OccursAt(s, pattern, i))
              && ReplaceFirst(s, pattern, mark) == s[..j] + mark + s[j + |pattern|..]
    decreases |s|, 1
  {
    if |s| < |pattern| {
      j := -1;
    } else {
      OccursFirst(s, pattern);
      if s[..|pattern|] == pattern {
        j := 0;
        assert s[..0] + mark == mark;
      } else {
        j := ReplaceLaterOn(s, pattern, mark);
      }
    }
  }

  lemma {:induction false} ReplaceLaterOn(s: string, pattern: string, mark: string) returns (j: int)
    requires pattern != "" && |s| >= |pattern| && s[..|pattern|] != pattern
    ensures j < 0 ==> ReplaceFirst(s, pattern, mark) == s && forall i: nat :: !OccursAt(s, pattern, i)
    ensures j >= 0 ==>
              && OccursAt(s, pattern, j) && (forall i: nat :: i < j ==> !OccursAt(s, pattern, i))
              && ReplaceFirst(s, pattern, mark) == s[..j] + mark + s[j + |pattern|..]
    decreases |s|, 0
  {
    hide OccursAt;
    var rest := s[1..];
    var k := ReplaceWhere(rest, pattern, mark);
    OccursFirst(s, pattern);
    forall i: nat
      ensures OccursAt(s, pattern, i) ==> i > 0 && OccursAt(rest, pattern, i - 1)
    {
      if i > 0 {
        OccursLater(s, pattern, i - 1);
      }
    }
    if k < 0 {
      j := -1;
      assert [s[0]] + rest == s;
    } else {
      j := k + 1;
      OccursLater(s, pattern, k);
      OccursFits(rest, pattern, k);
      assert [s[0]] + (rest[..k] + mark + rest[k + |pattern|..]) == s[..j] + mark + s[j + |pattern|..];
    }
  }

  lemma OccursFits(s: string, pattern: string, j: nat)
    requires OccursAt(s, pattern, j)
    ensures j + |pattern| <= |s|
  {
  }

  /** The leftmost occurrence is where it is. */
  lemma ReplaceAt(s: string, pattern: string, mark: string, j: nat)
    requires pattern != "" && OccursAt(s, pattern, j) && forall i: nat :: i < j ==> !OccursAt(s, pattern, i)
    ensures ReplaceFirst(s, pattern, mark) == s[..j] + mark + s[j + |pattern|..]
  {
    var k := ReplaceWhere(s, pattern, mark);
  }

  // ----- the loop

  /** Text that looks like the k-th placeholder stands ahead of it. */
  ghost predicate Lookalike(text: seq<Ch>, k: nat) {
    exists j: nat, p: nat :: LookalikeAt(text, k, j, p)
  }

  ghost predicate LookalikeAt(text: seq<Ch>, k: nat, j: nat, p: nat) {
    && j + |BindVar(k)| <= p < |text| && text[p] == Bind(k)
    && LiteralAt(text, BindVar(k), j)
  }

  /** The text spells the pattern at j, in literals. */
  ghost predicate LiteralAt(text: seq<Ch>, pattern: string, j: nat) {
    j + |pattern| <= |text| && forall i :: 0 <= i < |pattern| ==> text[j + i] == C(pattern[i])
  }

  /** The placeholders from the (k + 1)-th on are replaced, each by its leftmost occurrence. */
  function Unnumbered(s: string, k: nat, count: nat): string
    decreases count - k
  {
    if k >= count then s else Unnumbered(ReplaceFirst(s, BindVar(k + 1), "?"), k + 1, count)
  }

  /** The un-numbering loop: one placeholder a variable, in order, from the left. */
  method Unnumber(sql: string, count: nat) returns (template: string)
    ensures template == Unnumbered(sql, 0, count)
  {
    template := sql;
    for k := 0 to count
      invariant Unnumbered(template, k, count) == Unnumbered(sql, 0, count)
    {
      template := ReplaceFirst(template, BindVar(k + 1), "?");
    }
  }

  lemma {:induction false} UpFromParts(n: nat, k: nat, m: nat)
    requires m < k
    ensures UpFrom(n, k)[..m] == UpFrom(n, m) && UpFrom(n, k)[m] == n + m + 1
    ensures UpFrom(n, k)[m + 1..] == UpFrom(n + m + 1, k - m - 1)
  {
  }

  lemma TailParts(text: seq<Ch>, p: nat)
    requires p + 1 < |text|
    ensures text[..p + 1] == [text[0]] + text[1..][..p] && text[p + 1 + 1..] == text[1..][p + 1..]
  {
  }

  /** Where the (k + 1)-th placeholder stands. */
  lemma {:induction false} PlaceOf(text: seq<Ch>, n: nat, count: nat, k: nat) returns (p: nat)
    requires Binds(text) == UpFrom(n, count) && k < count
    ensures p < |text| && text[p] == Bind(n + k + 1)
    ensures Binds(text[..p]) == UpFrom(n, k) && Binds(text[p + 1..]) == UpFrom(n + k + 1, count - k - 1)
  {
    var rest := text[1..];
    match text[0]
    case C(_) =>
      p := PlaceOf(rest, n, count, k);
      TailParts(text, p);
      p := p + 1;
    case Bind(m) =>
      UpFromParts(n, count, 0);
      assert Binds(text)[0] == m && Binds(text)[1..] == Binds(rest);
      if k == 0 {
        p := 0;
        assert text[..0] == [] && text[0 + 1..] == rest;
      } else {
        p := PlaceOf(rest, n + 1, count - 1, k - 1);
        TailParts(text, p);
        assert [n + 1] + UpFrom(n + 1, k - 1) == UpFrom(n, k);
        p := p + 1;
      }
  }

  /** A placeholder stands only in its place. */
  lemma {:induction false} OnlyPlace(text: seq<Ch>, n: nat, count: nat, p: nat, q: nat)
    requires Binds(text) == UpFrom(n, count) && p < |text| && q < |text| && text[p].Bind? && text[p] == text[q]
    ensures p == q
  {
    var rest := text[1..];
    if text[0].Bind? {
      UpFromParts(n, count, 0);
      assert Binds(text)[0] == text[0].n && Binds(text)[1..] == Binds(rest);
      if p == 0 && q > 0 {
        BindIsIn(rest, q - 1);
      } else if q == 0 && p > 0 {
        BindIsIn(rest, p - 1);
      } else if p > 0 && q > 0 {
        OnlyPlace(rest, n + 1, count - 1, p - 1, q - 1);
      }
    } else {
      OnlyPlace(rest, n, count, p - 1, q - 1);
    }
  }

  lemma {:induction false} BindIsIn(text: seq<Ch>, p: nat)
    requires p < |text| && text[p].Bind?
    ensures text[p].n in Binds(text)
  {
    if p > 0 {
      BindIsIn(text[1..], p - 1);
    }
  }

  /** The string around the next placeholder. */
  lemma AroundNext(text: seq<Ch>, count: nat, k: nat, p: nat)
    requires k < count && p < |text| && text[p] == Bind(k + 1)
    requires Binds(text[..p]) == UpFrom(0, k) && Binds(text[p + 1..]) == UpFrom(k + 1, count - k - 1)
    ensures Spelled(text, k) == Marks(text[..p]) + BindVar(k + 1) + Spelled(text[p + 1..], k)
    ensures Spelled(text, k + 1) == Marks(text[..p]) + "?" + Spelled(text[p + 1..], k)
  {
    hide BindVar;
    hide Binds;
    var pre, here, post := text[..p], [text[p]], text[p + 1..];
    assert text == pre + (here + post);
    SpelledMarks(pre, k);
    SpelledMarks(pre, k + 1);
    SpelledAlike(post, k, k + 1);
    SpelledOne(k);
    SpelledParts(pre, here, post, k);
    SpelledParts(pre, here, post, k + 1);
  }

  lemma SpelledParts(a: seq<Ch>, b: seq<Ch>, c: seq<Ch>, k: nat)
    ensures Spelled(a + (b + c), k) == Spelled(a, k) + Spelled(b, k) + Spelled(c, k)
  {
    hide Spelled;
    SpelledConcat(a, b + c, k);
    SpelledConcat(b, c, k);
  }

  lemma SpelledOne(k: nat)
    ensures Spelled([Bind(k + 1)], k) == BindVar(k + 1) && Spelled([Bind(k + 1)], k + 1) == "?"
  {
  }

  lemma BindVarShape(k: nat)
    ensures |BindVar(k)| >= 2 && BindVar(k)[0] == '$'
    ensures forall i :: 0 < i < |BindVar(k)| ==> '0' <= BindVar(k)[i] <= '9'
  {
    DigitsOnly(k);
    forall i | 0 < i < |BindVar(k)|
      ensures '0' <= BindVar(k)[i] <= '9'
    {
      assert BindVar(k)[i] == Decimal(k)[i - 1] && Decimal(k)[i - 1] in Decimal(k);
    }
  }

  /** No occurrence of the placeholder that begins ahead of it reaches into it. */
  lemma NoCrossing(m: string, pattern: string, rest: string, j: nat)
    requires pattern != "" && pattern[0] == '$' && forall i :: 0 < i < |pattern| ==> pattern[i] != '$'
    requires j < |m| < j + |pattern|
    ensures !OccursAt(m + pattern + rest, pattern, j)
  {
    var s, d := m + pattern + rest, |m| - j;
    assert s[j + d] != pattern[d];
  }

  lemma OccursInFront(m: string, rest: string, pattern: string, j: nat)
    requires j + |pattern| <= |m|
    ensures OccursAt(m + rest, pattern, j) <==> OccursAt(m, pattern, j)
  {
  }

  lemma LiteralInMarks(text: seq<Ch>, pattern: string, j: nat)
    requires forall i :: 0 <= i < |pattern| ==> pattern[i] != '?'
    ensures OccursAt(Marks(text), pattern, j) <==> LiteralAt(text, pattern, j)
  {
  }

  /** Where the next placeholder is found: in its place, or in literals ahead of it. */
  lemma FoundAt(pre: seq<Ch>, k: nat, rest: string, j: nat)
    requires j < |pre|
    ensures OccursAt(Marks(pre) + BindVar(k) + rest, BindVar(k), j) <==> LiteralAt(pre, BindVar(k), j)
  {
    hide BindVar;
    hide Marks;
    BindVarShape(k);
    LiteralInMarks(pre, BindVar(k), j);
    if j + |BindVar(k)| <= |pre| {
      OccursInFront(Marks(pre), BindVar(k) + rest, BindVar(k), j);
      assert Marks(pre) + BindVar(k) + rest == Marks(pre) + (BindVar(k) + rest);
    } else {
      NoCrossing(Marks(pre), BindVar(k), rest, j);
    }
  }

  lemma LiteralAhead(text: seq<Ch>, p: nat, pattern: string, j: nat)
    requires p <= |text|
    ensures LiteralAt(text[..p], pattern, j) <==> LiteralAt(text, pattern, j) && j + |pattern| <= p
  {
  }

  /** With nothing ahead that looks like it, the next placeholder is replaced. */
  lemma NextIsReplaced(text: seq<Ch>, count: nat, k: nat)
    requires Binds(text) == UpFrom(0, count) && k < count && !Lookalike(text, k + 1)
    ensures ReplaceFirst(Spelled(text, k), BindVar(k + 1), "?") == Spelled(text, k + 1)
  {
    hide Spelled;
    hide BindVar;
    hide ReplaceFirst;
    hide LiteralAt;
    hide Marks;
    hide Binds;
    var p := PlaceOf(text, 0, count, k);
    AroundNext(text, count, k, p);
    var pre, pattern, rest := text[..p], BindVar(k + 1), Spelled(text[p + 1..], k);
    var s := Marks(pre) + pattern + rest;
    BindVarShape(k + 1);
    forall i: nat | i < p
      ensures !OccursAt(s, pattern, i)
    {
      FoundAt(pre, k + 1, rest, i);
      LiteralAhead(text, p, pattern, i);
      assert !LookalikeAt(text, k + 1, i, p);
    }
    assert OccursAt(s, pattern, p);
    ReplaceAt(s, pattern, "?", p);
    assert s[..p] == Marks(pre) && s[p + |pattern|..] == rest;
  }

  /** s agrees with the template up to a literal that has become a question mark, ahead of a placeholder. */
  ghost predicate Spoilt(s: string, text: seq<Ch>) {
    exists q: nat, p: nat :: SpoiltAt(s, text, q, p)
  }

  ghost predicate SpoiltAt(s: string, text: seq<Ch>, q: nat, p: nat) {
    && q < |s| && q < p < |text| && text[p].Bind? && text[q] == C('$')
    && s[..q] == Marks(text)[..q] && s[q] == '?'
  }

  /** Otherwise the text that looks like it is replaced instead. */
  lemma LookalikeSpoils(text: seq<Ch>, count: nat, k: nat)
    requires Binds(text) == UpFrom(0, count) && k < count && Lookalike(text, k + 1)
    ensures Spoilt(ReplaceFirst(Spelled(text, k), BindVar(k + 1), "?"), text)
  {
    hide Spelled;
    hide BindVar;
    hide ReplaceFirst;
    hide LiteralAt;
    hide OccursAt;
    hide Marks;
    hide Binds;
    var p := PlaceOf(text, 0, count, k);
    AroundNext(text, count, k, p);
    var pre, pattern, rest := text[..p], BindVar(k + 1), Spelled(text[p + 1..], k);
    var s := Marks(pre) + pattern + rest;
    BindVarShape(k + 1);
    var j: nat, p': nat :| LookalikeAt(text, k + 1, j, p');
    OnlyPlace(text, 0, count, p, p');
    LiteralAhead(text, p, pattern, j);
    FoundAt(pre, k + 1, rest, j);
    var q := ReplaceWhere(s, pattern, "?");
    FoundAt(pre, k + 1, rest, q);
    SpoiltFirst(text, p, pattern, rest, q);
  }

  lemma SpoiltFirst(text: seq<Ch>, p: nat, pattern: string, rest: string, q: nat)
    requires pattern != "" && pattern[0] == '$' && p < |text| && text[p].Bind? && q < p
    requires LiteralAt(text[..p], pattern, q)
    ensures
      var s := Marks(text[..p]) + pattern + rest;
      q + |pattern| <= |s| && Spoilt(s[..q] + "?" + s[q + |pattern|..], text)
  {
    var s := Marks(text[..p]) + pattern + rest;
    var r := s[..q] + "?" + s[q + |pattern|..];
    assert text[..p][q + 0] == C(pattern[0]);
    assert r[..q] == Marks(text)[..q] by {
      assert forall i :: 0 <= i < q ==> r[i] == Marks(text[..p])[i] == Marks(text)[i];
    }
    assert SpoiltAt(r, text, q, p);
  }

  /** What is spoilt stays so. */
  lemma StaysSpoilt(s: string, text: seq<Ch>, k: nat)
    requires Spoilt(s, text)
    ensures Spoilt(ReplaceFirst(s, BindVar(k), "?"), text)
  {
    hide BindVar;
    hide ReplaceFirst;
    hide Marks;
    var q: nat, p: nat :| SpoiltAt(s, text, q, p);
    BindVarShape(k);
    var j := ReplaceWhere(s, BindVar(k), "?");
    var r := ReplaceFirst(s, BindVar(k), "?");
    if j >= 0 {
      BindVarShape(k);
      assert s[j + 0] == '$';
      if j < q {
        assert s[..q][j] == Marks(text)[j];
        assert s[..j] == s[..q][..j];
        assert SpoiltAt(r, text, j, p);
      } else {
        assert r[..q] == s[..q] && r[q] == s[q];
        assert SpoiltAt(r, text, q, p);
      }
    } else {
      assert SpoiltAt(r, text, q, p);
    }
  }

  lemma {:induction false} SpoiltToTheEnd(s: string, text: seq<Ch>, k: nat, count: nat)
    requires Spoilt(s, text)
    ensures Spoilt(Unnumbered(s, k, count), text)
    decreases count - k
  {
    hide Spoilt;
    if k < count {
      StaysSpoilt(s, text, k + 1);
      SpoiltToTheEnd(ReplaceFirst(s, BindVar(k + 1), "?"), text, k + 1, count);
    }
  }

  ghost predicate NoLookalike(text: seq<Ch>, k: nat, count: nat) {
    forall i :: k < i <= count ==> !Lookalike(text, i)
  }

  lemma {:induction false} UnnumberedFrom(text: seq<Ch>, k: nat, count: nat)
    requires Binds(text) == UpFrom(0, count) && k <= count
    ensures NoLookalike(text, k, count) ==> Unnumbered(Spelled(text, k), k, count) == Marks(text)
    ensures !NoLookalike(text, k, count) ==> Spoilt(Unnumbered(Spelled(text, k), k, count), text)
    decreases count - k
  {
    hide Lookalike;
    hide Spoilt;
    if k == count {
      SpelledMarks(text, count);
    } else if Lookalike(text, k + 1) {
      LookalikeSpoils(text, count, k);
      SpoiltToTheEnd(ReplaceFirst(Spelled(text, k), BindVar(k + 1), "?"), text, k + 1, count);
    } else {
      NextIsReplaced(text, count, k);
      UnnumberedFrom(text, k + 1, count);
    }
  }

  /** Un-numbering recovers the template exactly if ahead of no placeholder stands text that looks like it;
      a placeholder whose digits begin a longer number, and text that looks like a later one, do no harm. */
  lemma UnnumberedExactly(text: seq<Ch>, count: nat)
    requires Binds(text) == UpFrom(0, count)
    ensures Unnumbered(Spelled(text, 0), 0, count) == Marks(text) <==> NoLookalike(text, 0, count)
  {
    UnnumberedFrom(text, 0, count);
    if Spoilt(Unnumbered(Spelled(text, 0), 0, count), text) {
      var q: nat, p: nat :| SpoiltAt(Unnumbered(Spelled(text, 0), 0, count), text, q, p);
      assert Marks(text)[q] == '$';
    }
  }
}
