/** Keys of one or more columns, and the one string a key is looked up by. */
module StringKeys {
  import opened Decimals
  import opened Options

  /** What a value is printed from: nothing, a string or bytes, a uint, or any other type by its printed form,
      which is blank for that type's own zero. */
  datatype Form = Nil | Text(s: string) | Uint(n: nat) | Other(blank: bool, printed: string)

  /** A column's value: its form, whether its field holds a zero value, and what the database stores for it.
      None is NULL; values that the database takes for equal have the same number. */
  datatype Value = Value(form: Form, zero: bool, stored: Option<nat>)

  predicate AllZero(key: seq<Value>) { forall v <- key :: v.zero }

  /** The database finds the two keys equal; NULL equals nothing. */
  predicate Same(a: seq<Value>, b: seq<Value>) {
    |a| == |b| && forall i :: 0 <= i < |a| ==> a[i].stored.Some? && a[i].stored == b[i].stored
  }

  /** What a value contributes to the string. */
  function Shown(v: Value): string {
    match v.form
    case Nil => "nil"
    case Text(s) => s
    case Uint(n) => Decimal(n)
    case Other(blank, printed) => if blank then "nil" else printed
  }

  function Join(parts: seq<string>): string {
    if parts == [] then "" else if |parts| == 1 then parts[0] else parts[0] + "_" + Join(parts[1..])
  }

  function AllShown(key: seq<Value>): (r: seq<string>)
    ensures |r| == |key|
  {
    seq(|key|, i requires 0 <= i < |key| => Shown(key[i]))
  }

  function StringKey(key: seq<Value>): string { Join(AllShown(key)) }

  method ToStringKey(key: seq<Value>) returns (r: string)
    ensures r == StringKey(key)
  {
    var results: seq<string> := [];
    var i := 0;
    while i < |key|
      invariant i <= |key| && results == AllShown(key)[..i]
    {
      results := results + [Shown(key[i])];
      i := i + 1;
    }
    assert AllShown(key)[..|key|] == AllShown(key);
    r := Join(results);
  }

  /** The part up to the first '_' is settled by the whole string. */
  lemma FirstPart(a: string, b: string, s: string, t: string)
    requires '_' !in a && '_' !in b && a + "_" + s == b + "_" + t
    ensures a == b && s == t
  {
    var u, v := a + "_" + s, b + "_" + t;
    assert u[|a|] == '_' && v[|b|] == '_';
    assert forall i :: 0 <= i < |a| ==> u[i] == a[i];
    assert forall i :: 0 <= i < |b| ==> v[i] == b[i];
    assert |a| == |b|;
    assert a == u[..|a|] && b == v[..|b|];
    assert s == u[|a| + 1..] && t == v[|b| + 1..];
  }

  /** Keys with the same string have the same parts, if no part but the last contains a '_'. */
  lemma {:induction false} PartsFromString(a: seq<string>, b: seq<string>)
    requires |a| == |b| && Join(a) == Join(b)
    requires forall i :: 0 <= i < |a| - 1 ==> '_' !in a[i] && '_' !in b[i]
    ensures a == b
  {
    if |a| > 1 {
      FirstPart(a[0], b[0], Join(a[1..]), Join(b[1..]));
      PartsFromString(a[1..], b[1..]);
      assert a == [a[0]] + a[1..] && b == [b[0]] + b[1..];
    } else if |a| == 1 {
      assert a == [a[0]] && b == [b[0]];
    }
  }

  /** In particular a key of one column is settled by its string. */
  lemma SameStringSameParts(a: seq<Value>, b: seq<Value>)
    requires |a| == |b| && StringKey(a) == StringKey(b)
    requires forall i :: 0 <= i < |a| - 1 ==> '_' !in Shown(a[i]) && '_' !in Shown(b[i])
    ensures forall i :: 0 <= i < |a| ==> Shown(a[i]) == Shown(b[i])
  {
    PartsFromString(AllShown(a), AllShown(b));
    assert forall i :: 0 <= i < |a| ==> AllShown(a)[i] == Shown(a[i]) && AllShown(b)[i] == Shown(b[i]);
  }

  function TextValue(s: string, stored: nat): Value { Value(Text(s), s == "", Some(stored)) }

  /** Otherwise different keys can have the same string. */
  lemma DifferentKeysSameString(a: nat, b: nat, c: nat, d: nat)
    ensures StringKey([TextValue("a_b", a), TextValue("c", b)]) == StringKey([TextValue("a", c), TextValue("b_c", d)])
  {
    ShownPair(TextValue("a_b", a), TextValue("c", b));
    ShownPair(TextValue("a", c), TextValue("b_c", d));
  }

  lemma ShownPair(a: Value, b: Value)
    ensures StringKey([a, b]) == Shown(a) + "_" + Shown(b)
  {
    var parts := [Shown(a), Shown(b)];
    assert AllShown([a, b]) == parts;
    assert parts[1..] == [Shown(b)] && Join([Shown(b)]) == Shown(b);
  }

  /** What the string is made of: nil or a blank is spelled nil, texts and numbers as they are, and an underscore
      stands between two columns. */
  lemma KeyStrings(v: Value, key: seq<Value>)
    ensures
      StringKey([v]) == match v.form
        case Nil => "nil"
        case Text(s) => s
        case Uint(n) => Decimal(n)
        case Other(blank, printed) => if blank then "nil" else printed
    ensures key != [] ==> StringKey([v] + key) == StringKey([v]) + "_" + StringKey(key)
  {
    ShownOne(v);
    assert AllShown([v] + key)[1..] == AllShown(key);
  }

  lemma ShownOne(a: Value)
    ensures StringKey([a]) == Shown(a)
  {
    assert AllShown([a]) == [Shown(a)];
  }

  // ----- keys of one number

  /** A number in a uint field, and behind a pointer; a nil pointer. */
  function PlainId(n: nat): Value { Value(Uint(n), n == 0, Some(n)) }

  function PointerTo(n: nat): Value { Value(Other(false, Decimal(n)), false, Some(n)) }

  const NO_ID := Value(Nil, true, None)

  ghost predicate PlainKey(key: seq<Value>) { exists n :: key == [PlainId(n)] }

  /** The key of a row that points to a uint key. */
  ghost predicate ForeignKey(key: seq<Value>) {
    PlainKey(key) || key == [NO_ID] || exists n :: key == [PointerTo(n)]
  }

  /** A uint key is settled by its string, and the database finds a row under it exactly if the two have the same
      string. */
  lemma IdsByString(foreign: seq<Value>, key: seq<Value>)
    requires ForeignKey(foreign) && PlainKey(key)
    ensures Same(foreign, key) <==> StringKey(foreign) == StringKey(key)
    ensures PlainKey(foreign) ==> (StringKey(foreign) == StringKey(key) <==> foreign == key)
  {
    var n :| key == [PlainId(n)];
    ShownOne(key[0]);
    ShownOne(foreign[0]);
    DigitsOnly(n);
    assert Decimal(n)[0] in Decimal(n);
    if PlainKey(foreign) {
      var m :| foreign == [PlainId(m)];
      DecimalsDiffer(m, n);
    } else if foreign != [NO_ID] {
      var m :| foreign == [PointerTo(m)];
      DecimalsDiffer(m, n);
    }
  }
}
