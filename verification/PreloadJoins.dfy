/** Preloading is a join: what each record is handed, against the nested loop over the tables, and exactly
    when the two are the same. The database compares what it stores, the map compares strings. */
module PreloadJoins {
  import opened Decimals
  import opened Options
  import opened Preloads
  import opened StringKeys

  predicate SameAsOne(key: seq<Value>, keys: seq<seq<Value>>) { exists k <- keys :: Same(key, k) }

  /** The rows of a table with one of the keys and a further condition, as the database selects them. */
  function Select(table: seq<Child>, keys: seq<seq<Value>>, cond: Child -> bool): seq<Child> {
    if table == [] then []
    else
      var c := table[|table| - 1];
      Select(table[..|table| - 1], keys, cond) + if SameAsOne(c.key, keys) && cond(c) then [c] else []
  }

  function SelectRows(table: seq<JoinRow>, keys: seq<seq<Value>>): seq<JoinRow> {
    if table == [] then []
    else
      var row := table[|table| - 1];
      SelectRows(table[..|table| - 1], keys) + if SameAsOne(row.own, keys) then [row] else []
  }

  lemma {:induction false} Found(table: seq<Child>, keys: seq<seq<Value>>, cond: Child -> bool, c: Child)
    ensures c in Select(table, keys, cond) <==> c in table && SameAsOne(c.key, keys) && cond(c)
  {
    hide SameAsOne;
    if table != [] {
      Found(table[..|table| - 1], keys, cond, c);
      assert table == table[..|table| - 1] + [table[|table| - 1]];
    }
  }

  lemma {:induction false} FoundRow(joins: seq<JoinRow>, keys: seq<seq<Value>>, row: JoinRow)
    ensures row in SelectRows(joins, keys) <==> row in joins && SameAsOne(row.own, keys)
  {
    hide SameAsOne;
    if joins != [] {
      FoundRow(joins[..|joins| - 1], keys, row);
      assert joins == joins[..|joins| - 1] + [joins[|joins| - 1]];
    }
  }

  /** Every row of the table, as often as f says. */
  function Each(table: seq<Child>, f: Child -> nat): seq<Child> {
    if table == [] then []
    else
      var c := table[|table| - 1];
      Each(table[..|table| - 1], f) + Repeat(c, f(c))
  }

  function Occurs(s: seq<Child>, c: Child): nat {
    if s == [] then 0 else Occurs(s[..|s| - 1], c) + if s[|s| - 1] == c then 1 else 0
  }

  lemma {:induction false} OccursConcat(a: seq<Child>, b: seq<Child>, c: Child)
    ensures Occurs(a + b, c) == Occurs(a, c) + Occurs(b, c)
  {
    if b == [] {
      assert a + b == a;
    } else {
      assert (a + b)[..|a + b| - 1] == a + b[..|b| - 1];
      OccursConcat(a, b[..|b| - 1], c);
    }
  }

  lemma {:induction false} OccursSomewhere(s: seq<Child>, c: Child)
    requires c in s
    ensures Occurs(s, c) > 0
  {
    if s[|s| - 1] != c {
      OccursSomewhere(s[..|s| - 1], c);
    }
  }

  lemma {:induction false} RepeatCount(c: Child, n: nat, d: Child)
    ensures Occurs(Repeat(c, n), d) == if c == d then n else 0
  {
    if n > 0 {
      RepeatCount(c, n - 1, d);
      assert Repeat(c, n)[..|Repeat(c, n)| - 1] == Repeat(c, n - 1);
    }
  }

  lemma {:induction false} EachCount(table: seq<Child>, f: Child -> nat, c: Child)
    ensures Occurs(Each(table, f), c) == Occurs(table, c) * f(c)
  {
    if table != [] {
      var front, last := table[..|table| - 1], table[|table| - 1];
      EachCount(front, f, c);
      RepeatCount(last, f(last), c);
      OccursConcat(Each(front, f), Repeat(last, f(last)), c);
      OneMore(Occurs(front, c), f(c));
    }
  }

  lemma OneMore(n: nat, k: nat)
    ensures (n + 1) * k == n * k + k
  {
  }

  lemma {:induction false} EachSameIf(table: seq<Child>, f: Child -> nat, g: Child -> nat)
    requires forall c <- table :: f(c) == g(c)
    ensures Each(table, f) == Each(table, g)
  {
    if table != [] {
      EachSameIf(table[..|table| - 1], f, g);
    }
  }

  lemma SameFactor(n: nat, a: nat, b: nat)
    requires n > 0 && n * a == n * b
    ensures a == b
  {
  }

  /** Two ways of handing out the rows of a table are the same exactly if they are for every row. */
  lemma EachSame(table: seq<Child>, f: Child -> nat, g: Child -> nat)
    ensures Each(table, f) == Each(table, g) <==> forall c <- table :: f(c) == g(c)
  {
    if Each(table, f) == Each(table, g) {
      forall c | c in table
        ensures f(c) == g(c)
      {
        EachCount(table, f, c);
        EachCount(table, g, c);
        OccursSomewhere(table, c);
        SameFactor(Occurs(table, c), f(c), g(c));
      }
    } else if forall c <- table :: f(c) == g(c) {
      EachSameIf(table, f, g);
    }
  }

  // ----- direct associations

  /** The rows a record is to be handed: those whose key is the same as its own. */
  function NestedLoop(table: seq<Child>, cond: Child -> bool, key: seq<Value>): seq<Child> {
    if table == [] then []
    else
      var c := table[|table| - 1];
      NestedLoop(table[..|table| - 1], cond, key)
      + if Same(c.key, key) && !AllZero(key) && cond(c) then [c] else []
  }

  /** How often a row is handed to the record with the key, and how often it is to be. */
  function DirectTimes(asked: seq<seq<Value>>, cond: Child -> bool, key: seq<Value>): Child -> nat {
    (c: Child) => if SameAsOne(c.key, asked) && cond(c) && Belongs(key, StringKey(c.key)) then 1 else 0
  }

  function LoopTimes(cond: Child -> bool, key: seq<Value>): Child -> nat {
    (c: Child) => if Same(c.key, key) && !AllZero(key) && cond(c) then 1 else 0
  }

  lemma {:induction false} MatchesConcat(a: seq<Child>, b: seq<Child>, key: seq<Value>)
    ensures DirectMatches(a + b, key) == DirectMatches(a, key) + DirectMatches(b, key)
  {
    hide StringKey;
    if b == [] {
      assert a + b == a;
    } else {
      assert (a + b)[..|a + b| - 1] == a + b[..|b| - 1];
      MatchesConcat(a, b[..|b| - 1], key);
    }
  }

  lemma MatchesOne(c: Child, key: seq<Value>)
    ensures DirectMatches([c], key) == if Belongs(key, StringKey(c.key)) then [c] else []
    ensures DirectMatches([], key) == []
  {
  }

  lemma {:induction false} DirectIsEach(table: seq<Child>, asked: seq<seq<Value>>, cond: Child -> bool, key: seq<Value>)
    ensures DirectMatches(Select(table, asked, cond), key) == Each(table, DirectTimes(asked, cond, key))
  {
    hide StringKey;
    hide Belongs;
    hide SameAsOne;
    if table != [] {
      var front, c := table[..|table| - 1], table[|table| - 1];
      DirectIsEach(front, asked, cond, key);
      MatchesOne(c, key);
      MatchesConcat(Select(front, asked, cond), if SameAsOne(c.key, asked) && cond(c) then [c] else [], key);
      assert Repeat(c, 1) == Repeat(c, 0) + [c] == [c];
    }
  }

  lemma {:induction false} LoopIsEach(table: seq<Child>, cond: Child -> bool, key: seq<Value>)
    ensures NestedLoop(table, cond, key) == Each(table, LoopTimes(cond, key))
  {
    hide Same;
    hide AllZero;
    if table != [] {
      var c := table[|table| - 1];
      LoopIsEach(table[..|table| - 1], cond, key);
      assert Repeat(c, 1) == Repeat(c, 0) + [c] == [c];
    }
  }

  /** If the row belongs to some record, its string is that of the records it belongs to, and of no other. */
  ghost predicate OwnString(keys: seq<seq<Value>>, cond: Child -> bool, c: Child) {
    cond(c) && (exists k <- keys :: !AllZero(k) && Same(c.key, k)) ==>
      forall k <- keys :: !AllZero(k) ==> (Same(c.key, k) <==> StringKey(k) == StringKey(c.key))
  }

  /** The row is handed to the right records. */
  ghost predicate RightlyHanded(keys: seq<seq<Value>>, cond: Child -> bool, c: Child) {
    forall key <- keys :: DirectTimes(Asked(keys), cond, key)(c) == LoopTimes(cond, key)(c)
  }

  lemma OwnStringHands(keys: seq<seq<Value>>, cond: Child -> bool, c: Child)
    requires OwnString(keys, cond, c)
    ensures RightlyHanded(keys, cond, c)
    ensures cond(c) && SameAsOne(c.key, Asked(keys)) ==> HasString(Asked(keys), StringKey(c.key))
  {
    hide StringKey;
    hide Asked;
    hide AllZero;
    hide Same;
    AskedFrom(keys);
    if key :| key in keys && !AllZero(key) && Same(c.key, key) && cond(c) {
      AskedCovers(keys, key);
      var a :| a in Asked(keys) && StringKey(a) == StringKey(key);
      assert Same(c.key, a);
    }
  }

  lemma HandedHasOwnString(keys: seq<seq<Value>>, cond: Child -> bool, c: Child)
    requires RightlyHanded(keys, cond, c)
    ensures OwnString(keys, cond, c)
  {
    hide StringKey;
    hide Asked;
    hide AllZero;
    hide Same;
    hide SameAsOne;
    if key :| key in keys && !AllZero(key) && Same(c.key, key) && cond(c) {
      assert DirectTimes(Asked(keys), cond, key)(c) == LoopTimes(cond, key)(c) == 1;
      forall k | k in keys && !AllZero(k)
        ensures Same(c.key, k) <==> StringKey(k) == StringKey(c.key)
      {
        assert DirectTimes(Asked(keys), cond, k)(c) == LoopTimes(cond, k)(c);
      }
    }
  }

  /** Every record is handed exactly the rows with the same key, in the order they are found, exactly if every
      row that belongs to a record has the string of the records it belongs to, and of no other. */
  lemma DirectIsJoin(keys: seq<seq<Value>>, table: seq<Child>, cond: Child -> bool)
    ensures
      (forall key <- keys :: DirectMatches(Select(table, Asked(keys), cond), key) == NestedLoop(table, cond, key))
      <==> forall c <- table :: OwnString(keys, cond, c)
  {
    hide StringKey;
    hide Asked;
    hide DirectTimes;
    hide LoopTimes;
    hide OwnString;
    hide Each;
    hide NestedLoop;
    hide DirectMatches;
    hide Select;
    forall key | key in keys
      ensures
        DirectMatches(Select(table, Asked(keys), cond), key) == NestedLoop(table, cond, key)
        <==> forall c <- table :: DirectTimes(Asked(keys), cond, key)(c) == LoopTimes(cond, key)(c)
    {
      DirectIsEach(table, Asked(keys), cond, key);
      LoopIsEach(table, cond, key);
      EachSame(table, DirectTimes(Asked(keys), cond, key), LoopTimes(cond, key));
    }
    forall c | c in table
      ensures RightlyHanded(keys, cond, c) <==> OwnString(keys, cond, c)
    {
      if OwnString(keys, cond, c) {
        OwnStringHands(keys, cond, c);
      }
      if RightlyHanded(keys, cond, c) {
        HandedHasOwnString(keys, cond, c);
      }
    }
  }

  /** Every row that the query finds is spelled like one of the keys asked for: assigning does not fail. */
  ghost predicate AllAtHome(keys: seq<seq<Value>>, table: seq<Child>, cond: Child -> bool) {
    forall c <- Select(table, Asked(keys), cond) :: HasString(Asked(keys), StringKey(c.key))
  }

  /** In particular wherever preloading is the join. */
  lemma JoinIsAtHome(keys: seq<seq<Value>>, table: seq<Child>, cond: Child -> bool)
    requires forall c <- table :: OwnString(keys, cond, c)
    ensures AllAtHome(keys, table, cond)
  {
    hide OwnString;
    hide HasString;
    hide StringKey;
    hide Asked;
    hide SameAsOne;
    forall c | c in Select(table, Asked(keys), cond)
      ensures HasString(Asked(keys), StringKey(c.key))
    {
      Found(table, Asked(keys), cond, c);
      OwnStringHands(keys, cond, c);
    }
  }

  /** With uint keys, and rows that point to them, preloading is the join on every table. */
  lemma IdsHaveOwnStrings(keys: seq<seq<Value>>, cond: Child -> bool, c: Child)
    requires (forall k <- keys :: PlainKey(k)) && ForeignKey(c.key)
    ensures OwnString(keys, cond, c)
  {
    hide StringKey;
    hide Same;
    hide PlainKey;
    hide ForeignKey;
    forall k | k in keys
      ensures Same(c.key, k) <==> StringKey(k) == StringKey(c.key)
    {
      IdsByString(c.key, k);
    }
  }

  /** What the join is: every row of the table that has the key and meets the condition, as often as it is there. */
  lemma JoinCounts(table: seq<Child>, cond: Child -> bool, key: seq<Value>, c: Child)
    ensures Occurs(NestedLoop(table, cond, key), c)
            == if Same(c.key, key) && !AllZero(key) && cond(c) then Occurs(table, c) else 0
  {
    LoopIsEach(table, cond, key);
    EachCount(table, LoopTimes(cond, key), c);
  }

  // ----- keys of one value and different types

  /** A number in an int field. */
  function PlainInt(n: nat): Value { Value(Other(n == 0, Decimal(n)), n == 0, Some(n)) }

  /** A row that points to its record through a pointer is found, and has the record's string. */
  lemma PointerFindsItsRecord(id: int, n: nat)
    requires n > 0
    ensures
      var key, table := [PlainId(n)], [Child(id, [PointerTo(n)])];
      NestedLoop(table, c => true, key) == table && forall c <- table :: OwnString([key], c => true, c)
  {
    var key, c := [PlainId(n)], Child(id, [PointerTo(n)]);
    ShownOne(PlainId(n));
    ShownOne(PointerTo(n));
    assert Same(c.key, key);
    assert !key[0].zero;
    assert NestedLoop([], x => true, key) == [] && [c][..0] == [];
  }

  /** A zero in one column of a key is spelled "nil", a pointer to zero "0": the database finds the row, and
      assigning it fails. */
  lemma PointerToZeroFails(id: int, s: string, n: nat)
    requires s != ""
    ensures !AllAtHome([[TextValue(s, n), PlainInt(0)]], [Child(id, [TextValue(s, n), PointerTo(0)])], c => true)
  {
    var key, c := [TextValue(s, n), PlainInt(0)], Child(id, [TextValue(s, n), PointerTo(0)]);
    var keys := [key];
    ShownPair(TextValue(s, n), PlainInt(0));
    ShownPair(TextValue(s, n), PointerTo(0));
    assert StringKey(key) == s + "_" + "nil" && StringKey(c.key) == s + "_" + "0";
    assert |StringKey(key)| != |StringKey(c.key)|;
    assert !key[0].zero && key[0] in key;
    AskedCovers(keys, key);
    AskedFrom(keys);
    assert key in Asked(keys);
    assert Same(c.key, key);
    Found([c], Asked(keys), x => true, c);
  }

  /** Two keys of two columns that share a string, and a row that goes to the wrong record. */
  lemma SharedStringSharesRows(id: int)
    ensures
      var one, other := [TextValue("a_b", 0), TextValue("c", 1)], [TextValue("a", 2), TextValue("b_c", 3)];
      !OwnString([one, other], c => true, Child(id, one))
  {
    var one, other := [TextValue("a_b", 0), TextValue("c", 1)], [TextValue("a", 2), TextValue("b_c", 3)];
    DifferentKeysSameString(0, 1, 2, 3);
    assert !one[0].zero && one[0] in one && !other[0].zero && other[0] in other;
    assert Same(one, one) && !Same(one, other) by { assert one[0].stored != other[0].stored; }
    var keys := [one, other];
    assert keys[0] == one && keys[1] == other;
  }
}
