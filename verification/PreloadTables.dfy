/** Preloading through a join table, against the nested loop over the three tables, and both ways of preloading
    from the tables to the records. */
module PreloadTables {
  import opened Decimals
  import opened Options
  import opened PreloadJoins
  import opened Preloads
  import opened StringKeys

  // ----- counting join rows

  function Tally(joins: seq<JoinRow>, p: JoinRow -> bool): nat {
    if joins == [] then 0
    else Tally(joins[..|joins| - 1], p) + if p(joins[|joins| - 1]) then 1 else 0
  }

  function Only(p: JoinRow -> bool, q: JoinRow -> bool): JoinRow -> bool { (row: JoinRow) => p(row) && !q(row) }

  /** As many rows have p as have q exactly if as many have only p as have only q. */
  lemma {:induction false} TallyOnly(joins: seq<JoinRow>, p: JoinRow -> bool, q: JoinRow -> bool)
    ensures Tally(joins, p) + Tally(joins, Only(q, p)) == Tally(joins, q) + Tally(joins, Only(p, q))
  {
    if joins != [] {
      TallyOnly(joins[..|joins| - 1], p, q);
    }
  }

  lemma {:induction false} TallyNone(joins: seq<JoinRow>, p: JoinRow -> bool)
    ensures Tally(joins, p) == 0 <==> forall row <- joins :: !p(row)
  {
    if joins != [] {
      TallyNone(joins[..|joins| - 1], p);
      assert joins == joins[..|joins| - 1] + [joins[|joins| - 1]];
    }
  }

  // ----- which join rows lead a record to a row

  /** By what the database stores. A key that is all zero leads nowhere. */
  function ByValue(key: seq<Value>, c: Child): JoinRow -> bool {
    (row: JoinRow) => !AllZero(key) && Same(row.own, key) && !AllZero(row.rel) && Same(row.rel, c.key)
  }

  /** By strings: if the row is found by one of the keys asked for in the end, and the join row by one of those
      asked for first. */
  function ByString(asked: seq<seq<Value>>, relAsked: seq<seq<Value>>, key: seq<Value>, c: Child): JoinRow -> bool {
    (row: JoinRow) =>
      && SameAsOne(c.key, relAsked) && SameAsOne(row.own, asked)
      && Belongs(key, StringKey(row.own)) && StringKey(row.rel) == StringKey(c.key)
  }

  function PairTimes(joins: seq<JoinRow>, cond: Child -> bool, key: seq<Value>): Child -> nat {
    (c: Child) => if cond(c) then Tally(joins, ByValue(key, c)) else 0
  }

  function ThroughTimes(rows: seq<JoinRow>, relAsked: seq<seq<Value>>, cond: Child -> bool, key: seq<Value>)
    : Child -> nat
  {
    (c: Child) => if SameAsOne(c.key, relAsked) && cond(c) then RowCount(rows, key, StringKey(c.key)) else 0
  }

  /** The rows a record is to be handed: each once for every join row that pairs the two. */
  function NestedThrough(table: seq<Child>, joins: seq<JoinRow>, cond: Child -> bool, key: seq<Value>): seq<Child> {
    if table == [] then []
    else
      var c := table[|table| - 1];
      NestedThrough(table[..|table| - 1], joins, cond, key)
      + Repeat(c, if cond(c) then Tally(joins, ByValue(key, c)) else 0)
  }

  lemma {:induction false} ThroughConcat(a: seq<Child>, b: seq<Child>, rows: seq<JoinRow>, key: seq<Value>)
    ensures ThroughMatches(a + b, rows, key) == ThroughMatches(a, rows, key) + ThroughMatches(b, rows, key)
  {
    hide StringKey;
    if b == [] {
      assert a + b == a;
    } else {
      assert (a + b)[..|a + b| - 1] == a + b[..|b| - 1];
      ThroughConcat(a, b[..|b| - 1], rows, key);
    }
  }

  lemma ThroughOne(c: Child, rows: seq<JoinRow>, key: seq<Value>)
    ensures ThroughMatches([c], rows, key) == Repeat(c, RowCount(rows, key, StringKey(c.key)))
    ensures ThroughMatches([], rows, key) == []
  {
  }

  lemma {:induction false} ThroughIsEach(table: seq<Child>, rows: seq<JoinRow>, relAsked: seq<seq<Value>>,
                                         cond: Child -> bool, key: seq<Value>)
    ensures
      ThroughMatches(Select(table, relAsked, cond), rows, key)
      == Each(table, ThroughTimes(rows, relAsked, cond, key))
  {
    hide StringKey;
    hide RowCount;
    hide SameAsOne;
    if table != [] {
      var front, c := table[..|table| - 1], table[|table| - 1];
      ThroughIsEach(front, rows, relAsked, cond, key);
      ThroughOne(c, rows, key);
      ThroughConcat(Select(front, relAsked, cond), if SameAsOne(c.key, relAsked) && cond(c) then [c] else [],
                    rows, key);
    }
  }

  lemma {:induction false} NestedIsEach(table: seq<Child>, joins: seq<JoinRow>, cond: Child -> bool, key: seq<Value>)
    ensures NestedThrough(table, joins, cond, key) == Each(table, PairTimes(joins, cond, key))
  {
    hide ByValue;
    if table != [] {
      NestedIsEach(table[..|table| - 1], joins, cond, key);
    }
  }

  /** Every row of the table is there once for each join row that pairs it with the key, as often as it stands in
      the table. */
  lemma ThroughCounts(table: seq<Child>, joins: seq<JoinRow>, cond: Child -> bool, key: seq<Value>, c: Child)
    ensures Occurs(NestedThrough(table, joins, cond, key), c)
            == Occurs(table, c) * if cond(c) then Tally(joins, ByValue(key, c)) else 0
  {
    NestedIsEach(table, joins, cond, key);
    EachCount(table, PairTimes(joins, cond, key), c);
  }

  lemma {:induction false} RowCountConcat(a: seq<JoinRow>, b: seq<JoinRow>, key: seq<Value>, k: string)
    ensures RowCount(a + b, key, k) == RowCount(a, key, k) + RowCount(b, key, k)
  {
    hide StringKey;
    if b == [] {
      assert a + b == a;
    } else {
      assert (a + b)[..|a + b| - 1] == a + b[..|b| - 1];
      RowCountConcat(a, b[..|b| - 1], key, k);
    }
  }

  lemma RowCountOne(row: JoinRow, key: seq<Value>, k: string)
    ensures RowCount([row], key, k) == if StringKey(row.rel) == k && Belongs(key, StringKey(row.own)) then 1 else 0
    ensures RowCount([], key, k) == 0
  {
  }

  /** What a record is handed is counted by the join rows that lead there by strings. */
  lemma {:induction false} CountByString(joins: seq<JoinRow>, asked: seq<seq<Value>>, relAsked: seq<seq<Value>>,
                                         key: seq<Value>, c: Child)
    requires SameAsOne(c.key, relAsked)
    ensures
      RowCount(SelectRows(joins, asked), key, StringKey(c.key)) == Tally(joins, ByString(asked, relAsked, key, c))
  {
    hide StringKey;
    hide SameAsOne;
    if joins != [] {
      var front, row := joins[..|joins| - 1], joins[|joins| - 1];
      CountByString(front, asked, relAsked, key, c);
      RowCountOne(row, key, StringKey(c.key));
      RowCountConcat(SelectRows(front, asked), if SameAsOne(row.own, asked) then [row] else [],
                     key, StringKey(c.key));
    }
  }

  lemma ThroughTimesIs(joins: seq<JoinRow>, asked: seq<seq<Value>>, relAsked: seq<seq<Value>>, cond: Child -> bool,
                       key: seq<Value>, c: Child)
    ensures
      ThroughTimes(SelectRows(joins, asked), relAsked, cond, key)(c)
      == if cond(c) then Tally(joins, ByString(asked, relAsked, key, c)) else 0
  {
    hide StringKey;
    hide SelectRows;
    hide RowCount;
    if SameAsOne(c.key, relAsked) {
      CountByString(joins, asked, relAsked, key, c);
    } else {
      TallyNone(joins, ByString(asked, relAsked, key, c));
    }
  }

  /** The keys asked for in the end. */
  ghost function RelAsked(keys: seq<seq<Value>>, joins: seq<JoinRow>): seq<seq<Value>> {
    Asked(RelKeys(SelectRows(joins, Asked(keys))))
  }

  /** How many join rows pair a record with a row and do not lead there by their strings. */
  ghost function Lost(keys: seq<seq<Value>>, joins: seq<JoinRow>, key: seq<Value>, c: Child): nat {
    Tally(joins, Only(ByValue(key, c), ByString(Asked(keys), RelAsked(keys, joins), key, c)))
  }

  /** How many lead there by their strings and do not pair the two. */
  ghost function Astray(keys: seq<seq<Value>>, joins: seq<JoinRow>, key: seq<Value>, c: Child): nat {
    Tally(joins, Only(ByString(Asked(keys), RelAsked(keys, joins), key, c), ByValue(key, c)))
  }

  lemma TimesAgree(keys: seq<seq<Value>>, joins: seq<JoinRow>, cond: Child -> bool, key: seq<Value>, c: Child)
    ensures
      ThroughTimes(SelectRows(joins, Asked(keys)), RelAsked(keys, joins), cond, key)(c)
      == PairTimes(joins, cond, key)(c)
      <==> (cond(c) ==> Lost(keys, joins, key, c) == Astray(keys, joins, key, c))
  {
    hide ByValue;
    hide ByString;
    hide ThroughTimes;
    hide Tally;
    hide Asked;
    hide RelAsked;
    var asked, relAsked := Asked(keys), RelAsked(keys, joins);
    ThroughTimesIs(joins, asked, relAsked, cond, key, c);
    TallyOnly(joins, ByString(asked, relAsked, key, c), ByValue(key, c));
  }

  ghost predicate BalancedRow(keys: seq<seq<Value>>, joins: seq<JoinRow>, cond: Child -> bool, c: Child) {
    forall key <- keys :: cond(c) ==> Lost(keys, joins, key, c) == Astray(keys, joins, key, c)
  }

  /** Through a join table, every record is handed every row once for each join row that pairs the two, in the
      order the rows are found, exactly if for every record and row as many join rows are lost by their
      strings as go astray. */
  lemma ThroughIsJoin(keys: seq<seq<Value>>, joins: seq<JoinRow>, table: seq<Child>, cond: Child -> bool)
    ensures
      var rows := SelectRows(joins, Asked(keys));
      (forall key <- keys ::
         ThroughMatches(Select(table, Asked(RelKeys(rows)), cond), rows, key) == NestedThrough(table, joins, cond, key))
      <==> forall c <- table :: BalancedRow(keys, joins, cond, c)
  {
    hide StringKey;
    hide Asked;
    hide RelKeys;
    hide SelectRows;
    hide PairTimes;
    hide ThroughTimes;
    hide Each;
    hide NestedThrough;
    hide ThroughMatches;
    hide Select;
    hide Lost;
    hide Astray;
    var rows := SelectRows(joins, Asked(keys));
    var relAsked := RelAsked(keys, joins);
    forall key | key in keys
      ensures
        ThroughMatches(Select(table, relAsked, cond), rows, key) == NestedThrough(table, joins, cond, key)
        <==> forall c <- table :: cond(c) ==> Lost(keys, joins, key, c) == Astray(keys, joins, key, c)
    {
      ThroughIsEach(table, rows, relAsked, cond, key);
      NestedIsEach(table, joins, cond, key);
      EachSame(table, ThroughTimes(rows, relAsked, cond, key), PairTimes(joins, cond, key));
      forall c | c in table
        ensures
          ThroughTimes(rows, relAsked, cond, key)(c) == PairTimes(joins, cond, key)(c)
          <==> (cond(c) ==> Lost(keys, joins, key, c) == Astray(keys, joins, key, c))
      {
        TimesAgree(keys, joins, cond, key, c);
      }
    }
  }

  /** With uint keys in all three tables, a join row leads there by its strings exactly if it pairs the two. */
  lemma IdsPair(keys: seq<seq<Value>>, joins: seq<JoinRow>, key: seq<Value>, c: Child, row: JoinRow)
    requires (forall k <- keys :: PlainKey(k)) && key in keys && row in joins
    requires PlainKey(c.key) && ForeignKey(row.own) && forall r <- joins :: PlainKey(r.rel)
    ensures ByValue(key, c)(row) <==> ByString(Asked(keys), RelAsked(keys, joins), key, c)(row)
  {
    hide StringKey;
    hide Asked;
    hide AllZero;
    hide Same;
    hide PlainKey;
    hide ForeignKey;
    hide SelectRows;
    hide RelKeys;
    var rows := SelectRows(joins, Asked(keys));
    AskedFrom(keys);
    AskedFrom(RelKeys(rows));
    IdsByString(row.own, key);
    ForeignPlain(row.rel);
    IdsByString(row.rel, c.key);
    if ByValue(key, c)(row) {
      AskedCovers(keys, key);
      var a :| a in Asked(keys) && StringKey(a) == StringKey(key);
      IdsByString(row.own, a);
      FoundRow(joins, Asked(keys), row);
      RelKeyIsRow(rows, row.rel);
      AskedCovers(RelKeys(rows), row.rel);
      var b :| b in Asked(RelKeys(rows)) && StringKey(b) == StringKey(row.rel);
      RelKeyIsRow(rows, b);
      RelRowFrom(joins, keys, b);
      ForeignPlain(c.key);
      IdsByString(c.key, b);
    }
    if ByString(Asked(keys), RelAsked(keys, joins), key, c)(row) {
      var b :| b in Asked(RelKeys(rows)) && Same(c.key, b);
      RelKeyIsRow(rows, b);
      RelRowFrom(joins, keys, b);
      ForeignPlain(c.key);
      IdsByString(c.key, b);
      IdsByString(row.rel, b);
    }
  }

  lemma ForeignPlain(key: seq<Value>)
    requires PlainKey(key)
    ensures ForeignKey(key)
  {
  }

  lemma RelRowFrom(joins: seq<JoinRow>, keys: seq<seq<Value>>, rel: seq<Value>)
    requires exists row <- SelectRows(joins, Asked(keys)) :: row.rel == rel
    ensures exists row <- joins :: row.rel == rel
  {
    var row :| row in SelectRows(joins, Asked(keys)) && row.rel == rel;
    FoundRow(joins, Asked(keys), row);
  }

  lemma IdsAreBalanced(keys: seq<seq<Value>>, joins: seq<JoinRow>, cond: Child -> bool, c: Child)
    requires (forall k <- keys :: PlainKey(k)) && PlainKey(c.key)
    requires forall row <- joins :: ForeignKey(row.own) && PlainKey(row.rel)
    ensures BalancedRow(keys, joins, cond, c)
  {
    hide ByValue;
    hide ByString;
    hide RelAsked;
    hide Asked;
    hide PlainKey;
    hide ForeignKey;
    forall key | key in keys
      ensures Lost(keys, joins, key, c) == Astray(keys, joins, key, c)
    {
      var paired, led := ByValue(key, c), ByString(Asked(keys), RelAsked(keys, joins), key, c);
      forall row | row in joins
        ensures paired(row) <==> led(row)
      {
        IdsPair(keys, joins, key, c, row);
      }
      TallyNone(joins, Only(paired, led));
      TallyNone(joins, Only(led, paired));
    }
  }

  /** Where no join row goes astray, that is exactly if none is lost. */
  lemma NoneAstray(keys: seq<seq<Value>>, joins: seq<JoinRow>, cond: Child -> bool, c: Child)
    requires forall key <- keys :: Astray(keys, joins, key, c) == 0
    ensures
      BalancedRow(keys, joins, cond, c)
      <==> forall key <- keys, row <- joins ::
             cond(c) && ByValue(key, c)(row) ==> ByString(Asked(keys), RelAsked(keys, joins), key, c)(row)
  {
    hide ByValue;
    hide ByString;
    hide Asked;
    hide RelAsked;
    forall key | key in keys
      ensures
        Lost(keys, joins, key, c) == 0
        <==> forall row <- joins :: ByValue(key, c)(row) ==> ByString(Asked(keys), RelAsked(keys, joins), key, c)(row)
    {
      TallyNone(joins, Only(ByValue(key, c), ByString(Asked(keys), RelAsked(keys, joins), key, c)));
    }
  }

  /** A join row that points to its record through a pointer to zero is lost. */
  lemma PointerToZeroIsLost(s: string, n: nat, rel: nat, id: int)
    requires s != "" && rel > 0
    ensures
      var key, row := [TextValue(s, n), PlainInt(0)], JoinRow([TextValue(s, n), PointerTo(0)], [PlainId(rel)]);
      Lost([key], [row], key, Child(id, [PlainId(rel)])) == 1
  {
    var key, row := [TextValue(s, n), PlainInt(0)], JoinRow([TextValue(s, n), PointerTo(0)], [PlainId(rel)]);
    var c, keys, joins := Child(id, [PlainId(rel)]), [key], [row];
    ShownPair(TextValue(s, n), PlainInt(0));
    ShownPair(TextValue(s, n), PointerTo(0));
    assert |StringKey(key)| != |StringKey(row.own)|;
    assert !key[0].zero && key[0] in key && !row.rel[0].zero && row.rel[0] in row.rel;
    assert ByValue(key, c)(row);
    var lost := Only(ByValue(key, c), ByString(Asked(keys), RelAsked(keys, joins), key, c));
    assert lost(row);
    assert Tally([], lost) == 0 && joins[..0] == [];
  }

  // ----- every row found has a record to go to

  lemma RelKeyIsRow(rows: seq<JoinRow>, rel: seq<Value>)
    ensures rel in RelKeys(rows) <==> exists row <- rows :: row.rel == rel
  {
    if rel in RelKeys(rows) {
      var i :| 0 <= i < |rows| && RelKeys(rows)[i] == rel;
      assert rows[i] in rows;
    }
    if row :| row in rows && row.rel == rel {
      var i :| 0 <= i < |rows| && rows[i] == row;
      assert RelKeys(rows)[i] == rel;
    }
  }

  ghost predicate AllLed(keys: seq<seq<Value>>, joins: seq<JoinRow>, table: seq<Child>, cond: Child -> bool) {
    forall c <- Select(table, RelAsked(keys, joins), cond) ::
      LedTo(SelectRows(joins, Asked(keys)), Asked(keys), StringKey(c.key))
  }

  lemma SameBack(a: seq<Value>, b: seq<Value>)
    ensures Same(a, b) <==> Same(b, a)
  {
  }

  /** A row that is found is paired with a key that is asked for. */
  lemma FoundIsPaired(keys: seq<seq<Value>>, joins: seq<JoinRow>, c: Child) returns (a: seq<Value>)
    requires SameAsOne(c.key, RelAsked(keys, joins))
    ensures a in Asked(keys) && Tally(joins, ByValue(a, c)) > 0
  {
    hide StringKey;
    hide Asked;
    hide AllZero;
    hide Same;
    hide RelKeys;
    var rows := SelectRows(joins, Asked(keys));
    var rel :| rel in RelAsked(keys, joins) && Same(c.key, rel);
    AskedFrom(RelKeys(rows));
    AskedFrom(keys);
    RelKeyIsRow(rows, rel);
    var row :| row in rows && row.rel == rel;
    FoundRow(joins, Asked(keys), row);
    a :| a in Asked(keys) && Same(row.own, a);
    SameBack(c.key, rel);
    TallyNone(joins, ByValue(a, c));
    assert ByValue(a, c)(row);
  }

  /** Wherever preloading is the join, every row that is found has a record to go to. */
  lemma JoinIsLed(keys: seq<seq<Value>>, joins: seq<JoinRow>, table: seq<Child>, cond: Child -> bool)
    requires forall c <- table :: BalancedRow(keys, joins, cond, c)
    ensures AllLed(keys, joins, table, cond)
  {
    hide RelAsked;
    hide SelectRows;
    hide Select;
    hide BalancedRow;
    hide LedTo;
    forall c | c in Select(table, RelAsked(keys, joins), cond)
      ensures LedTo(SelectRows(joins, Asked(keys)), Asked(keys), StringKey(c.key))
    {
      Found(table, RelAsked(keys, joins), cond, c);
      BalancedIsLed(keys, joins, cond, c);
    }
  }

  lemma BalancedIsLed(keys: seq<seq<Value>>, joins: seq<JoinRow>, cond: Child -> bool, c: Child)
    requires BalancedRow(keys, joins, cond, c) && cond(c) && SameAsOne(c.key, RelAsked(keys, joins))
    ensures LedTo(SelectRows(joins, Asked(keys)), Asked(keys), StringKey(c.key))
  {
    hide StringKey;
    hide Asked;
    hide RelAsked;
    hide ByValue;
    hide AllZero;
    hide SameAsOne;
    var a := FoundIsPaired(keys, joins, c);
    AskedFrom(keys);
    var led := ByString(Asked(keys), RelAsked(keys, joins), a, c);
    TallyOnly(joins, led, ByValue(a, c));
    TallyNone(joins, led);
    var row :| row in joins && led(row);
    FoundRow(joins, Asked(keys), row);
  }

  // ----- from the tables to the records

  predicate Keyless(rs: seq<Record>) { forall p <- rs :: AllZero(p.key) }

  lemma AskedIfKeyed(rs: seq<Record>)
    ensures Asked(OwnKeys(rs)) == [] <==> Keyless(rs)
    ensures forall p <- rs :: p.key in OwnKeys(rs)
    ensures forall key <- OwnKeys(rs) :: exists p <- rs :: p.key == key
  {
    hide StringKey;
    hide Asked;
    hide AllZero;
    var keys := OwnKeys(rs);
    AskedFrom(keys);
    forall key | key in keys
      ensures exists p <- rs :: p.key == key
    {
      var i :| 0 <= i < |keys| && keys[i] == key;
      assert rs[i] in rs && rs[i].key == key;
    }
    forall p | p in rs
      ensures p.key in keys && (!AllZero(p.key) ==> Asked(keys) != [])
    {
      var i :| 0 <= i < |rs| && rs[i] == p;
      assert keys[i] == p.key;
      if !AllZero(p.key) {
        AskedCovers(keys, p.key);
      }
    }
    if Asked(keys) != [] {
      var a := Asked(keys)[0];
      assert a in Asked(keys);
      var i :| 0 <= i < |keys| && keys[i] == a;
      assert rs[i] in rs && rs[i].key == a;
    }
  }

  /** Every record holds its rows of the nested-loop join. */
  ghost predicate HoldsJoin(rs: seq<Record>, many: bool, table: seq<Child>, cond: Child -> bool)
    reads rs
  {
    forall p <- rs :: Holds(many, NestedLoop(table, cond, p.key), p.assoc)
  }

  ghost predicate HoldsThrough(rs: seq<Record>, many: bool, joins: seq<JoinRow>, table: seq<Child>, cond: Child -> bool)
    reads rs
  {
    forall p <- rs :: Holds(many, NestedThrough(table, joins, cond, p.key), p.assoc)
  }

  lemma OwnKeysPlain(rs: seq<Record>)
    requires forall p <- rs :: PlainKey(p.key)
    ensures forall key <- OwnKeys(rs) :: PlainKey(key)
  {
    hide PlainKey;
    AskedIfKeyed(rs);
  }

  lemma HeldMany()
    ensures forall s :: Held(true, s) == s
  {
  }

  /** Preloading from a table fails exactly if some row that is found is spelled like none of the keys asked for.
      It does not fail and leaves each record with the nested-loop join if every row has its own string; for a
      field of many rows, only then. When no record has a key each keeps what it held. */
  method PreloadTable(rs: seq<Record>, many: bool, table: seq<Child>, cond: Child -> bool) returns (ok: bool)
    modifies rs
    ensures Keyless(rs) ==> ok && forall p <- rs :: p.assoc == old(p.assoc)
    ensures !Keyless(rs) ==> (ok <==> AllAtHome(OwnKeys(rs), table, cond))
    ensures !Keyless(rs) && (forall c <- table :: OwnString(OwnKeys(rs), cond, c)) ==>
              ok && HoldsJoin(rs, many, table, cond)
    ensures !Keyless(rs) && many && ok && HoldsJoin(rs, many, table, cond) ==>
              forall c <- table :: OwnString(OwnKeys(rs), cond, c)
    ensures !Keyless(rs) && (forall p <- rs :: PlainKey(p.key)) && (forall c <- table :: ForeignKey(c.key)) ==>
              ok && HoldsJoin(rs, many, table, cond)
  {
    hide StringKey;
    hide Asked;
    hide OwnString;
    hide Keyless;
    hide DirectMatches;
    hide NestedLoop;
    hide HasString;
    hide OwnKeys;
    hide PlainKey;
    hide ForeignKey;
    hide Held;
    hide Holds;
    AskedIfKeyed(rs);
    if (forall p <- rs :: PlainKey(p.key)) && (forall c <- table :: ForeignKey(c.key)) {
      OwnKeysPlain(rs);
      forall c | c in table
        ensures OwnString(OwnKeys(rs), cond, c)
      {
        IdsHaveOwnStrings(OwnKeys(rs), cond, c);
      }
    }
    if forall c <- table :: OwnString(OwnKeys(rs), cond, c) {
      JoinIsAtHome(OwnKeys(rs), table, cond);
    }
    ok := Preload(rs, many, keys => Select(table, keys, cond));
    DirectIsJoin(OwnKeys(rs), table, cond);
    forall p | p in rs
      ensures Holds(many, NestedLoop(table, cond, p.key), p.assoc)
              <==> p.assoc == Held(many, NestedLoop(table, cond, p.key))
    {
      HeldHolds(many, NestedLoop(table, cond, p.key), p.assoc);
    }
    HeldMany();
  }

  lemma {:induction false} NothingReached(table: seq<Child>, cond: Child -> bool)
    ensures Select(table, [], cond) == []
  {
    if table != [] {
      NothingReached(table[..|table| - 1], cond);
    }
  }

  /** The same through a join table. */
  method PreloadThroughTable(rs: seq<Record>, many: bool, joins: seq<JoinRow>, table: seq<Child>, cond: Child -> bool)
    returns (ok: bool)
    modifies rs
    ensures Keyless(rs) ==> ok && forall p <- rs :: p.assoc == old(p.assoc)
    ensures !Keyless(rs) ==> (ok <==> AllLed(OwnKeys(rs), joins, table, cond))
    ensures !Keyless(rs) && (forall c <- table :: BalancedRow(OwnKeys(rs), joins, cond, c)) ==>
              ok && HoldsThrough(rs, many, joins, table, cond)
    ensures !Keyless(rs) && many && ok && HoldsThrough(rs, many, joins, table, cond) ==>
              forall c <- table :: BalancedRow(OwnKeys(rs), joins, cond, c)
    ensures !Keyless(rs) && (forall p <- rs :: PlainKey(p.key)) && (forall c <- table :: PlainKey(c.key))
            && (forall row <- joins :: ForeignKey(row.own) && PlainKey(row.rel)) ==>
              ok && HoldsThrough(rs, many, joins, table, cond)
  {
    hide StringKey;
    hide Asked;
    hide BalancedRow;
    hide Keyless;
    hide ThroughMatches;
    hide NestedThrough;
    hide HasString;
    hide LedTo;
    hide OwnKeys;
    hide RelKeys;
    hide SelectRows;
    hide PlainKey;
    hide ForeignKey;
    hide Held;
    hide Holds;
    AskedIfKeyed(rs);
    NothingReached(table, cond);
    if (forall p <- rs :: PlainKey(p.key)) && (forall c <- table :: PlainKey(c.key))
       && (forall row <- joins :: ForeignKey(row.own) && PlainKey(row.rel)) {
      OwnKeysPlain(rs);
      forall c | c in table
        ensures BalancedRow(OwnKeys(rs), joins, cond, c)
      {
        IdsAreBalanced(OwnKeys(rs), joins, cond, c);
      }
    }
    if forall c <- table :: BalancedRow(OwnKeys(rs), joins, cond, c) {
      JoinIsLed(OwnKeys(rs), joins, table, cond);
    }
    ok := PreloadThrough(rs, many, keys => SelectRows(joins, keys), keys => Select(table, keys, cond));
    ThroughIsJoin(OwnKeys(rs), joins, table, cond);
    forall p | p in rs
      ensures Holds(many, NestedThrough(table, joins, cond, p.key), p.assoc)
              <==> p.assoc == Held(many, NestedThrough(table, joins, cond, p.key))
    {
      HeldHolds(many, NestedThrough(table, joins, cond, p.key), p.assoc);
    }
    HeldMany();
  }
}
