/** Loading the associations of many records with one query, and handing the rows found to the records
    they belong to through a map by string key. */
module Preloads {
  import opened StringKeys

  /** A row of the associated table, with the columns that point back. */
  datatype Child = Child(id: int, key: seq<Value>)

  /** A row of a join table. */
  datatype JoinRow = JoinRow(own: seq<Value>, rel: seq<Value>)

  /** A record that associations are loaded for. The same record can occur more than once in a list. */
  class Record {
    const key: seq<Value>
    var assoc: seq<Child>

    constructor (key: seq<Value>)
      ensures this.key == key && assoc == []
    {
      this.key := key;
      assoc := [];
    }
  }

  // ----- which keys are asked for

  ghost predicate HasString(keys: seq<seq<Value>>, s: string) { exists k <- keys :: StringKey(k) == s }

  /** The keys to ask for: of those that are not all zero, the first with each string. */
  ghost function Asked(keys: seq<seq<Value>>): seq<seq<Value>> {
    if keys == [] then [] else AskedAlso(Asked(keys[..|keys| - 1]), keys[|keys| - 1])
  }

  ghost function AskedAlso(before: seq<seq<Value>>, k: seq<Value>): seq<seq<Value>> {
    if AllZero(k) || HasString(before, StringKey(k)) then before else before + [k]
  }

  lemma {:induction false} AskedFrom(keys: seq<seq<Value>>)
    ensures forall a <- Asked(keys) :: a in keys && !AllZero(a)
  {
    hide AllZero;
    hide HasString;
    if keys != [] {
      var front, k := keys[..|keys| - 1], keys[|keys| - 1];
      AskedFrom(front);
      assert keys == front + [k];
    }
  }

  lemma {:induction false} AskedCovers(keys: seq<seq<Value>>, k: seq<Value>)
    requires k in keys && !AllZero(k)
    ensures HasString(Asked(keys), StringKey(k))
  {
    hide AllZero;
    hide StringKey;
    var front, last := keys[..|keys| - 1], keys[|keys| - 1];
    assert keys == front + [last];
    if k == last {
      assert Asked(keys) == Asked(front) + [k] ==> Asked(keys)[|Asked(front)|] == k;
    } else {
      AskedCovers(front, k);
      var b :| b in Asked(front) && StringKey(b) == StringKey(k);
      assert b in Asked(keys);
    }
  }

  /** No two of the keys asked for have the same string. */
  lemma {:induction false} AskedOnce(keys: seq<seq<Value>>, i: nat, j: nat)
    requires i < j < |Asked(keys)|
    ensures StringKey(Asked(keys)[i]) != StringKey(Asked(keys)[j])
  {
    hide StringKey;
    hide AllZero;
    var before := Asked(keys[..|keys| - 1]);
    assert before <= Asked(keys);
    if j < |before| {
      AskedOnce(keys[..|keys| - 1], i, j);
    } else {
      assert before[i] in before;
    }
  }

  function Keys<T>(elems: seq<T>, fields: T -> seq<Value>): (r: seq<seq<Value>>)
    ensures |r| == |elems|
  {
    seq(|elems|, i requires 0 <= i < |elems| => fields(elems[i]))
  }

  lemma KeysAdd<T>(elems: seq<T>, fields: T -> seq<Value>, n: nat)
    requires n < |elems|
    ensures Keys(elems[..n + 1], fields) == Keys(elems[..n], fields) + [fields(elems[n])]
    ensures Asked(Keys(elems[..n + 1], fields)) == AskedAlso(Asked(Keys(elems[..n], fields)), fields(elems[n]))
  {
  }

  predicate NoRepeats<T(==)>(s: seq<T>) { forall i, j :: 0 <= i < j < |s| ==> s[i] != s[j] }

  /** The elements with a key that is not all zero, each once, by the string of the key. */
  ghost predicate Indexes<T>(data: map<string, seq<T>>, elems: seq<T>, fields: T -> seq<Value>) {
    && (forall k <- data :: data[k] != [] && NoRepeats(data[k]))
    && (forall k <- data :: forall e <- data[k] :: e in elems && Belongs(fields(e), k))
    && (forall e <- elems :: !AllZero(fields(e)) ==>
          StringKey(fields(e)) in data && e in data[StringKey(fields(e))])
  }

  /** A key that is looked up by k. */
  predicate Belongs(key: seq<Value>, k: string) { !AllZero(key) && StringKey(key) == k }

  function Looked<T>(data: map<string, seq<T>>, k: string): seq<T> { if k in data then data[k] else [] }

  lemma EmptyIndex<T>(elems: seq<T>, fields: T -> seq<Value>)
    ensures Indexes(map[], elems[..0], fields) && Asked(Keys(elems[..0], fields)) == []
  {
  }

  lemma LoadedIndexed<T>(data: map<string, seq<T>>, elems: seq<T>, fields: T -> seq<Value>, e: T)
    requires Indexes(data, elems, fields) && e in elems
    ensures AllZero(fields(e)) || StringKey(fields(e)) in data
  {
  }

  lemma SameIndex<T>(data: map<string, seq<T>>, elems: seq<T>, fields: T -> seq<Value>, e: T)
    requires Indexes(data, elems, fields) && (e in elems || AllZero(fields(e)))
    ensures Indexes(data, elems + [e], fields)
  {
  }

  lemma WiderIndex<T>(data: map<string, seq<T>>, elems: seq<T>, fields: T -> seq<Value>, e: T)
    requires Indexes(data, elems, fields) && e !in elems && !AllZero(fields(e))
    ensures
      var k := StringKey(fields(e));
      Indexes(data[k := Looked(data, k) + [e]], elems + [e], fields)
  {
  }

  lemma IndexIsAsked<T>(data: map<string, seq<T>>, elems: seq<T>, fields: T -> seq<Value>, s: string)
    requires Indexes(data, elems, fields)
    ensures s in data <==> HasString(Asked(Keys(elems, fields)), s)
  {
    hide AllZero;
    hide StringKey;
    var keys := Keys(elems, fields);
    AskedFrom(keys);
    if HasString(Asked(keys), s) {
      var a :| a in Asked(keys) && StringKey(a) == s;
      var i :| 0 <= i < |elems| && keys[i] == a;
      assert elems[i] in elems;
    }
    if s in data {
      var e := data[s][0];
      assert e in data[s];
      var i :| 0 <= i < |elems| && elems[i] == e;
      assert keys[i] == fields(e);
      AskedCovers(keys, fields(e));
    }
  }

  /** The elements of a list by the string of their keys, and the keys to ask for. */
  method GetIdentityFieldValuesMap<T(==)>(elems: seq<T>, fields: T -> seq<Value>)
    returns (data: map<string, seq<T>>, results: seq<seq<Value>>)
    ensures Indexes(data, elems, fields)
    ensures results == Asked(Keys(elems, fields))
  {
    hide AllZero;
    hide StringKey;
    hide HasString;
    hide Asked;
    hide Indexes;
    var loaded: set<T> := {};
    data, results := map[], [];
    EmptyIndex(elems, fields);
    var i := 0;
    while i < |elems|
      invariant i <= |elems|
      invariant forall e :: e in loaded <==> e in elems[..i]
      invariant Indexes(data, elems[..i], fields)
      invariant results == Asked(Keys(elems[..i], fields))
    {
      var elem := elems[i];
      assert elems[..i + 1] == elems[..i] + [elem];
      KeysAdd(elems, fields, i);
      IndexIsAsked(data, elems[..i], fields, StringKey(fields(elem)));
      if elem in loaded {
        SameIndex(data, elems[..i], fields, elem);
        LoadedIndexed(data, elems[..i], fields, elem);
      } else {
        loaded := loaded + {elem};
        var fieldValues := fields(elem);
        if !AllZero(fieldValues) {
          var dataKey := ToStringKey(fieldValues);
          WiderIndex(data, elems[..i], fields, elem);
          if dataKey !in data {
            assert Looked(data, dataKey) + [elem] == [elem];
            results := results + [fieldValues];
            data := data[dataKey := [elem]];
          } else {
            data := data[dataKey := data[dataKey] + [elem]];
          }
        } else {
          SameIndex(data, elems[..i], fields, elem);
        }
      }
      i := i + 1;
    }
    assert elems[..|elems|] == elems;
  }

  // ----- handing the rows found to the records

  type Links = map<string, seq<Record>>

  function Count(rs: seq<Record>, p: Record): nat {
    if rs == [] then 0 else Count(rs[..|rs| - 1], p) + if rs[|rs| - 1] == p then 1 else 0
  }

  function Repeat(c: Child, n: nat): seq<Child> { if n == 0 then [] else Repeat(c, n - 1) + [c] }

  /** What a record is handed: each row found, once for each time the row's key links to the record. */
  function Given(fetched: seq<Child>, links: Links, p: Record): seq<Child> {
    if fetched == [] then []
    else
      var c := fetched[|fetched| - 1];
      Given(fetched[..|fetched| - 1], links, p) + Repeat(c, Count(Looked(links, StringKey(c.key)), p))
  }

  /** A field for many rows holds all of them, a field for one row the last. */
  function Held(many: bool, s: seq<Child>): seq<Child> {
    if many || s == [] then s else [s[|s| - 1]]
  }

  /** What a field holds of the rows that belong to its record: all of them in their order, or the last one, if
      there is one. */
  ghost predicate Holds(many: bool, rows: seq<Child>, held: seq<Child>) {
    if many then held == rows else |held| <= 1 && |held| <= |rows| && (rows != [] ==> held == rows[|rows| - 1..])
  }

  lemma HeldHolds(many: bool, rows: seq<Child>, held: seq<Child>)
    ensures Holds(many, rows, held) <==> held == Held(many, rows)
  {
  }

  function Put(many: bool, held: seq<Child>, c: Child): seq<Child> { if many then held + [c] else [c] }

  function PutTimes(many: bool, held: seq<Child>, c: Child, n: nat): seq<Child> {
    if n == 0 then held else Put(many, PutTimes(many, held, c, n - 1), c)
  }

  lemma {:induction false} HeldPut(many: bool, s: seq<Child>, c: Child, n: nat)
    ensures PutTimes(many, Held(many, s), c, n) == Held(many, s + Repeat(c, n))
  {
    if n == 0 {
      assert s + [] == s;
    } else {
      HeldPut(many, s, c, n - 1);
      assert s + Repeat(c, n) == s + Repeat(c, n - 1) + [c];
    }
  }

  lemma GivenAdd(fetched: seq<Child>, links: Links, p: Record, n: nat)
    requires n < |fetched|
    ensures Given(fetched[..n + 1], links, p)
            == Given(fetched[..n], links, p)
               + Repeat(fetched[n], Count(Looked(links, StringKey(fetched[n].key)), p))
  {
    assert fetched[..n + 1][..n] == fetched[..n];
  }

  /** Handing out one more row. */
  lemma GivenHeld(fetched: seq<Child>, links: Links, p: Record, n: nat, many: bool)
    requires n < |fetched|
    ensures
      var c := fetched[n];
      PutTimes(many, Held(many, Given(fetched[..n], links, p)), c, Count(Looked(links, StringKey(c.key)), p))
      == Held(many, Given(fetched[..n + 1], links, p))
  {
    GivenAdd(fetched, links, p, n);
    HeldPut(many, Given(fetched[..n], links, p), fetched[n], Count(Looked(links, StringKey(fetched[n].key)), p));
  }

  lemma CountAdd(rs: seq<Record>, n: nat, p: Record)
    requires n < |rs|
    ensures Count(rs[..n + 1], p) == Count(rs[..n], p) + if rs[n] == p then 1 else 0
  {
    assert rs[..n + 1][..n] == rs[..n];
  }

  ghost predicate LinksInto(links: Links, rs: seq<Record>) { forall k <- links :: forall p <- links[k] :: p in rs }

  method Clear(rs: seq<Record>)
    modifies rs
    ensures forall p <- rs :: p.assoc == []
  {
    var i := 0;
    while i < |rs|
      invariant i <= |rs|
      invariant forall p <- rs[..i] :: p.assoc == []
    {
      rs[i].assoc := [];
      i := i + 1;
    }
  }

  /** One row, handed to all the records it links to. */
  method Hand(c: Child, datas: seq<Record>, many: bool, rs: seq<Record>)
    requires forall p <- datas :: p in rs
    modifies rs
    ensures forall p <- rs :: p.assoc == PutTimes(many, old(p.assoc), c, Count(datas, p))
  {
    var j := 0;
    while j < |datas|
      invariant j <= |datas|
      invariant forall p <- rs :: p.assoc == PutTimes(many, old(p.assoc), c, Count(datas[..j], p))
    {
      var data := datas[j];
      assert data in datas;
      forall p | p in rs
        ensures Count(datas[..j + 1], p) == Count(datas[..j], p) + if data == p then 1 else 0
      {
        CountAdd(datas, j, p);
      }
      data.assoc := if many then data.assoc + [c] else [c];
      j := j + 1;
    }
    assert datas[..|datas|] == datas;
  }

  lemma NothingGiven(many: bool)
    ensures Held(many, []) == []
    ensures forall links, p :: Given([], links, p) == []
  {
  }

  /** All the rows found. A row that links to no record is an error. */
  method Assign(fetched: seq<Child>, links: Links, many: bool, rs: seq<Record>) returns (ok: bool)
    requires LinksInto(links, rs)
    modifies rs
    ensures ok <==> forall c <- fetched :: StringKey(c.key) in links
    ensures ok ==> forall p <- rs :: p.assoc == Held(many, Given(fetched, links, p))
  {
    hide StringKey;
    hide Count;
    hide Given;
    hide Held;
    hide PutTimes;
    NothingGiven(many);
    Clear(rs);
    var i := 0;
    ok := true;
    while i < |fetched|
      invariant i <= |fetched|
      invariant forall c <- fetched[..i] :: StringKey(c.key) in links
      invariant forall p <- rs :: p.assoc == Held(many, Given(fetched[..i], links, p))
    {
      var elem := fetched[i];
      var key := ToStringKey(elem.key);
      if key !in links { return false; }
      forall p | p in rs
        ensures PutTimes(many, p.assoc, elem, Count(links[key], p)) == Held(many, Given(fetched[..i + 1], links, p))
      {
        GivenHeld(fetched, links, p, i, many);
      }
      Hand(elem, links[key], many, rs);
      i := i + 1;
    }
    assert fetched[..|fetched|] == fetched;
  }

  // ----- one to one, one to many, many to one

  function OwnKeys(rs: seq<Record>): seq<seq<Value>> { Keys(rs, (r: Record) => r.key) }

  /** The rows found whose string key is that of the given key, unless that is all zero. */
  function DirectMatches(fetched: seq<Child>, key: seq<Value>): seq<Child> {
    if fetched == [] then []
    else
      var c := fetched[|fetched| - 1];
      DirectMatches(fetched[..|fetched| - 1], key) + if Belongs(key, StringKey(c.key)) then [c] else []
  }

  lemma {:induction false} CountNone(s: seq<Record>, p: Record)
    requires p !in s
    ensures Count(s, p) == 0
  {
    if s != [] {
      CountNone(s[..|s| - 1], p);
    }
  }

  lemma {:induction false} CountOnce(s: seq<Record>, p: Record)
    requires NoRepeats(s)
    ensures Count(s, p) == if p in s then 1 else 0
  {
    if s != [] {
      var front := s[..|s| - 1];
      assert s == front + [s[|s| - 1]];
      if s[|s| - 1] == p {
        CountNone(front, p);
      } else {
        CountOnce(front, p);
      }
    }
  }

  lemma IndexCount(links: Links, rs: seq<Record>, k: string, p: Record)
    requires Indexes(links, rs, (r: Record) => r.key) && p in rs
    ensures Count(Looked(links, k), p) == if Belongs(p.key, k) then 1 else 0
  {
    hide StringKey;
    hide AllZero;
    CountOnce(Looked(links, k), p);
    if k in links && p in links[k] {
      assert Belongs(((r: Record) => r.key)(p), k);
    }
  }

  lemma {:induction false} GivenDirect(fetched: seq<Child>, links: Links, rs: seq<Record>, p: Record)
    requires Indexes(links, rs, (r: Record) => r.key) && p in rs
    ensures Given(fetched, links, p) == DirectMatches(fetched, p.key)
  {
    hide StringKey;
    hide Indexes;
    hide Count;
    if fetched != [] {
      var c := fetched[|fetched| - 1];
      GivenDirect(fetched[..|fetched| - 1], links, rs, p);
      IndexCount(links, rs, StringKey(c.key), p);
      assert Repeat(c, 1) == Repeat(c, 0) + [c] == [c];
    }
  }

  lemma IndexLinksInto(links: Links, rs: seq<Record>)
    requires Indexes(links, rs, (r: Record) => r.key)
    ensures LinksInto(links, rs)
  {
  }

  /** Loads the associated rows with one query for the keys asked for, and hands each row to the records
      with its string key. When no record has a key, nothing is touched, not even what they held before. */
  method Preload(rs: seq<Record>, many: bool, find: seq<seq<Value>> -> seq<Child>) returns (ok: bool)
    modifies rs
    ensures Asked(OwnKeys(rs)) == [] ==> ok && forall p <- rs :: p.assoc == old(p.assoc)
    ensures Asked(OwnKeys(rs)) != [] ==>
              var asked := Asked(OwnKeys(rs));
              && (ok <==> forall c <- find(asked) :: HasString(asked, StringKey(c.key)))
              && (ok ==> forall p <- rs :: p.assoc == Held(many, DirectMatches(find(asked), p.key)))
  {
    hide StringKey;
    hide Asked;
    hide HasString;
    hide Indexes;
    hide LinksInto;
    var fields := (r: Record) => r.key;
    var identityMap, foreignValues := GetIdentityFieldValuesMap(rs, fields);
    assert foreignValues == Asked(OwnKeys(rs));
    if |foreignValues| == 0 { return true; }
    var fetched := find(foreignValues);
    IndexLinksInto(identityMap, rs);
    ok := Assign(fetched, identityMap, many, rs);
    forall s
      ensures s in identityMap <==> HasString(foreignValues, s)
    {
      IndexIsAsked(identityMap, rs, fields, s);
    }
    forall p | p in rs
      ensures Given(fetched, identityMap, p) == DirectMatches(fetched, p.key)
    {
      GivenDirect(fetched, identityMap, rs, p);
    }
  }

  // ----- many to many

  /** How often k is linked to a record that the index leads to from the join rows. */
  function RowLinks(rows: seq<JoinRow>, index: Links, k: string, p: Record): nat {
    if rows == [] then 0
    else
      var row := rows[|rows| - 1];
      RowLinks(rows[..|rows| - 1], index, k, p)
      + if StringKey(row.rel) == k then Count(Looked(index, StringKey(row.own)), p) else 0
  }

  ghost predicate RowFor(rows: seq<JoinRow>, index: Links, k: string) {
    exists row <- rows :: StringKey(row.own) in index && StringKey(row.rel) == k
  }

  lemma {:induction false} CountConcat(a: seq<Record>, b: seq<Record>, p: Record)
    ensures Count(a + b, p) == Count(a, p) + Count(b, p)
  {
    if b == [] {
      assert a + b == a;
    } else {
      assert (a + b)[..|a + b| - 1] == a + b[..|b| - 1];
      CountConcat(a, b[..|b| - 1], p);
    }
  }

  lemma RowLinksAdd(rows: seq<JoinRow>, n: nat, index: Links, k: string, p: Record)
    requires n < |rows|
    ensures RowLinks(rows[..n + 1], index, k, p)
            == RowLinks(rows[..n], index, k, p)
               + if StringKey(rows[n].rel) == k then Count(Looked(index, StringKey(rows[n].own)), p) else 0
  {
    assert rows[..n + 1][..n] == rows[..n];
  }

  lemma RowForAdd(rows: seq<JoinRow>, n: nat, index: Links, k: string)
    requires n < |rows|
    ensures RowFor(rows[..n + 1], index, k)
            <==> RowFor(rows[..n], index, k) || (StringKey(rows[n].own) in index && StringKey(rows[n].rel) == k)
  {
  }

  /** Turns the records by their own keys into the records by the keys of the associated rows. */
  method Relink(rows: seq<JoinRow>, index: Links, rs: seq<Record>) returns (links: Links)
    requires LinksInto(index, rs)
    ensures LinksInto(links, rs)
    ensures forall k :: k in links <==> RowFor(rows, index, k)
    ensures forall k, p <- rs :: Count(Looked(links, k), p) == RowLinks(rows, index, k, p)
  {
    hide StringKey;
    hide RowFor;
    links := map[];
    var i := 0;
    assert forall k :: !RowFor(rows[..0], index, k) by { NoRows(index); }
    while i < |rows|
      invariant i <= |rows|
      invariant LinksInto(links, rs)
      invariant forall k :: k in links <==> RowFor(rows[..i], index, k)
      invariant forall k, p <- rs :: Count(Looked(links, k), p) == RowLinks(rows[..i], index, k, p)
    {
      var own := ToStringKey(rows[i].own);
      ghost var before := links;
      var joinKey := ToStringKey(rows[i].rel);
      if own in index {
        links := links[joinKey := Looked(links, joinKey) + index[own]];
      }
      forall k
        ensures k in links <==> RowFor(rows[..i + 1], index, k)
      {
        RowForAdd(rows, i, index, k);
      }
      forall k, p | p in rs
        ensures Count(Looked(links, k), p) == RowLinks(rows[..i + 1], index, k, p)
      {
        RowLinksAdd(rows, i, index, k, p);
        CountConcat(Looked(before, k), Looked(index, own), p);
      }
      i := i + 1;
    }
    assert rows[..|rows|] == rows;
  }

  lemma NoRows(index: Links)
    ensures forall k :: !RowFor([], index, k)
  {
  }

  /** How many join rows lead from a key to k, by their strings. */
  function RowCount(rows: seq<JoinRow>, key: seq<Value>, k: string): nat {
    if rows == [] then 0
    else
      var row := rows[|rows| - 1];
      RowCount(rows[..|rows| - 1], key, k)
      + if StringKey(row.rel) == k && Belongs(key, StringKey(row.own)) then 1 else 0
  }

  /** The rows found, each once for every join row that leads to it from the given key. */
  function ThroughMatches(fetched: seq<Child>, rows: seq<JoinRow>, key: seq<Value>): seq<Child> {
    if fetched == [] then []
    else
      var c := fetched[|fetched| - 1];
      ThroughMatches(fetched[..|fetched| - 1], rows, key) + Repeat(c, RowCount(rows, key, StringKey(c.key)))
  }

  lemma {:induction false} RowLinksCount(rows: seq<JoinRow>, index: Links, rs: seq<Record>, k: string, p: Record)
    requires Indexes(index, rs, (r: Record) => r.key) && p in rs
    ensures RowLinks(rows, index, k, p) == RowCount(rows, p.key, k)
  {
    hide StringKey;
    hide Indexes;
    hide Count;
    if rows != [] {
      RowLinksCount(rows[..|rows| - 1], index, rs, k, p);
      IndexCount(index, rs, StringKey(rows[|rows| - 1].own), p);
    }
  }

  lemma {:induction false} GivenThrough(fetched: seq<Child>, links: Links, rows: seq<JoinRow>, p: Record)
    requires forall k :: Count(Looked(links, k), p) == RowCount(rows, p.key, k)
    ensures Given(fetched, links, p) == ThroughMatches(fetched, rows, p.key)
  {
    hide StringKey;
    hide RowCount;
    hide Count;
    if fetched != [] {
      GivenThrough(fetched[..|fetched| - 1], links, rows, p);
    }
  }

  function RelKeys(rows: seq<JoinRow>): seq<seq<Value>> { Keys(rows, (r: JoinRow) => r.rel) }

  /** The rows found for the keys that the join rows lead to; nothing is looked for if there are none. */
  ghost function Reached(rows: seq<JoinRow>, find: seq<seq<Value>> -> seq<Child>): seq<Child> {
    if Asked(RelKeys(rows)) == [] then [] else find(Asked(RelKeys(rows)))
  }

  /** Whether a join row leads to k from one of the keys asked for. */
  ghost predicate LedTo(rows: seq<JoinRow>, asked: seq<seq<Value>>, k: string) {
    exists row <- rows :: HasString(asked, StringKey(row.own)) && StringKey(row.rel) == k
  }

  /** Loads the join rows for the keys of the records, then the associated rows those lead to. */
  method PreloadThrough(rs: seq<Record>, many: bool, findRows: seq<seq<Value>> -> seq<JoinRow>,
                        find: seq<seq<Value>> -> seq<Child>)
    returns (ok: bool)
    modifies rs
    ensures Asked(OwnKeys(rs)) == [] ==> ok && forall p <- rs :: p.assoc == old(p.assoc)
    ensures Asked(OwnKeys(rs)) != [] ==>
              var rows := findRows(Asked(OwnKeys(rs)));
              && (ok <==> forall c <- Reached(rows, find) :: LedTo(rows, Asked(OwnKeys(rs)), StringKey(c.key)))
              && (ok ==> forall p <- rs :: p.assoc == Held(many, ThroughMatches(Reached(rows, find), rows, p.key)))
  {
    hide StringKey;
    hide Asked;
    hide HasString;
    hide Indexes;
    hide LinksInto;
    hide RowFor;
    hide LedTo;
    hide RowCount;
    hide RowLinks;
    hide Count;
    var fields := (r: Record) => r.key;
    var joinIdentityMap, joinForeignValues := GetIdentityFieldValuesMap(rs, fields);
    assert joinForeignValues == Asked(OwnKeys(rs));
    if |joinForeignValues| == 0 { return true; }
    var joinResults := findRows(joinForeignValues);
    IndexLinksInto(joinIdentityMap, rs);
    var identityMap := Relink(joinResults, joinIdentityMap, rs);
    var _, foreignValues := GetIdentityFieldValuesMap(joinResults, (r: JoinRow) => r.rel);
    assert foreignValues == Asked(RelKeys(joinResults));
    var fetched: seq<Child> := [];
    if |foreignValues| != 0 {
      fetched := find(foreignValues);
    }
    ok := Assign(fetched, identityMap, many, rs);
    forall s
      ensures s in identityMap <==> LedTo(joinResults, joinForeignValues, s)
    {
      RowForLedTo(joinResults, joinIdentityMap, rs, s);
    }
    forall p | p in rs
      ensures Given(fetched, identityMap, p) == ThroughMatches(fetched, joinResults, p.key)
    {
      forall k
        ensures Count(Looked(identityMap, k), p) == RowCount(joinResults, p.key, k)
      {
        RowLinksCount(joinResults, joinIdentityMap, rs, k, p);
      }
      GivenThrough(fetched, identityMap, joinResults, p);
    }
  }

  lemma RowForLedTo(rows: seq<JoinRow>, index: Links, rs: seq<Record>, s: string)
    requires Indexes(index, rs, (r: Record) => r.key)
    ensures RowFor(rows, index, s) <==> LedTo(rows, Asked(OwnKeys(rs)), s)
  {
    hide StringKey;
    hide Asked;
    hide HasString;
    hide Indexes;
    forall row | row in rows
      ensures StringKey(row.own) in index <==> HasString(Asked(OwnKeys(rs)), StringKey(row.own))
    {
      IndexIsAsked(index, rs, (r: Record) => r.key, StringKey(row.own));
    }
  }
}
