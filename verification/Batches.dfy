/** Reading a table in batches, by key, within the limit and offset of the query. */
module Batches {
  import opened Options

  // ----- LIMIT clauses

  /** Limit: None is not set; offset: 0 is not set, and a negative one takes back an earlier one. */
  datatype Limit = Limit(limit: Option<int>, offset: int)

  /** A limit clause set after an earlier one. */
  function Merged(earlier: Option<Limit>, l: Limit): Limit {
    match earlier
    case None => l
    case Some(v) =>
      Limit(if (l.limit.None? || l.limit.value == 0) && v.limit.Some? then v.limit else l.limit,
            if l.offset == 0 && v.offset > 0 then v.offset else if l.offset < 0 then 0 else l.offset)
  }

  /** A limit or an offset that is set later wins, one that is left out or 0 keeps the earlier, and a negative
      offset takes it back. */
  lemma LaterWins(v: Limit, l: Limit)
    ensures
      var m := Merged(Some(v), l);
      && (l.limit.Some? && l.limit.value != 0 ==> m.limit == l.limit)
      && (l.limit.None? || l.limit.value == 0 ==> m.limit == if v.limit == None then l.limit else v.limit)
      && (l.offset > 0 ==> m.offset == l.offset) && (l.offset < 0 ==> m.offset == 0)
      && (l.offset == 0 && v.offset >= 0 ==> m.offset == v.offset)
  {
  }

  /** The clause entry of a statement. */
  class Clause {
    var name: string
    var expression: Option<Limit>

    constructor (expression: Option<Limit>)
      ensures this.expression == expression
    {
      this.name, this.expression := "LIMIT", expression;
    }

    method Merge(l: Limit)
      modifies this
      ensures expression == Some(Merged(old(expression), l)) && name == ""
    {
      name := "";
      var limit, offset := l.limit, l.offset;
      if expression.Some? {
        var v := expression.value;
        if (limit.None? || limit.value == 0) && v.limit.Some? {
          limit := v.limit;
        }
        if offset == 0 && v.offset > 0 {
          offset := v.offset;
        } else if offset < 0 {
          offset := 0;
        }
      }
      expression := Some(Limit(limit, offset));
    }
  }

  /** The rows that the SQL written for the clause selects: a negative limit is not written, and an
      offset only if it is positive. */
  function Window(s: seq<int>, l: Option<Limit>): seq<int> {
    match l
    case None => s
    case Some(Limit(limit, offset)) =>
      var rest := Drop(s, offset);
      if limit.Some? && limit.value >= 0 then Take(rest, limit.value) else rest
  }

  function Drop(s: seq<int>, n: int): seq<int> {
    if n <= 0 then s else if n <= |s| then s[n..] else []
  }

  function Take(s: seq<int>, n: nat): seq<int> { if n <= |s| then s[..n] else s }

  // ----- the table

  datatype Row = Row(key: int, matches: bool)

  ghost predicate Ascending(rows: seq<Row>) {
    forall i, j :: 0 <= i < j < |rows| ==> rows[i].key < rows[j].key
  }

  /** A query: its own conditions, the key to start after, its limit clause; ordered by key. */
  datatype Query = Query(after: Option<int>, limit: Option<Limit>)

  function Keys(rows: seq<Row>, after: Option<int>): seq<int> {
    if rows == [] then []
    else
      var row := rows[0];
      (if row.matches && (after.Some? ==> row.key > after.value) then [row.key] else []) + Keys(rows[1..], after)
  }

  function Find(rows: seq<Row>, q: Query): seq<int> { Window(Keys(rows, q.after), q.limit) }

  ghost predicate Rising(s: seq<int>) { forall i, j :: 0 <= i < j < |s| ==> s[i] < s[j] }

  lemma {:induction false} KeysAbove(rows: seq<Row>, after: Option<int>, bound: int)
    requires forall row <- rows :: row.key > bound
    ensures forall k <- Keys(rows, after) :: k > bound
  {
    if rows != [] {
      KeysAbove(rows[1..], after, bound);
    }
  }

  lemma {:induction false} KeysRise(rows: seq<Row>, after: Option<int>)
    requires Ascending(rows)
    ensures Rising(Keys(rows, after))
  {
    if rows != [] {
      KeysRise(rows[1..], after);
      KeysAbove(rows[1..], after, rows[0].key);
      var r, rest := Keys(rows, after), Keys(rows[1..], after);
      forall i, j | 0 <= i < j < |r|
        ensures r[i] < r[j]
      {
        assert r != rest ==> r[j] == rest[j - 1] && rest[j - 1] in rest;
      }
    }
  }

  /** What a query finds: the keys of the rows that match, behind the one it starts after. */
  lemma {:induction false} KeysAre(rows: seq<Row>, after: Option<int>, k: int)
    ensures k in Keys(rows, after) <==>
            (after.Some? ==> k > after.value) && exists row <- rows :: row.matches && row.key == k
  {
    if rows != [] {
      KeysAre(rows[1..], after, k);
      assert rows == [rows[0]] + rows[1..];
    }
  }

  /** Starting after a key that the query finds leaves what comes behind it. */
  lemma {:induction false} KeysAfter(rows: seq<Row>, i: nat)
    requires Ascending(rows) && i < |Keys(rows, None)|
    ensures Keys(rows, Some(Keys(rows, None)[i])) == Keys(rows, None)[i + 1..]
  {
    var all, rest := Keys(rows, None), rows[1..];
    var k := all[i];
    if !rows[0].matches {
      KeysAfter(rest, i);
    } else {
      assert all == [rows[0].key] + Keys(rest, None);
      if i == 0 {
        NothingDropped(rest, k);
        assert all[1..] == Keys(rest, None);
      } else {
        KeysRise(rows, None);
        assert all[0] < all[i];
        KeysAfter(rest, i - 1);
        assert all[i + 1..] == Keys(rest, None)[i..];
      }
    }
  }

  lemma {:induction false} NothingDropped(rows: seq<Row>, k: int)
    requires forall row <- rows :: row.key > k
    ensures Keys(rows, Some(k)) == Keys(rows, None)
  {
    if rows != [] {
      NothingDropped(rows[1..], k);
    }
  }

  // ----- batches

  /** The rows to be visited: those behind the offset, up to the limit; a limit of 0 counts as none. */
  function Wanted(all: seq<int>, user: Option<Limit>): seq<int> {
    var rest := Drop(all, UserOffset(user));
    if TotalSize(user) > 0 then Take(rest, TotalSize(user)) else rest
  }

  function UserOffset(user: Option<Limit>): int { if user.Some? then user.value.offset else 0 }

  function TotalSize(user: Option<Limit>): int {
    if user.Some? && user.value.limit.Some? then user.value.limit.value else 0
  }

  /** Which those are. */
  lemma WantedIs(all: seq<int>, limit: Option<int>, offset: nat)
    ensures
      var wanted := Wanted(all, Some(Limit(limit, offset)));
      if offset >= |all| then wanted == []
      else if limit.Some? && 0 < limit.value <= |all| - offset then wanted == all[offset..offset + limit.value]
      else wanted == all[offset..]
    ensures Wanted(all, None) == all
  {
  }

  /** The batches together are what the query would have found at once, except that a limit of 0 is
      not kept to: then everything behind the offset is visited. */
  lemma WantedIsWindow(all: seq<int>, user: Option<Limit>)
    ensures Wanted(all, user) == Window(all, user)
            <==> !(user.Some? && user.value.limit == Some(0) && |all| > user.value.offset && |all| > 0)
  {
  }

  function Flatten(chunks: seq<seq<int>>): seq<int> {
    if chunks == [] then [] else Flatten(chunks[..|chunks| - 1]) + chunks[|chunks| - 1]
  }

  datatype Error = NoError | CallbackFailed | KeyRequired

  /** The limit that a batch asks for, on top of the user's clause; `first`: with the user's offset. */
  function BatchQuery(user: Option<Limit>, after: Option<int>, size: nat): Query {
    var base := if user.Some? && after.Some? then Some(Merged(user, Limit(None, -1))) else user;
    Query(after, Some(Merged(base, Limit(Some(size), 0))))
  }

  /** The clauses of a batch, one merged into the other. */
  method SetLimit(user: Option<Limit>, after: Option<int>, size: nat) returns (q: Query)
    ensures q == BatchQuery(user, after, size)
  {
    var c := new Clause(user);
    if user.Some? && after.Some? {
      c.Merge(Limit(None, -1));
    }
    c.Merge(Limit(Some(size), 0));
    q := Query(after, c.expression);
  }

  lemma BatchFinds(rows: seq<Row>, user: Option<Limit>, after: Option<int>, size: nat)
    requires size > 0
    ensures Find(rows, BatchQuery(user, after, size))
            == Take(if after.None? then Drop(Keys(rows, None), UserOffset(user)) else Keys(rows, after), size)
  {
  }

  /** Where the n-th row to be visited stands. */
  lemma RestAfter(rows: seq<Row>, user: Option<Limit>, n: nat)
    requires Ascending(rows) && 0 < n <= |Drop(Keys(rows, None), UserOffset(user))|
    ensures
      var rest := Drop(Keys(rows, None), UserOffset(user));
      Keys(rows, Some(rest[n - 1])) == rest[n..]
  {
    var off := if UserOffset(user) <= 0 then 0 else UserOffset(user);
    KeysAfter(rows, off + n - 1);
  }

  lemma Quotient(total: nat, size: nat, batch: nat)
    requires size > 0 && batch * size < total
    ensures batch <= total / size
    ensures total / size == batch ==> batch * size + total % size == total
    ensures total / size > batch ==> batch * size + size <= total
  {
    var q, r := total / size, total % size;
    assert total == q * size + r;
    assert (q - batch + 1) * size == q * size - batch * size + size;
    PositiveFactor(q - batch + 1, size);
    if q > batch {
      assert (q - batch - 1) * size == q * size - batch * size - size;
      assert (q - batch - 1) * size >= 0;
    }
  }

  lemma PositiveFactor(a: int, size: nat)
    requires a * size > 0
    ensures a > 0
  {
  }

  /** How the size of a batch stands to what is left: `full` until the last part of a total, which is
      cut down to the rest. n: the rows that have been visited. */
  ghost predicate Sized(total: int, full: nat, size: nat, n: nat, batch: nat) {
    && 0 < size <= full
    && (total > 0 ==> n + size <= total)
    && ((size == full && n == batch * full) || (size < full && n + size == total))
  }

  function NextSize(total: nat, size: nat, batch: nat): nat
    requires size > 0
  {
    if total / size == batch then total % size else size
  }

  lemma StartsSized(total: int, batchSize: nat, full: nat)
    requires batchSize > 0 && full == if 0 < total < batchSize then total else batchSize
    ensures Sized(total, full, full, 0, 0) && (total > 0 ==> full <= total)
  {
  }

  lemma StaysSized(total: int, full: nat, size: nat, n: nat, batch: nat)
    requires Sized(total, full, size, n, batch) && (total > 0 ==> n + size < total)
    ensures total <= 0 ==> Sized(total, full, size, n + size, batch + 1)
    ensures total > 0 ==>
              var next := NextSize(total, size, batch + 1);
              0 < next <= full && n + size + next <= total && Sized(total, full, next, n + size, batch + 1)
    ensures size == full
  {
    assert n + size == (batch + 1) * size;
    if total > 0 {
      Quotient(total, size, batch + 1);
    }
  }

  ghost predicate Passed(fails: nat -> bool, n: nat) { forall b :: 1 <= b <= n ==> !fails(b) }

  ghost predicate AllOfSize(chunks: seq<seq<int>>, size: nat) { forall c <- chunks :: |c| == size }

  /** The batches so far are the first n rows. */
  ghost predicate Handed(chunks: seq<seq<int>>, rest: seq<int>, n: nat) {
    n <= |rest| && Flatten(chunks) == rest[..n]
  }

  lemma HandNone(rest: seq<int>)
    ensures Handed([], rest, 0)
  {
  }

  lemma HandNext(chunks: seq<seq<int>>, rest: seq<int>, n: nat, size: nat)
    requires Handed(chunks, rest, n) && n < |rest|
    ensures
      var c := Take(rest[n..], size);
      Handed(chunks + [c], rest, n + |c|)
  {
  }

  /** What a batch finds, given the key it starts after. */
  lemma BatchIsNext(rows: seq<Row>, user: Option<Limit>, after: Option<int>, size: nat, n: nat)
    requires Ascending(rows) && size > 0
    requires n <= |Drop(Keys(rows, None), UserOffset(user))|
    requires after == if n == 0 then None else Some(Drop(Keys(rows, None), UserOffset(user))[n - 1])
    ensures
      var rest, r := Drop(Keys(rows, None), UserOffset(user)), Find(rows, BatchQuery(user, after, size));
      && r == Take(rest[n..], size)
      && |r| <= size && n + |r| <= |rest| && (|r| < size ==> n + |r| == |rest|)
      && (r != [] ==> r[|r| - 1] == rest[n + |r| - 1])
  {
    var rest := Drop(Keys(rows, None), UserOffset(user));
    BatchFinds(rows, user, after, size);
    if n > 0 {
      RestAfter(rows, user, n);
    }
    assert rest[0..] == rest;
  }

  lemma WantedFrom(all: seq<int>, user: Option<Limit>)
    ensures
      var rest, total := Drop(all, UserOffset(user)), TotalSize(user);
      Wanted(all, user) == if 0 < total <= |rest| then rest[..total] else rest
  {
  }

  /** The size of the next batch: the rest, where only a part of a total is left. */
  method CutSize(totalSize: int, size: nat, batch: nat) returns (next: nat)
    requires size > 0
    ensures next == if totalSize > 0 then NextSize(totalSize, size, batch) else size
  {
    next := size;
    if totalSize > 0 && totalSize / size == batch {
      next := totalSize % size;
    }
  }

  /** Every row the query is to visit is handed to the callback once, in key order, in batches that are
      full except perhaps the last, until a callback fails or a batch ends in a row with a zero key. */
  method FindInBatches(rows: seq<Row>, user: Option<Limit>, batchSize: nat, fails: nat -> bool)
    returns (chunks: seq<seq<int>>, rowsAffected: nat, error: Error)
    requires Ascending(rows) && batchSize > 0
    ensures Flatten(chunks) <= Wanted(Keys(rows, None), user) && rowsAffected == |Flatten(chunks)|
    ensures forall c <- chunks :: 0 < |c| <= batchSize
    ensures forall i :: 0 <= i < |chunks| - 1 ==> |chunks[i]| == batchSize
    ensures forall b :: 1 <= b < |chunks| ==> !fails(b)
    ensures error == NoError ==> Flatten(chunks) == Wanted(Keys(rows, None), user)
    ensures error == CallbackFailed <==> chunks != [] && fails(|chunks|)
    ensures error == KeyRequired <==>
              && chunks != [] && !fails(|chunks|) && |chunks[|chunks| - 1]| == batchSize
              && (TotalSize(user) > 0 ==> rowsAffected < TotalSize(user))
              && rowsAffected > 0 && Flatten(chunks)[rowsAffected - 1] == 0
  {
    hide Keys;
    hide Drop;
    hide Find;
    hide BatchQuery;
    hide Flatten;
    hide Sized;
    hide Take;
    hide Wanted;
    hide TotalSize;
    hide UserOffset;
    hide NextSize;
    ghost var rest := Drop(Keys(rows, None), UserOffset(user));
    var totalSize := TotalSize(user);
    var size: nat := batchSize;
    if totalSize > 0 && size > totalSize {
      size := totalSize;
    }
    ghost var full := size;
    var after: Option<int> := None;
    var batch := 0;
    chunks, rowsAffected, error := [], 0, NoError;
    HandNone(rest);
    StartsSized(totalSize, batchSize, full);
    while true
      invariant 0 < size <= full <= batchSize && Sized(totalSize, full, size, rowsAffected, batch)
      invariant totalSize > 0 ==> rowsAffected + size <= totalSize
      invariant full < batchSize ==> full == totalSize && rowsAffected == 0
      invariant batch == |chunks| && AllOfSize(chunks, full) && Handed(chunks, rest, rowsAffected)
      invariant after == if rowsAffected == 0 then None else Some(rest[rowsAffected - 1])
      invariant rowsAffected == 0 <==> batch == 0
      invariant rowsAffected > 0 ==> rest[rowsAffected - 1] != 0
      invariant Passed(fails, batch) && error == NoError
      decreases |rest| - rowsAffected
    {
      BatchIsNext(rows, user, after, size, rowsAffected);
      var q := SetLimit(user, after, size);
      var result := Find(rows, q);
      ghost var before := rowsAffected;
      rowsAffected := rowsAffected + |result|;
      batch := batch + 1;
      if |result| != 0 {
        HandNext(chunks, rest, before, size);
        chunks := chunks + [result];
        if fails(batch) {
          error := CallbackFailed;
        }
      }
      if error != NoError || |result| < size { break; }
      if totalSize > 0 && totalSize <= rowsAffected { break; }
      StaysSized(totalSize, full, size, before, batch - 1);
      size := CutSize(totalSize, size, batch);
      var primaryValue := result[|result| - 1];
      if primaryValue == 0 {
        error := KeyRequired;
        break;
      }
      after := Some(primaryValue);
    }
    assert error != CallbackFailed ==> Passed(fails, |chunks|);
    WantedFrom(Keys(rows, None), user);
  }
}
