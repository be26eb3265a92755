/** Reading in batches with a filter whose parts are joined by OR: the condition on the key is joined to the
    last part alone, so what the other parts find comes back. */
module EitherBatches {
  import opened Batches
  import opened Options

  /** A row by the parts of a filter `first OR last`. */
  datatype EitherRow = EitherRow(key: int, first: bool, last: bool)

  ghost predicate InOrder(rows: seq<EitherRow>) {
    forall i, j :: 0 <= i < j < |rows| ==> rows[i].key < rows[j].key
  }

  predicate Hit(row: EitherRow, after: Option<int>) {
    row.first || (row.last && (after.Some? ==> row.key > after.value))
  }

  /** What a query after a key finds. */
  function EitherKeys(rows: seq<EitherRow>, after: Option<int>): seq<int> {
    if rows == [] then []
    else (if Hit(rows[0], after) then [rows[0].key] else []) + EitherKeys(rows[1..], after)
  }

  lemma {:induction false} EitherKeysAre(rows: seq<EitherRow>, after: Option<int>, k: int)
    ensures k in EitherKeys(rows, after) <==>
            exists row <- rows :: row.key == k && (row.first || (row.last && (after.Some? ==> k > after.value)))
  {
    if rows != [] {
      EitherKeysAre(rows[1..], after, k);
      assert rows == [rows[0]] + rows[1..];
    }
  }

  // ----- the loop

  /** The batches handed over, and whether reading has come to its end in the given number of rounds. */
  datatype Reading = Reading(chunks: seq<seq<int>>, ended: bool)

  /** What the next batch asks for; a total that is not positive is none. */
  function SizeNow(n: nat, total: int, handed: nat): nat
    requires total > 0 ==> handed < total
  {
    if total > 0 && total - handed < n then total - handed else n
  }

  function Read(rows: seq<EitherRow>, n: nat, total: int, after: Option<int>, handed: nat, rounds: nat): Reading
    requires n > 0 && (total > 0 ==> handed < total)
    decreases rounds
  {
    if rounds == 0 then Reading([], false)
    else
      var size := SizeNow(n, total, handed);
      var chunk := Take(EitherKeys(rows, after), size);
      var head := if chunk == [] then [] else [chunk];
      if |chunk| < size || 0 < total <= handed + |chunk| then Reading(head, true)
      else
        var r := Read(rows, n, total, Some(chunk[|chunk| - 1]), handed + |chunk|, rounds - 1);
        Reading(head + r.chunks, r.ended)
  }

  lemma SizedIsNow(total: int, batchSize: nat, full: nat, size: nat, handed: nat, batch: nat)
    requires Sized(total, full, size, handed, batch) && full == if 0 < total < batchSize then total else batchSize
    ensures total > 0 ==> handed < total
    ensures size == SizeNow(batchSize, total, handed)
  {
    if batch > 0 {
      AtLeastOnce(batch, full);
    }
  }

  lemma AtLeastOnce(batch: nat, full: nat)
    requires batch > 0
    ensures batch * full >= full
  {
    assert batch * full == (batch - 1) * full + full;
  }

  /** The loop, for at most so many rounds. */
  method FindEither(rows: seq<EitherRow>, totalSize: int, batchSize: nat, rounds: nat)
    returns (chunks: seq<seq<int>>, ended: bool)
    requires batchSize > 0 && forall row <- rows :: row.key != 0
    ensures Reading(chunks, ended) == Read(rows, batchSize, totalSize, None, 0, rounds)
  {
    hide EitherKeys;
    hide Sized;
    hide Take;
    ghost var goal := Read(rows, batchSize, totalSize, None, 0, rounds);
    var size: nat := batchSize;
    if totalSize > 0 && size > totalSize {
      size := totalSize;
    }
    ghost var full := size;
    StartsSized(totalSize, batchSize, full);
    var after: Option<int> := None;
    var batch: nat, rowsAffected: nat := 0, 0;
    chunks, ended := [], false;
    while batch < rounds
      invariant batch <= rounds && 0 < size <= full && Sized(totalSize, full, size, rowsAffected, batch)
      invariant totalSize > 0 ==> rowsAffected + size <= totalSize
      invariant !ended
      invariant
        var r := Read(rows, batchSize, totalSize, after, rowsAffected, rounds - batch);
        goal == Reading(chunks + r.chunks, r.ended)
    {
      SizedIsNow(totalSize, batchSize, full, size, rowsAffected, batch);
      var result := Take(EitherKeys(rows, after), size);
      TakeSize(EitherKeys(rows, after), size);
      ghost var before, sofar := rowsAffected, chunks;
      ghost var r := Read(rows, batchSize, totalSize, after, before, rounds - batch);
      rowsAffected := rowsAffected + |result|;
      batch := batch + 1;
      if |result| != 0 {
        chunks := chunks + [result];
      }
      if |result| < size {
        ended := true;
        break;
      }
      if totalSize > 0 {
        if totalSize <= rowsAffected {
          ended := true;
          break;
        }
        StaysSized(totalSize, full, size, before, batch - 1);
        if totalSize / size == batch {
          size := totalSize % size;
        }
      } else {
        StaysSized(totalSize, full, size, before, batch - 1);
      }
      after := Some(result[|result| - 1]);
      assert sofar + ([result] + Read(rows, batchSize, totalSize, after, rowsAffected, rounds - batch).chunks)
          == chunks + Read(rows, batchSize, totalSize, after, rowsAffected, rounds - batch).chunks;
    }
  }

  lemma TakeSize(s: seq<int>, n: nat)
    ensures |Take(s, n)| == if n <= |s| then n else |s|
  {
  }

  // ----- what comes back

  /** No row that the first part finds stands among the first m that are found. */
  ghost predicate FirstsBehind(rows: seq<EitherRow>, m: nat)
    requires m <= |EitherKeys(rows, None)|
  {
    forall row <- rows :: row.first ==> row.key !in EitherKeys(rows, None)[..m]
  }

  lemma {:induction false} KeysAbove(rows: seq<EitherRow>, after: Option<int>, bound: int)
    requires forall row <- rows :: row.key > bound
    ensures forall k <- EitherKeys(rows, after) :: k > bound
  {
    if rows != [] {
      KeysAbove(rows[1..], after, bound);
    }
  }

  lemma {:induction false} EitherRises(rows: seq<EitherRow>, after: Option<int>)
    requires InOrder(rows)
    ensures Rising(EitherKeys(rows, after))
  {
    if rows != [] {
      var rest, r := EitherKeys(rows[1..], after), EitherKeys(rows, after);
      EitherRises(rows[1..], after);
      KeysAbove(rows[1..], after, rows[0].key);
      forall i, j | 0 <= i < j < |r|
        ensures r[i] < r[j]
      {
        assert r != rest ==> r[j] == rest[j - 1] && rest[j - 1] in rest;
      }
    }
  }

  lemma {:induction false} NothingDropped(rows: seq<EitherRow>, k: int)
    requires forall row <- rows :: row.key > k
    ensures EitherKeys(rows, Some(k)) == EitherKeys(rows, None)
  {
    if rows != [] {
      NothingDropped(rows[1..], k);
    }
  }

  lemma FirstsBehindTail(rows: seq<EitherRow>, m: nat)
    requires rows != [] && InOrder(rows) && m <= |EitherKeys(rows, None)| && FirstsBehind(rows, m)
    requires Hit(rows[0], None) ==> m > 0
    ensures
      var rest := rows[1..];
      var m' := if Hit(rows[0], None) then m - 1 else m;
      m' <= |EitherKeys(rest, None)| && FirstsBehind(rest, m')
  {
    var found, rest := EitherKeys(rows, None), EitherKeys(rows[1..], None);
    var m' := if Hit(rows[0], None) then m - 1 else m;
    assert found == (if Hit(rows[0], None) then [rows[0].key] else []) + rest;
    assert found[..m] == (if Hit(rows[0], None) then [rows[0].key] else []) + rest[..m'];
    forall row | row in rows[1..] && row.first
      ensures row.key !in rest[..m']
    {
      assert row in rows;
      assert row.key !in found[..m];
    }
  }

  /** After the h-th row the rest is found, if none of the first h comes back. */
  lemma {:induction false} EitherAfter(rows: seq<EitherRow>, h: nat)
    requires InOrder(rows) && 0 < h <= |EitherKeys(rows, None)| && FirstsBehind(rows, h)
    ensures EitherKeys(rows, Some(EitherKeys(rows, None)[h - 1])) == EitherKeys(rows, None)[h..]
  {
    var found, rest := EitherKeys(rows, None), EitherKeys(rows[1..], None);
    var k := found[h - 1];
    FirstsBehindTail(rows, h);
    EitherRises(rows, None);
    if Hit(rows[0], None) {
      assert found == [rows[0].key] + rest;
      assert rows[0].key == found[..h][0];
      assert !rows[0].first && rows[0].key <= k;
      if h == 1 {
        NothingDropped(rows[1..], k);
        assert found[1..] == rest;
      } else {
        EitherAfter(rows[1..], h - 1);
        assert found[h..] == rest[h - 1..];
      }
    } else {
      EitherAfter(rows[1..], h);
    }
  }

  /** Whatever row of the first part stands up to the key is found again. */
  lemma {:induction false} ComesBack(rows: seq<EitherRow>, row: EitherRow, k: int)
    requires InOrder(rows) && row in rows && row.first && row.key <= k
    ensures EitherKeys(rows, Some(k)) != [] && EitherKeys(rows, Some(k))[0] <= k
  {
    if row != rows[0] {
      ComesBack(rows[1..], row, k);
    }
  }

  // ----- exactly when every row is handed over once

  /** The rows that are to be handed over. */
  function Target(found: seq<int>, total: int): seq<int> { if total > 0 then Take(found, total) else found }

  /** From the h-th row on, how many batches are followed by another query if none comes back. */
  function Turns(count: nat, n: nat, total: int, h: nat): nat
    requires n > 0
    decreases count - h
  {
    if h + n <= count && (total > 0 ==> h + n < total) then 1 + Turns(count, n, total, h + n) else 0
  }

  /** The same for the whole. */
  function FullTurns(count: nat, n: nat, total: int): nat
    requires n > 0
  {
    if 0 < total && (total - 1) / n < count / n then (total - 1) / n else count / n
  }

  /** j multiples of n fit below a bound exactly if j is no more than the quotient. */
  lemma Fits(j: nat, n: nat, bound: nat)
    requires n > 0
    ensures j * n <= bound <==> j <= bound / n
  {
    var q := bound / n;
    assert bound == q * n + bound % n;
    if j <= q {
      assert q * n == j * n + (q - j) * n;
    } else {
      assert j * n == (q + 1) * n + (j - q - 1) * n;
    }
  }

  lemma {:induction false} TurnsFrom(count: nat, n: nat, total: int, j: nat)
    requires n > 0 && j <= FullTurns(count, n, total)
    ensures j + Turns(count, n, total, j * n) == FullTurns(count, n, total)
    decreases FullTurns(count, n, total) - j
  {
    assert (j + 1) * n == j * n + n;
    Fits(j + 1, n, count);
    if total > 0 {
      Fits(j + 1, n, total - 1);
    }
    if j < FullTurns(count, n, total) {
      TurnsFrom(count, n, total, j + 1);
    }
  }

  /** What has been handed over when the last query is made. */
  function BeforeLast(count: nat, n: nat, total: int, h: nat): (m: nat)
    requires n > 0 && h <= count
    ensures h <= m <= count && m == h + Turns(count, n, total, h) * n
    decreases count - h
  {
    if h + n <= count && (total > 0 ==> h + n < total)
    then
      assert (1 + Turns(count, n, total, h + n)) * n == n + Turns(count, n, total, h + n) * n;
      BeforeLast(count, n, total, h + n)
    else h
  }

  lemma NextBeforeLast(count: nat, n: nat, total: int, h: nat)
    requires n > 0 && h + n <= count && (total > 0 ==> h + n < total)
    ensures BeforeLast(count, n, total, h) == BeforeLast(count, n, total, h + n) >= h + n
    ensures Turns(count, n, total, h) == 1 + Turns(count, n, total, h + n)
  {
  }

  lemma AtLast(count: nat, n: nat, total: int, h: nat)
    requires n > 0 && h <= count && !(h + n <= count && (total > 0 ==> h + n < total))
    ensures BeforeLast(count, n, total, h) == h
  {
  }

  lemma {:induction false} FlattenFirst(c: seq<int>, cs: seq<seq<int>>)
    ensures Flatten([c] + cs) == c + Flatten(cs)
  {
    if cs == [] {
      assert ([c] + cs)[..0] == [];
    } else {
      var front, last := cs[..|cs| - 1], cs[|cs| - 1];
      FlattenFirst(c, front);
      assert ([c] + cs)[..|cs|] == [c] + front && ([c] + cs)[|cs|] == last;
      assert c + (Flatten(front) + last) == (c + Flatten(front)) + last;
    }
  }

  /** One round that finds this: it is the last, or the rest follows its batch. */
  lemma Round(rows: seq<EitherRow>, keys: seq<int>, n: nat, total: int, after: Option<int>, handed: nat, rounds: nat)
    requires n > 0 && (total > 0 ==> handed < total) && rounds > 0 && EitherKeys(rows, after) == keys
    ensures
      var r, size := Read(rows, n, total, after, handed, rounds), SizeNow(n, total, handed);
      if |keys| < size || 0 < total <= handed + size then r.ended && Flatten(r.chunks) == Take(keys, size)
      else
        var next := Read(rows, n, total, Some(keys[size - 1]), handed + size, rounds - 1);
        r.ended == next.ended && Flatten(r.chunks) == keys[..size] + Flatten(next.chunks)
  {
    hide EitherKeys;
    hide Flatten;
    var size := SizeNow(n, total, handed);
    var chunk := Take(keys, size);
    FlattenNone();
    FlattenOne(chunk);
    if !(|keys| < size || 0 < total <= handed + size) {
      FlattenFirst(chunk, Read(rows, n, total, Some(keys[size - 1]), handed + size, rounds - 1).chunks);
    }
  }

  lemma FlattenNone()
    ensures Flatten([]) == []
  {
  }

  lemma FlattenOne(c: seq<int>)
    ensures Flatten([c]) == c
  {
    assert [c][..0] == [];
  }

  /** What is read begins with what the first query finds. */
  lemma ReadBegins(rows: seq<EitherRow>, n: nat, total: int, after: Option<int>, handed: nat, rounds: nat)
    requires n > 0 && (total > 0 ==> handed < total) && rounds > 0 && EitherKeys(rows, after) != []
    ensures
      var all := Flatten(Read(rows, n, total, after, handed, rounds).chunks);
      all != [] && all[0] == EitherKeys(rows, after)[0]
  {
    hide EitherKeys;
    hide Flatten;
    hide Read;
    Round(rows, EitherKeys(rows, after), n, total, after, handed, rounds);
  }

  lemma FewerBehind(rows: seq<EitherRow>, m: nat, m': nat)
    requires m <= m' <= |EitherKeys(rows, None)| && FirstsBehind(rows, m')
    ensures FirstsBehind(rows, m)
  {
    var found := EitherKeys(rows, None);
    forall row | row in rows && row.first
      ensures row.key !in found[..m]
    {
      assert forall k <- found[..m] :: k in found[..m'];
    }
  }

  /** If one of the first m comes back, what is read after the m-th is not the rest. */
  lemma SomethingBack(rows: seq<EitherRow>, n: nat, total: int, m: nat, rounds: nat)
    requires InOrder(rows) && n > 0 && (total > 0 ==> m < total) && rounds > 0
    requires 0 < m <= |EitherKeys(rows, None)| && !FirstsBehind(rows, m)
    ensures
      var found := EitherKeys(rows, None);
      Flatten(Read(rows, n, total, Some(found[m - 1]), m, rounds).chunks) != Target(found, total)[m..]
  {
    var found := EitherKeys(rows, None);
    var k := found[m - 1];
    EitherRises(rows, None);
    var row :| row in rows && row.first && row.key in found[..m];
    var i :| 0 <= i < m && found[..m][i] == row.key;
    assert found[i] <= k;
    ComesBack(rows, row, k);
    ReadBegins(rows, n, total, Some(k), m, rounds);
    assert Target(found, total)[m..] != [] ==> Target(found, total)[m..][0] == found[m] > k;
  }

  /** One round that finds what it should: it hands over what is left and is the last, or hands over a full
      batch and goes on. */
  lemma ReadsOne(rows: seq<EitherRow>, found: seq<int>, n: nat, total: int, after: Option<int>, h: nat, rounds: nat)
    requires n > 0 && (total > 0 ==> h < total) && h <= |found| && rounds > 0
    requires EitherKeys(rows, after) == found[h..]
    ensures h <= |Target(found, total)|
    ensures
      var r := Read(rows, n, total, after, h, rounds);
      if h + n <= |found| && (total > 0 ==> h + n < total)
      then
        var next := Read(rows, n, total, Some(found[h + n - 1]), h + n, rounds - 1);
        && h + n <= |Target(found, total)|
        && Target(found, total)[h..] == found[h..h + n] + Target(found, total)[h + n..]
        && r.ended == next.ended && Flatten(r.chunks) == found[h..h + n] + Flatten(next.chunks)
      else r.ended && Flatten(r.chunks) == Target(found, total)[h..]
  {
    hide EitherKeys;
    hide Flatten;
    hide Read;
    Round(rows, found[h..], n, total, after, h, rounds);
    var size := SizeNow(n, total, h);
    if |found[h..]| < size || 0 < total <= h + size {
      assert Take(found[h..], size) == Target(found, total)[h..];
    } else {
      assert size == n && found[h..][..n] == found[h..h + n];
    }
  }

  lemma ReadsNone(rows: seq<EitherRow>, n: nat, total: int, after: Option<int>, h: nat)
    requires n > 0 && (total > 0 ==> h < total)
    ensures !Read(rows, n, total, after, h, 0).ended
  {
  }

  /** From a row up to which nothing comes back, with the query that starts there: reading comes to its end with
      what is left, exactly if nothing comes back up to its last query either. */
  lemma {:induction false} ReadsFrom(rows: seq<EitherRow>, n: nat, total: int, h: nat, rounds: nat)
    requires InOrder(rows) && n > 0 && (total > 0 ==> h < total)
    requires h <= |EitherKeys(rows, None)| && FirstsBehind(rows, h)
    ensures
      var found := EitherKeys(rows, None);
      var last := BeforeLast(|found|, n, total, h);
      var r := Read(rows, n, total, if h == 0 then None else Some(found[h - 1]), h, rounds);
      && h <= |Target(found, total)|
      && (FirstsBehind(rows, last) && rounds > Turns(|found|, n, total, h)
          ==> r.ended && Flatten(r.chunks) == Target(found, total)[h..])
      && (r.ended && Flatten(r.chunks) == Target(found, total)[h..] ==> FirstsBehind(rows, last))
    decreases rounds
  {
    hide EitherKeys;
    hide InOrder;
    hide FirstsBehind;
    hide Flatten;
    hide Target;
    hide Read;
    hide BeforeLast;
    hide Turns;
    var found := EitherKeys(rows, None);
    var after := if h == 0 then None else Some(found[h - 1]);
    TargetReaches(found, total, h);
    if rounds == 0 {
      ReadsNone(rows, n, total, after, h);
    } else {
      if h > 0 {
        EitherAfter(rows, h);
      }
      assert EitherKeys(rows, after) == found[h..];
      ReadsOne(rows, found, n, total, after, h, rounds);
      if h + n <= |found| && (total > 0 ==> h + n < total) {
        NextBeforeLast(|found|, n, total, h);
        if FirstsBehind(rows, h + n) {
          ReadsFrom(rows, n, total, h + n, rounds - 1);
        } else {
          if FirstsBehind(rows, BeforeLast(|found|, n, total, h)) {
            FewerBehind(rows, h + n, BeforeLast(|found|, n, total, h));
          }
          if rounds > 1 {
            SomethingBack(rows, n, total, h + n, rounds - 1);
          } else {
            ReadsNone(rows, n, total, Some(found[h + n - 1]), h + n);
          }
        }
      } else {
        AtLast(|found|, n, total, h);
      }
    }
  }

  lemma TargetReaches(found: seq<int>, total: int, h: nat)
    requires h <= |found| && (total > 0 ==> h < total)
    ensures h <= |Target(found, total)|
  {
  }

  /** Every row that is found is handed over once, and reading ends, exactly if no row of the first part stands
      among those before the last query. With a total that cuts off, fewer need to be behind. */
  lemma EitherIsRead(rows: seq<EitherRow>, n: nat, total: int, rounds: nat)
    requires InOrder(rows) && n > 0 && rounds > FullTurns(|EitherKeys(rows, None)|, n, total)
    ensures
      var found, r := EitherKeys(rows, None), Read(rows, n, total, None, 0, rounds);
      && FullTurns(|found|, n, total) * n <= |found|
      && (r.ended && Flatten(r.chunks) == Target(found, total)
          <==> FirstsBehind(rows, FullTurns(|found|, n, total) * n))
  {
    hide EitherKeys;
    hide Turns;
    hide FirstsBehind;
    hide FullTurns;
    hide Read;
    hide Flatten;
    hide Target;
    hide InOrder;
    hide BeforeLast;
    var found := EitherKeys(rows, None);
    NoneBefore(rows);
    TurnsFrom(|found|, n, total, 0);
    assert 0 * n == 0;
    ReadsFrom(rows, n, total, 0, rounds);
    assert Target(found, total)[0..] == Target(found, total);
  }

  lemma NoneBefore(rows: seq<EitherRow>)
    ensures FirstsBehind(rows, 0)
  {
  }

  // ----- exactly when reading ends

  function Firsts(rows: seq<EitherRow>): nat {
    if rows == [] then 0 else (if rows[0].first then 1 else 0) + Firsts(rows[1..])
  }

  lemma {:induction false} FirstsFound(rows: seq<EitherRow>, after: Option<int>)
    ensures Firsts(rows) <= |EitherKeys(rows, after)|
  {
    if rows != [] {
      FirstsFound(rows[1..], after);
    }
  }

  /** What is found up to the key belongs to the first part. */
  lemma {:induction false} LowAreFirsts(rows: seq<EitherRow>, k: int, i: nat)
    requires InOrder(rows) && i < |EitherKeys(rows, Some(k))| && EitherKeys(rows, Some(k))[i] <= k
    ensures i < Firsts(rows)
  {
    var r, rest := EitherKeys(rows, Some(k)), EitherKeys(rows[1..], Some(k));
    EitherRises(rows, Some(k));
    if !Hit(rows[0], Some(k)) {
      LowAreFirsts(rows[1..], k, i);
    } else if i > 0 {
      assert r == [rows[0].key] + rest && r[0] < r[i];
      LowAreFirsts(rows[1..], k, i - 1);
    }
  }

  /** The rows behind a key. */
  function Ahead(rows: seq<EitherRow>, after: Option<int>): nat {
    if rows == [] then 0
    else (if after.Some? && rows[0].key <= after.value then 0 else 1) + Ahead(rows[1..], after)
  }

  lemma {:induction false} AheadFalls(rows: seq<EitherRow>, after: Option<int>, i: nat)
    requires i < |EitherKeys(rows, after)| && (after.Some? ==> EitherKeys(rows, after)[i] > after.value)
    ensures Ahead(rows, Some(EitherKeys(rows, after)[i])) < Ahead(rows, after)
  {
    var k := EitherKeys(rows, after)[i];
    if Hit(rows[0], after) && i == 0 {
      AheadNoMore(rows[1..], after, k);
    } else {
      AheadFalls(rows[1..], after, if Hit(rows[0], after) then i - 1 else i);
    }
  }

  lemma {:induction false} AheadNoMore(rows: seq<EitherRow>, after: Option<int>, k: int)
    requires after.Some? ==> k > after.value
    ensures Ahead(rows, Some(k)) <= Ahead(rows, after)
  {
    if rows != [] {
      AheadNoMore(rows[1..], after, k);
    }
  }

  lemma {:induction false} EndsAfterAhead(rows: seq<EitherRow>, n: nat, total: int, after: Option<int>, handed: nat,
                                          rounds: nat)
    requires InOrder(rows) && Firsts(rows) < n && total <= 0 && rounds > Ahead(rows, after)
    ensures Read(rows, n, total, after, handed, rounds).ended
    decreases rounds
  {
    hide EitherKeys;
    hide Ahead;
    hide InOrder;
    var found := EitherKeys(rows, after);
    if |found| >= n {
      if after.Some? && found[n - 1] <= after.value {
        LowAreFirsts(rows, after.value, n - 1);
      }
      AheadFalls(rows, after, n - 1);
      EndsAfterAhead(rows, n, total, Some(found[n - 1]), handed + n, rounds - 1);
    }
  }

  lemma {:induction false} NeverEnds(rows: seq<EitherRow>, n: nat, total: int, after: Option<int>, handed: nat,
                                     rounds: nat)
    requires 0 < n <= Firsts(rows) && total <= 0
    ensures !Read(rows, n, total, after, handed, rounds).ended
    decreases rounds
  {
    hide EitherKeys;
    FirstsFound(rows, after);
    if rounds > 0 {
      NeverEnds(rows, n, total, Some(EitherKeys(rows, after)[n - 1]), handed + n, rounds - 1);
    }
  }

  lemma AheadAll(rows: seq<EitherRow>)
    ensures Ahead(rows, None) == |rows|
  {
  }

  /** Without a total reading ends exactly if the first part finds fewer rows than a batch holds. */
  lemma EndsExactly(rows: seq<EitherRow>, n: nat, total: int)
    requires InOrder(rows) && n > 0 && total <= 0
    ensures (exists rounds: nat :: Read(rows, n, total, None, 0, rounds).ended) <==> Firsts(rows) < n
    ensures Firsts(rows) < n ==> forall rounds: nat :: rounds > |rows| ==> Read(rows, n, total, None, 0, rounds).ended
  {
    hide Read;
    if Firsts(rows) < n {
      AheadAll(rows);
      forall rounds: nat | rounds > |rows|
        ensures Read(rows, n, total, None, 0, rounds).ended
      {
        EndsAfterAhead(rows, n, total, None, 0, rounds);
      }
      assert Read(rows, n, total, None, 0, |rows| + 1).ended;
    } else {
      forall rounds: nat
        ensures !Read(rows, n, total, None, 0, rounds).ended
      {
        NeverEnds(rows, n, total, None, 0, rounds);
      }
    }
  }

  /** With a total reading always ends. */
  lemma {:induction false} TotalEnds(rows: seq<EitherRow>, n: nat, total: nat, after: Option<int>, handed: nat,
                                     rounds: nat)
    requires n > 0 && handed < total && rounds >= total - handed
    ensures Read(rows, n, total, after, handed, rounds).ended
    decreases rounds
  {
    hide EitherKeys;
    var chunk := Take(EitherKeys(rows, after), SizeNow(n, total, handed));
    if |chunk| == SizeNow(n, total, handed) && handed + |chunk| < total {
      TotalEnds(rows, n, total, Some(chunk[|chunk| - 1]), handed + |chunk|, rounds - 1);
    }
  }

  // ----- the same batch again and again

  /** A first batch that the first part finds alone. */
  ghost predicate FoundFirst(rows: seq<EitherRow>, n: nat) {
    n <= |EitherKeys(rows, None)| && forall row <- rows :: row.key in EitherKeys(rows, None)[..n] ==> row.first
  }

  lemma FoundFirstTail(rows: seq<EitherRow>, n: nat)
    requires rows != [] && n > 0 && FoundFirst(rows, n)
    ensures FoundFirst(rows[1..], if Hit(rows[0], None) then n - 1 else n)
    ensures n <= |EitherKeys(rows, None)| && (Hit(rows[0], None) ==> rows[0].first)
  {
    var found, rest := EitherKeys(rows, None), EitherKeys(rows[1..], None);
    var m := if Hit(rows[0], None) then n - 1 else n;
    assert found[..n] == (if Hit(rows[0], None) then [rows[0].key] else []) + rest[..m];
    assert Hit(rows[0], None) ==> rows[0].key == found[..n][0];
    forall row | row in rows[1..] && row.key in rest[..m]
      ensures row.first
    {
      assert row in rows;
      assert row.key in found[..n];
    }
  }

  lemma {:induction false} FoundAgain(rows: seq<EitherRow>, n: nat, k: int)
    requires FoundFirst(rows, n)
    ensures n <= |EitherKeys(rows, Some(k))| && EitherKeys(rows, Some(k))[..n] == EitherKeys(rows, None)[..n]
  {
    if n > 0 {
      hide FoundFirst;
      FoundFirstTail(rows, n);
      var head := if Hit(rows[0], None) then [rows[0].key] else [];
      var m := n - |head|;
      FoundAgain(rows[1..], m, k);
      Prefixed(head, EitherKeys(rows[1..], None), m);
      Prefixed(head, EitherKeys(rows[1..], Some(k)), m);
    }
  }

  lemma Prefixed(head: seq<int>, rest: seq<int>, m: nat)
    requires m <= |rest|
    ensures (head + rest)[..|head| + m] == head + rest[..m]
  {
  }

  /** Then every batch is that one, for ever. */
  lemma {:induction false} OrFilterRepeats(rows: seq<EitherRow>, n: nat, after: Option<int>, handed: nat, rounds: nat)
    requires n > 0 && FoundFirst(rows, n)
    ensures
      var r := Read(rows, n, 0, after, handed, rounds);
      !r.ended && r.chunks == seq(rounds, i => EitherKeys(rows, None)[..n])
    decreases rounds
  {
    hide EitherKeys;
    var batch := EitherKeys(rows, None)[..n];
    if rounds > 0 {
      if after.Some? {
        FoundAgain(rows, n, after.value);
      }
      OrFilterRepeats(rows, n, Some(batch[n - 1]), handed + n, rounds - 1);
      assert [batch] + seq(rounds - 1, i => batch) == seq(rounds, i => batch);
    }
  }

  const ONE_FIRST := [EitherRow(1, true, false), EitherRow(2, false, true), EitherRow(3, false, true)]

  lemma OneFirstFinds()
    ensures InOrder(ONE_FIRST) && EitherKeys(ONE_FIRST, None) == [1, 2, 3] && !FirstsBehind(ONE_FIRST, 2)
    ensures EitherKeys(ONE_FIRST, Some(2)) == [1, 3] && EitherKeys(ONE_FIRST, Some(3)) == [1]
  {
    assert ONE_FIRST[1..] == [ONE_FIRST[1], ONE_FIRST[2]] && ONE_FIRST[1..][1..] == [ONE_FIRST[2]];
    assert ONE_FIRST[0] in ONE_FIRST && EitherKeys(ONE_FIRST, None)[..2][0] == 1;
  }

  /** Rows 1, which the first part finds, 2 and 3: read two at a time the first comes back twice. */
  lemma OneComesBack()
    ensures EitherKeys(ONE_FIRST, None) == [1, 2, 3] && !FirstsBehind(ONE_FIRST, FullTurns(3, 2, 0) * 2)
    ensures Read(ONE_FIRST, 2, 0, None, 0, 3) == Reading([[1, 2], [1, 3], [1]], true)
  {
    hide EitherKeys;
    hide FirstsBehind;
    OneFirstFinds();
    assert Take([1, 2, 3], 2) == [1, 2] && Take([1, 3], 2) == [1, 3];
    assert [[1, 3]] + [[1]] == [[1, 3], [1]] && [[1, 2]] + [[1, 3], [1]] == [[1, 2], [1, 3], [1]];
    assert Read(ONE_FIRST, 2, 0, Some(3), 4, 1) == Reading([[1]], true);
    assert Read(ONE_FIRST, 2, 0, Some(2), 2, 2) == Reading([[1, 3], [1]], true);
  }
}
