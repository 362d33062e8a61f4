/**
 Paged reads refine a single read: the dodb client collects a query or a scan page by
 page (doc-db/src/dodb.rs:197-275); the in-memory backend reads it in one pass over the
 ordered store (doc-db/src/memory.rs:283-325).

 A store is the sequence of its rows in key order. The page a dodb server returns is
 taken to be the first rows of that order after the cursor, up to the page limit.
 */
module Paging {
  import opened DocTypes
  import opened Collections
  import opened TextOrder

  datatype Row = Row(key: Pair, data: Data)

  /** Rows come in strictly increasing key order, as a `BTreeMap` yields them. */
  ghost predicate Ordered(rows: seq<Row>) {
    forall i, j :: 0 <= i < j < |rows| ==> Before(rows[i].key, rows[j].key)
  }

  predicate Before(a: Pair, b: Pair) {
    PairLeq(a, b) && a != b
  }

  /** One partition, or all of them. */
  predicate InScope(row: Row, partition: Option<string>) {
    partition.None? || row.key.0 == partition.value
  }

  predicate Past(row: Row, cursor: Option<Pair>) {
    cursor.None? || !PairLeq(row.key, cursor.value)
  }

  /** All rows of the scope past the cursor. */
  function Remaining(rows: seq<Row>, partition: Option<string>, cursor: Option<Pair>): seq<Row> {
    if rows == [] then []
    else if InScope(rows[0], partition) && Past(rows[0], cursor) then [rows[0]] + Remaining(rows[1..], partition, cursor)
    else Remaining(rows[1..], partition, cursor)
  }

  function Take(rows: seq<Row>, limit: nat): seq<Row> {
    if |rows| <= limit then rows else rows[..limit]
  }

  // ---- The cursor after some rows leaves exactly the other rows -----------------------

  lemma BeforeMeansPast(row: Row, k: Pair)
    requires Before(k, row.key)
    ensures Past(row, Some(k))
  {
    if PairLeq(row.key, k) {
      PairAntisymmetric(row.key, k);
    }
  }

  lemma PastTransitive(row: Row, k: Pair, cursor: Option<Pair>)
    requires Before(k, row.key) && (cursor.None? || !PairLeq(k, cursor.value))
    ensures Past(row, cursor)
  {
    if cursor.Some? && PairLeq(row.key, cursor.value) {
      PairTransitive(k, row.key, cursor.value);
    }
  }

  /** Rows beyond both cursors are the same rows. */
  lemma {:induction false} SameBeyond(rows: seq<Row>, partition: Option<string>, a: Option<Pair>, b: Option<Pair>)
    requires forall i :: 0 <= i < |rows| ==> Past(rows[i], a) && Past(rows[i], b)
    ensures Remaining(rows, partition, a) == Remaining(rows, partition, b)
  {
    if rows != [] {
      SameBeyond(rows[1..], partition, a, b);
    }
  }

  lemma {:induction false} RemainingFrom(rows: seq<Row>, partition: Option<string>, cursor: Option<Pair>, i: nat)
    requires i < |Remaining(rows, partition, cursor)|
    ensures var row := Remaining(rows, partition, cursor)[i];
            row in rows && InScope(row, partition) && Past(row, cursor)
  {
    if InScope(rows[0], partition) && Past(rows[0], cursor) {
      if i > 0 {
        RemainingFrom(rows[1..], partition, cursor, i - 1);
      }
    } else {
      RemainingFrom(rows[1..], partition, cursor, i);
    }
  }

  lemma FirstIsBefore(rows: seq<Row>, row: Row)
    requires Ordered(rows) && rows != [] && row in rows[1..]
    ensures Before(rows[0].key, row.key)
  {
    var i :| 0 <= i < |rows[1..]| && rows[1..][i] == row;
    assert rows[i + 1] == row;
  }

  lemma AdvanceByOne(rows: seq<Row>, partition: Option<string>, cursor: Option<Pair>)
    requires Ordered(rows) && rows != [] && Past(rows[0], cursor)
    ensures Remaining(rows, partition, Some(rows[0].key)) == Remaining(rows[1..], partition, cursor)
  {
    var k, tail := rows[0].key, rows[1..];
    PairTotal(k, k);
    forall i | 0 <= i < |tail| ensures Past(tail[i], cursor) && Past(tail[i], Some(k)) {
      FirstIsBefore(rows, tail[i]);
      BeforeMeansPast(tail[i], k);
      PastTransitive(tail[i], k, cursor);
    }
    SameBeyond(tail, partition, cursor, Some(k));
  }

  lemma SkipsHead(rows: seq<Row>, partition: Option<string>, k: Pair)
    requires rows != [] && PairLeq(rows[0].key, k)
    ensures Remaining(rows, partition, Some(k)) == Remaining(rows[1..], partition, Some(k))
  {
  }

  /** The head of the rows is not beyond any of the remaining ones. */
  lemma HeadIsNotBeyond(rows: seq<Row>, partition: Option<string>, cursor: Option<Pair>, i: nat)
    requires Ordered(rows) && rows != [] && i < |Remaining(rows[1..], partition, cursor)|
    ensures PairLeq(rows[0].key, Remaining(rows[1..], partition, cursor)[i].key)
  {
    RemainingFrom(rows[1..], partition, cursor, i);
    FirstIsBefore(rows, Remaining(rows[1..], partition, cursor)[i]);
  }

  lemma BehindHead(head: Row, rest: seq<Row>, n: nat)
    requires 0 < n <= |rest|
    ensures ([head] + rest)[n] == rest[n - 1] && ([head] + rest)[n + 1..] == rest[n..]
  {
  }

  /** What holds of the rows after the head holds of all, as the head is not beyond any of them. */
  lemma HeadDoesNotMatter(rows: seq<Row>, partition: Option<string>, cursor: Option<Pair>, n: nat)
    requires Ordered(rows) && rows != [] && 0 < n <= |Remaining(rows[1..], partition, cursor)|
    requires var rest := Remaining(rows[1..], partition, cursor);
             Remaining(rows[1..], partition, Some(rest[n - 1].key)) == rest[n..]
    ensures var rest := Remaining(rows[1..], partition, cursor);
            Remaining(rows, partition, Some(rest[n - 1].key)) == rest[n..]
  {
    var rest := Remaining(rows[1..], partition, cursor);
    HeadIsNotBeyond(rows, partition, cursor, n - 1);
    SkipsHead(rows, partition, rest[n - 1].key);
  }

  lemma {:induction false} CursorAdvances(rows: seq<Row>, partition: Option<string>, cursor: Option<Pair>, n: nat)
    requires Ordered(rows) && 0 < n <= |Remaining(rows, partition, cursor)|
    ensures var all := Remaining(rows, partition, cursor);
            Remaining(rows, partition, Some(all[n - 1].key)) == all[n..]
  {
    var rest := Remaining(rows[1..], partition, cursor);
    if !(InScope(rows[0], partition) && Past(rows[0], cursor)) {
      CursorAdvances(rows[1..], partition, cursor, n);
      HeadDoesNotMatter(rows, partition, cursor, n);
    } else if n == 1 {
      AdvanceByOne(rows, partition, cursor);
      assert ([rows[0]] + rest)[1..] == rest;
    } else {
      CursorAdvances(rows[1..], partition, cursor, n - 1);
      HeadDoesNotMatter(rows, partition, cursor, n - 1);
      BehindHead(rows[0], rest, n - 1);
    }
  }

  // ---- Which rows a read returns -----------------------------------------------------------

  /** The row belongs to the requested partition, if there is one, and its key is not at or below the cursor. */
  ghost predicate Wanted(row: Row, partition: Option<string>, cursor: Option<Pair>) {
    && (partition != None ==> row.key.0 == partition.value)
    && (cursor != None ==> !PairLeq(row.key, cursor.value))
  }

  ghost function CountWanted(rows: seq<Row>, partition: Option<string>, cursor: Option<Pair>): nat {
    if rows == [] then 0
    else
      CountWanted(rows[..|rows| - 1], partition, cursor)
      + if Wanted(rows[|rows| - 1], partition, cursor) then 1 else 0
  }

  /**
   `result` is in key order, every row in it is stored, and a stored row is in it
   exactly when it is wanted and fewer than `limit` wanted rows are stored before it.
   */
  ghost predicate FirstWanted(rows: seq<Row>, partition: Option<string>, cursor: Option<Pair>, limit: nat, result: seq<Row>) {
    && Ordered(result)
    && (forall row :: row in result ==> row in rows)
    && forall i :: 0 <= i < |rows| ==> Chosen(rows, i, partition, cursor, limit, result)
  }

  ghost predicate Chosen(rows: seq<Row>, i: nat, partition: Option<string>, cursor: Option<Pair>, limit: nat, result: seq<Row>)
    requires i < |rows|
  {
    rows[i] in result <==> Wanted(rows[i], partition, cursor) && CountWanted(rows[..i], partition, cursor) < limit
  }

  lemma {:induction false} RemainingSnoc(rows: seq<Row>, partition: Option<string>, cursor: Option<Pair>)
    requires rows != []
    ensures var init, last := rows[..|rows| - 1], rows[|rows| - 1];
            Remaining(rows, partition, cursor)
            == Remaining(init, partition, cursor) + if Wanted(last, partition, cursor) then [last] else []
  {
    var n := |rows| - 1;
    if n > 0 {
      RemainingSnoc(rows[1..], partition, cursor);
      assert rows[1..][..n - 1] == rows[..n][1..];
      var more := if Wanted(rows[n], partition, cursor) then [rows[n]] else [];
      Regroup([rows[0]], Remaining(rows[..n][1..], partition, cursor), more);
    }
  }

  lemma {:induction false} RemainingCounts(rows: seq<Row>, partition: Option<string>, cursor: Option<Pair>)
    ensures |Remaining(rows, partition, cursor)| == CountWanted(rows, partition, cursor)
  {
    if rows != [] {
      RemainingSnoc(rows, partition, cursor);
      RemainingCounts(rows[..|rows| - 1], partition, cursor);
    }
  }

  lemma OrderedInit(rows: seq<Row>)
    requires Ordered(rows) && rows != []
    ensures Ordered(rows[..|rows| - 1])
    ensures forall row :: row in rows[..|rows| - 1] ==> Before(row.key, rows[|rows| - 1].key)
  {
  }

  lemma OrderedSnoc(rows: seq<Row>, last: Row)
    requires Ordered(rows) && forall row :: row in rows ==> Before(row.key, last.key)
    ensures Ordered(rows + [last])
  {
  }

  lemma TakeSnoc(rows: seq<Row>, last: Row, limit: nat)
    ensures Take(rows + [last], limit) == if |rows| < limit then Take(rows, limit) + [last] else Take(rows, limit)
  {
  }

  lemma ChosenBefore(rows: seq<Row>, i: nat, partition: Option<string>, cursor: Option<Pair>, limit: nat,
                     before: seq<Row>, result: seq<Row>)
    requires Ordered(rows) && i < |rows| - 1 && Chosen(rows[..|rows| - 1], i, partition, cursor, limit, before)
    requires result == before || result == before + [rows[|rows| - 1]]
    ensures Chosen(rows, i, partition, cursor, limit, result)
  {
    assert rows[..|rows| - 1][..i] == rows[..i];
  }

  lemma LastNotBefore(rows: seq<Row>, before: seq<Row>)
    requires Ordered(rows) && rows != [] && forall row :: row in before ==> row in rows[..|rows| - 1]
    ensures rows[|rows| - 1] !in before
  {
    OrderedInit(rows);
  }

  lemma OneMoreWanted(rows: seq<Row>, partition: Option<string>, cursor: Option<Pair>, limit: nat,
                      before: seq<Row>, result: seq<Row>)
    requires Ordered(rows) && rows != [] && FirstWanted(rows[..|rows| - 1], partition, cursor, limit, before)
    requires var last := rows[|rows| - 1];
             if Wanted(last, partition, cursor) && CountWanted(rows[..|rows| - 1], partition, cursor) < limit
             then result == before + [last] else result == before
    ensures FirstWanted(rows, partition, cursor, limit, result)
  {
    var n := |rows| - 1;
    OrderedInit(rows);
    LastNotBefore(rows, before);
    OrderedSnoc(before, rows[n]);
    forall i | 0 <= i < |rows| ensures Chosen(rows, i, partition, cursor, limit, result) {
      if i < n {
        assert Chosen(rows[..n], i, partition, cursor, limit, before);
        ChosenBefore(rows, i, partition, cursor, limit, before, result);
      }
    }
  }

  /** The first of the remaining rows are the first rows that are wanted. */
  lemma {:induction false} TakesFirstWanted(rows: seq<Row>, partition: Option<string>, cursor: Option<Pair>, limit: nat)
    requires Ordered(rows)
    ensures FirstWanted(rows, partition, cursor, limit, Take(Remaining(rows, partition, cursor), limit))
  {
    if rows == [] {
      return;
    }
    var init := rows[..|rows| - 1];
    TakesFirstWanted(init, partition, cursor, limit);
    RemainingSnoc(rows, partition, cursor);
    RemainingCounts(init, partition, cursor);
    var before := Remaining(init, partition, cursor);
    TakeSnoc(before, rows[|rows| - 1], limit);
    NothingAdded(before, []);
    OneMoreWanted(rows, partition, cursor, limit, Take(before, limit), Take(Remaining(rows, partition, cursor), limit));
  }

  lemma IsFirstWanted(rows: seq<Row>, partition: Option<string>, cursor: Option<Pair>, limit: nat, result: seq<Row>)
    requires result == Take(Remaining(rows, partition, cursor), limit)
    ensures Ordered(rows) ==> FirstWanted(rows, partition, cursor, limit, result)
  {
    if Ordered(rows) {
      TakesFirstWanted(rows, partition, cursor, limit);
    }
  }

  // ---- The two readers ------------------------------------------------------------------

  /** The page the server returns. */
  function Page(rows: seq<Row>, partition: Option<string>, cursor: Option<Pair>, limit: nat): seq<Row> {
    Take(Remaining(rows, partition, cursor), limit)
  }

  /** The rows read so far are the first of all, and the cursor leaves exactly the others. */
  ghost predicate ReadSoFar(rows: seq<Row>, partition: Option<string>, all: seq<Row>, cursor: Option<Pair>, result: seq<Row>) {
    result + Remaining(rows, partition, cursor) == all
  }

  lemma FirstOfAll(all: seq<Row>, result: seq<Row>, page: seq<Row>, rest: seq<Row>)
    requires result + (page + rest) == all && page != []
    ensures (result + page) + rest == all
    ensures 0 < |result + page| <= |all| && all[|result + page| - 1] == page[|page| - 1]
    ensures all[|result + page|..] == rest
  {
    Regroup(result, page, rest);
  }

  /** Reading one page and taking its last key as cursor. */
  lemma PageAdvances(rows: seq<Row>, partition: Option<string>, start: Option<Pair>, cursor: Option<Pair>,
                     result: seq<Row>, page: seq<Row>, rest: seq<Row>)
    requires Ordered(rows) && ReadSoFar(rows, partition, Remaining(rows, partition, start), cursor, result)
    requires page + rest == Remaining(rows, partition, cursor) && page != []
    ensures ReadSoFar(rows, partition, Remaining(rows, partition, start), Some(page[|page| - 1].key), result + page)
  {
    var all := Remaining(rows, partition, start);
    FirstOfAll(all, result, page, rest);
    CursorAdvances(rows, partition, start, |result + page|);
  }

  lemma PageSplits(rows: seq<Row>, limit: nat) returns (rest: seq<Row>)
    ensures Take(rows, limit) + rest == rows
    ensures |Take(rows, limit)| < limit ==> rest == []
  {
    rest := if |rows| <= limit then [] else rows[limit..];
  }

  /** Enough rows were read, or none are left. */
  lemma ReadEnough(all: seq<Row>, result: seq<Row>, rest: seq<Row>, limit: nat)
    requires result + rest == all && |result| <= limit && (|result| == limit || rest == [])
    ensures result == Take(all, limit)
  {
  }

  /**
   The loop of `DodbDatabase::query` and `scan`: ask for the next page after the last
   row, until the limit is reached or a page comes back short.
   */
  method ReadPages(rows: seq<Row>, partition: Option<string>, start: Option<Pair>, limit: nat, maxPage: nat)
    returns (result: seq<Row>)
    requires Ordered(rows) && maxPage >= 1
    ensures result == Take(Remaining(rows, partition, start), limit)
    ensures FirstWanted(rows, partition, start, limit, result)
  {
    TakesFirstWanted(rows, partition, start, limit);
    result := [];
    var cursor := start;
    ghost var all := Remaining(rows, partition, start);
    while |result| < limit
      invariant |result| <= limit && ReadSoFar(rows, partition, all, cursor, result)
      decreases limit - |result|
    {
      var pageLimit := if limit - |result| < maxPage then limit - |result| else maxPage;
      var page := Page(rows, partition, cursor, pageLimit);
      ghost var rest := PageSplits(Remaining(rows, partition, cursor), pageLimit);
      if page == [] {
        ReadEnough(all, result, Remaining(rows, partition, cursor), limit);
        return;
      }
      PageAdvances(rows, partition, start, cursor, result, page, rest);
      result := result + page;
      cursor := Some(page[|page| - 1].key);
      if |page| < pageLimit {
        ReadEnough(all, result, rest, limit);
        return;
      }
    }
    ReadEnough(all, result, Remaining(rows, partition, cursor), limit);
  }

  /**
   The loop of `query_store` and `scan_store`: one pass that stops once the limit is
   reached, tested only after a row was added.
   */
  method ReadOnce(rows: seq<Row>, partition: Option<string>, start: Option<Pair>, limit: nat)
    returns (result: seq<Row>)
    ensures result == Take(Remaining(rows, partition, start), if limit == 0 then 1 else limit)
    ensures Ordered(rows) ==> FirstWanted(rows, partition, start, if limit == 0 then 1 else limit, result)
  {
    result := [];
    ghost var all := Remaining(rows, partition, start);
    ghost var rest := all;
    assert rows[0..] == rows;
    for i := 0 to |rows|
      invariant rest == Remaining(rows[i..], partition, start)
      invariant result + rest == all
      invariant result == [] || |result| < limit
    {
      RemainingStep(rows, i, partition, start);
      rest := Remaining(rows[i + 1..], partition, start);
      Regroup(result, [rows[i]], rest);
      if InScope(rows[i], partition) && Past(rows[i], start) {
        result := result + [rows[i]];
        if |result| >= limit {
          assert all[..|result|] == result;
          IsFirstWanted(rows, partition, start, if limit == 0 then 1 else limit, result);
          return;
        }
      }
    }
    IsFirstWanted(rows, partition, start, if limit == 0 then 1 else limit, result);
  }

  lemma RemainingStep(rows: seq<Row>, i: nat, partition: Option<string>, start: Option<Pair>)
    requires i < |rows|
    ensures var rest := Remaining(rows[i + 1..], partition, start);
            Remaining(rows[i..], partition, start)
            == if InScope(rows[i], partition) && Past(rows[i], start) then [rows[i]] + rest else rest
  {
    assert rows[i..][1..] == rows[i + 1..];
  }

  function QueryStart(pk: string, afterSk: Option<string>): Option<Pair> {
    if afterSk.Some? then Some((pk, afterSk.value)) else None
  }

  /** In a query only sort keys are compared, because the partition is fixed. */
  lemma QueryComparesSortKeys(row: Row, pk: string, afterSk: Option<string>)
    requires InScope(row, Some(pk))
    ensures Past(row, QueryStart(pk, afterSk)) <==> afterSk.None? || !Leq(row.key.1, afterSk.value)
  {
  }

  /**
   For every ordered store, scope, cursor, page size and limit, the paged reader returns
   exactly the rows of the single pass, precisely when the limit is not zero or nothing
   remains to be read: with limit zero the single pass still returns one row.
   */
  lemma PagingAgreesIff(rows: seq<Row>, partition: Option<string>, start: Option<Pair>, limit: nat)
    ensures Take(Remaining(rows, partition, start), limit)
            == Take(Remaining(rows, partition, start), if limit == 0 then 1 else limit)
            <==> limit >= 1 || Remaining(rows, partition, start) == []
  {
    var all := Remaining(rows, partition, start);
    if limit == 0 && all != [] {
      assert |Take(all, 0)| == 0 && |Take(all, 1)| == 1;
    }
  }
}
