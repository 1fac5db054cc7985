/** The operation ledger as functions on its rows: the upsert on (topic, requestId),
    the two retention trims, and their composition, the atomic append. The trims are
    defined as their SQL statements read (delete every row that has 500 or more rows with
    a larger id, globally or within the topic), and then proved equal to dropping the
    oldest rows. */
module Ledger {
  import opened Wrappers
  import opened Schema
  import Js

  const MAX_OPERATION_RECORDS: nat := 500

  /** The operation handed to `appendOperation`; `None` stands for an `undefined`
      result or error. */
  datatype Operation = Operation(
    requestId: int,
    topic: string,
    rpcMethod: string,
    chainId: string,
    params: Js.Value,
    status: OperationStatus,
    timestamp: int,
    result: Option<Js.Value>,
    error: Option<string>)

  /** The table's rows in id order, and the identity generator's next value. */
  datatype Ledger = Ledger(rows: seq<SessionOperation>, nextId: nat)

  const Empty := Ledger([], 1)

  /** The ledger invariant: primary key and unique index hold, every id was issued by
      the generator, and the retention cap holds. */
  predicate Valid(l: Ledger) {
    && IdsIncreasing(l.rows)
    && UniqueRequestKeys(l.rows)
    && (forall i :: 0 <= i < |l.rows| ==> l.rows[i].id < l.nextId)
    && |l.rows| <= MAX_OPERATION_RECORDS
  }

  /** The position of the row with key (topic, requestId). */
  function FindKey(rows: seq<SessionOperation>, topic: string, requestId: int): (r: Option<nat>)
    ensures r.Some? ==> r.value < |rows| && HasKey(rows[r.value], topic, requestId)
    ensures r.None? ==> forall i :: 0 <= i < |rows| ==> !HasKey(rows[i], topic, requestId)
    decreases |rows|
  {
    if |rows| == 0 then None
    else if HasKey(rows[0], topic, requestId) then Some(0)
    else
      match FindKey(rows[1..], topic, requestId)
      case Some(k) => Some(k + 1)
      case None => None
  }

  /** The row stored under a key, if any. */
  function RowFor(rows: seq<SessionOperation>, topic: string, requestId: int): Option<SessionOperation> {
    match FindKey(rows, topic, requestId)
    case Some(k) => Some(rows[k])
    case None => None
  }

  /** The conflict branch: the `set` clause of the upsert. The persistence library
      leaves out of the `set` clause every value that is `undefined`, so undefined
      params, result or error keep the stored ones; id, key and `createdAt` never change. */
  function Overwrite(row: SessionOperation, op: Operation): SessionOperation {
    row.(rpcMethod := op.rpcMethod, chainId := op.chainId,
         params := if op.params.Undefined? then row.params else op.params,
         status := op.status, timestampMs := op.timestamp,
         result := if op.result.Some? then op.result else row.result,
         error := if op.error.Some? then op.error else row.error)
  }

  /** The insert branch: a fresh row under the generator's next id. */
  function NewRow(id: nat, topic: string, op: Operation, now: int): SessionOperation {
    SessionOperation(id, op.requestId, topic, op.rpcMethod, op.chainId, op.params,
                     op.status, op.timestamp, op.result, op.error, now)
  }

  /** The row the key holds once the upsert is done. */
  function KeyRow(l: Ledger, topic: string, op: Operation, now: int): SessionOperation {
    match FindKey(l.rows, topic, op.requestId)
    case Some(k) => Overwrite(l.rows[k], op)
    case None => NewRow(l.nextId, topic, op, now)
  }

  /** `insert ... on conflict (topic, request_id) do update`. */
  function Upsert(l: Ledger, topic: string, op: Operation, now: int): Ledger {
    match FindKey(l.rows, topic, op.requestId)
    case Some(k) => Ledger(l.rows[k := Overwrite(l.rows[k], op)], l.nextId)
    case None => Ledger(l.rows + [NewRow(l.nextId, topic, op, now)], l.nextId + 1)
  }

  /** The number of rows whose id is larger than `id`. */
  function CountAbove(rows: seq<SessionOperation>, id: int): (c: nat)
    ensures c <= |rows|
    decreases |rows|
  {
    if |rows| == 0 then 0
    else (if rows[0].id > id then 1 else 0) + CountAbove(rows[1..], id)
  }

  /** The number of rows of `topic` whose id is larger than `id`. */
  function CountAboveInTopic(rows: seq<SessionOperation>, topic: string, id: int): (c: nat)
    ensures c <= |rows|
    decreases |rows|
  {
    if |rows| == 0 then 0
    else (if rows[0].topic == topic && rows[0].id > id then 1 else 0) + CountAboveInTopic(rows[1..], topic, id)
  }

  /** The rows of `xs` that are among the 500 largest ids of `all`. */
  function KeepNewest(xs: seq<SessionOperation>, all: seq<SessionOperation>): seq<SessionOperation>
    decreases |xs|
  {
    if |xs| == 0 then []
    else (if CountAbove(all, xs[0].id) < MAX_OPERATION_RECORDS then [xs[0]] else []) + KeepNewest(xs[1..], all)
  }

  /** The rows of `xs` outside `topic`, and those among the 500 largest ids of `topic` in `all`. */
  function KeepNewestInTopic(xs: seq<SessionOperation>, all: seq<SessionOperation>, topic: string): seq<SessionOperation>
    decreases |xs|
  {
    if |xs| == 0 then []
    else
      (if xs[0].topic != topic || CountAboveInTopic(all, topic, xs[0].id) < MAX_OPERATION_RECORDS then [xs[0]] else [])
      + KeepNewestInTopic(xs[1..], all, topic)
  }

  /** `delete ... where id in (select id ... order by id desc offset 500)`. */
  function TrimGlobal(rows: seq<SessionOperation>): seq<SessionOperation> {
    KeepNewest(rows, rows)
  }

  /** The same statement restricted to one topic. */
  function TrimTopic(rows: seq<SessionOperation>, topic: string): seq<SessionOperation> {
    KeepNewestInTopic(rows, rows, topic)
  }

  /** `appendOperation`: the upsert and both trims, as one transaction. */
  function Append(l: Ledger, topic: string, op: Operation, now: int): Ledger {
    var u := Upsert(l, topic, op, now);
    Ledger(TrimTopic(TrimGlobal(u.rows), topic), u.nextId)
  }

  /** The number of rows of one topic. */
  function TopicCount(rows: seq<SessionOperation>, topic: string): (c: nat)
    ensures c <= |rows|
    decreases |rows|
  {
    if |rows| == 0 then 0 else (if rows[0].topic == topic then 1 else 0) + TopicCount(rows[1..], topic)
  }

  function Max(a: int, b: int): int {
    if a < b then b else a
  }

  // ---- The trims on id-ordered rows ----

  lemma {:induction false} CountAboveAllLarger(rows: seq<SessionOperation>, id: int)
    requires forall i :: 0 <= i < |rows| ==> rows[i].id > id
    ensures CountAbove(rows, id) == |rows|
    decreases |rows|
  {
    if |rows| > 0 {
      CountAboveAllLarger(rows[1..], id);
    }
  }

  /** In id order, the row at position i has exactly the rows after it above it. */
  lemma {:induction false} CountAboveAt(rows: seq<SessionOperation>, i: nat)
    requires IdsIncreasing(rows) && i < |rows|
    ensures CountAbove(rows, rows[i].id) == |rows| - 1 - i
    decreases |rows|
  {
    if i == 0 {
      CountAboveAllLarger(rows[1..], rows[0].id);
    } else {
      assert rows[1..][i - 1] == rows[i];
      CountAboveAt(rows[1..], i - 1);
    }
  }

  lemma {:induction false} KeepNewestSuffix(rows: seq<SessionOperation>, j: nat)
    requires IdsIncreasing(rows) && j <= |rows|
    ensures KeepNewest(rows[j..], rows) == rows[Max(j, |rows| - MAX_OPERATION_RECORDS)..]
    decreases |rows| - j
  {
    if j < |rows| {
      var xs := rows[j..];
      assert xs[0] == rows[j] && xs[1..] == rows[j + 1..];
      assert KeepNewest(xs, rows) == (if CountAbove(rows, rows[j].id) < MAX_OPERATION_RECORDS then [rows[j]] else []) + KeepNewest(rows[j + 1..], rows);
      CountAboveAt(rows, j);
      KeepNewestSuffix(rows, j + 1);
      if j >= |rows| - MAX_OPERATION_RECORDS {
        assert [rows[j]] + rows[j + 1..] == xs;
      }
    }
  }

  /** The global trim keeps exactly the 500 rows with the largest ids. */
  lemma TrimGlobalKeepsNewest(rows: seq<SessionOperation>)
    requires IdsIncreasing(rows)
    ensures TrimGlobal(rows) == rows[Max(0, |rows| - MAX_OPERATION_RECORDS)..]
  {
    KeepNewestSuffix(rows, 0);
    assert rows[0..] == rows;
  }

  lemma {:induction false} CountAboveInTopicOfMember(all: seq<SessionOperation>, topic: string, i: nat)
    requires i < |all|
    ensures CountAboveInTopic(all, topic, all[i].id) < |all|
    decreases |all|
  {
    if i > 0 {
      assert all[1..][i - 1] == all[i];
      CountAboveInTopicOfMember(all[1..], topic, i - 1);
    }
  }

  lemma {:induction false} KeepNewestInTopicOfSmall(xs: seq<SessionOperation>, all: seq<SessionOperation>, topic: string)
    requires |all| <= MAX_OPERATION_RECORDS
    requires forall x :: x in xs ==> x in all
    ensures KeepNewestInTopic(xs, all, topic) == xs
    decreases |xs|
  {
    if |xs| > 0 {
      assert xs[0] in all;
      var i :| 0 <= i < |all| && all[i] == xs[0];
      assert forall x :: x in xs[1..] ==> x in xs;
      CountAboveInTopicOfMember(all, topic, i);
      KeepNewestInTopicOfSmall(xs[1..], all, topic);
      assert [xs[0]] + xs[1..] == xs;
    }
  }

  /** On at most 500 rows the per-topic trim deletes nothing; in particular it is a
      no-op right after the global trim. */
  lemma TrimTopicOfSmall(rows: seq<SessionOperation>, topic: string)
    requires |rows| <= MAX_OPERATION_RECORDS
    ensures TrimTopic(rows, topic) == rows
  {
    KeepNewestInTopicOfSmall(rows, rows, topic);
  }

  lemma TrimTopicAfterGlobal(rows: seq<SessionOperation>, topic: string)
    requires IdsIncreasing(rows)
    ensures TrimTopic(TrimGlobal(rows), topic) == TrimGlobal(rows)
  {
    TrimGlobalKeepsNewest(rows);
    TrimTopicOfSmall(TrimGlobal(rows), topic);
  }

  // ---- The upsert ----

  lemma FindKeyUnique(rows: seq<SessionOperation>, topic: string, requestId: int, k: nat)
    requires UniqueRequestKeys(rows) && k < |rows| && HasKey(rows[k], topic, requestId)
    ensures FindKey(rows, topic, requestId) == Some(k)
  {
    var r := FindKey(rows, topic, requestId);
    assert r.Some?;
    assert !(r.value < k) && !(k < r.value);
  }

  /** Only an insert grows the table, and only an insert draws from the generator. */
  lemma UpsertSize(l: Ledger, topic: string, op: Operation, now: int)
    ensures var u := Upsert(l, topic, op, now);
      && |u.rows| == |l.rows| + (if FindKey(l.rows, topic, op.requestId).Some? then 0 else 1)
      && u.nextId == l.nextId + (if FindKey(l.rows, topic, op.requestId).Some? then 0 else 1)
  {
  }

  /** The upsert keeps ids increasing, keys unique and ids below the generator. */
  lemma UpsertKeepsOrder(l: Ledger, topic: string, op: Operation, now: int)
    requires Valid(l)
    ensures var u := Upsert(l, topic, op, now);
      && IdsIncreasing(u.rows)
      && UniqueRequestKeys(u.rows)
      && (forall i :: 0 <= i < |u.rows| ==> u.rows[i].id < u.nextId)
  {
    var u := Upsert(l, topic, op, now);
    match FindKey(l.rows, topic, op.requestId)
    case Some(k) =>
      assert forall i :: 0 <= i < |u.rows| ==> u.rows[i].id == l.rows[i].id && HasKey(u.rows[i], l.rows[i].topic, l.rows[i].requestId);
    case None =>
      assert forall i :: 0 <= i < |l.rows| ==> u.rows[i] == l.rows[i];
  }

  /** After the upsert the key sits where it was, or at the end when it is new, and
      holds the row KeyRow describes. */
  lemma UpsertStoresKeyRow(l: Ledger, topic: string, op: Operation, now: int)
    requires Valid(l)
    ensures var u := Upsert(l, topic, op, now);
      && FindKey(u.rows, topic, op.requestId) == Some(if FindKey(l.rows, topic, op.requestId).Some? then FindKey(l.rows, topic, op.requestId).value else |l.rows|)
      && RowFor(u.rows, topic, op.requestId) == Some(KeyRow(l, topic, op, now))
  {
    var u := Upsert(l, topic, op, now);
    UpsertKeepsOrder(l, topic, op, now);
    match FindKey(l.rows, topic, op.requestId)
    case Some(k) =>
      FindKeyUnique(u.rows, topic, op.requestId, k);
    case None =>
      FindKeyUnique(u.rows, topic, op.requestId, |l.rows|);
  }

  /** The upsert leaves every row of another key in place. */
  lemma UpsertOthersInPlace(l: Ledger, topic: string, op: Operation, now: int)
    ensures var u := Upsert(l, topic, op, now);
      forall i :: 0 <= i < |l.rows| && !HasKey(l.rows[i], topic, op.requestId) ==> i < |u.rows| && u.rows[i] == l.rows[i]
  {
  }

  /** The upsert keeps ids increasing and keys unique, gives the key the row KeyRow
      describes, and leaves every other row in place; only an insert grows the table. */
  lemma UpsertShape(l: Ledger, topic: string, op: Operation, now: int)
    requires Valid(l)
    ensures var u := Upsert(l, topic, op, now);
      && IdsIncreasing(u.rows)
      && UniqueRequestKeys(u.rows)
      && (forall i :: 0 <= i < |u.rows| ==> u.rows[i].id < u.nextId)
      && |u.rows| == |l.rows| + (if FindKey(l.rows, topic, op.requestId).Some? then 0 else 1)
      && RowFor(u.rows, topic, op.requestId) == Some(KeyRow(l, topic, op, now))
      && (forall i :: 0 <= i < |l.rows| && !HasKey(l.rows[i], topic, op.requestId) ==> u.rows[i] == l.rows[i])
  {
    UpsertSize(l, topic, op, now);
    UpsertKeepsOrder(l, topic, op, now);
    UpsertStoresKeyRow(l, topic, op, now);
    UpsertOthersInPlace(l, topic, op, now);
  }

  /** Overwriting the key's row with the same operation again changes nothing. */
  lemma OverwriteSettled(l: Ledger, topic: string, op: Operation, now: int)
    ensures Overwrite(KeyRow(l, topic, op, now), op) == KeyRow(l, topic, op, now)
  {
  }

  /** Dropping oldest rows down to at most 500 leaves a valid ledger. */
  lemma DropOldestValid(rows: seq<SessionOperation>, nextId: nat, d: nat)
    requires IdsIncreasing(rows) && UniqueRequestKeys(rows)
    requires forall i :: 0 <= i < |rows| ==> rows[i].id < nextId
    requires d <= |rows| && |rows| - d <= MAX_OPERATION_RECORDS
    ensures Valid(Ledger(rows[d..], nextId))
  {
    assert forall i :: 0 <= i < |rows| - d ==> rows[d..][i] == rows[d + i];
  }

  // ---- The append ----

  /** The append's rows are the upserted rows minus the oldest ones beyond 500. */
  lemma AppendRows(l: Ledger, topic: string, op: Operation, now: int)
    requires Valid(l)
    ensures var u := Upsert(l, topic, op, now);
      Append(l, topic, op, now) == Ledger(u.rows[Max(0, |u.rows| - MAX_OPERATION_RECORDS)..], u.nextId)
  {
    var u := Upsert(l, topic, op, now);
    UpsertKeepsOrder(l, topic, op, now);
    TrimTopicAfterGlobal(u.rows, topic);
    TrimGlobalKeepsNewest(u.rows);
  }

  /** The append keeps the ledger invariant. */
  lemma AppendValid(l: Ledger, topic: string, op: Operation, now: int)
    requires Valid(l)
    ensures Valid(Append(l, topic, op, now))
  {
    var u := Upsert(l, topic, op, now);
    UpsertKeepsOrder(l, topic, op, now);
    UpsertSize(l, topic, op, now);
    AppendRows(l, topic, op, now);
    DropOldestValid(u.rows, u.nextId, Max(0, |u.rows| - MAX_OPERATION_RECORDS));
  }

  /** At most one row goes, only when an insert meets a full ledger, and every row that
      goes has a smaller id than every row that stays. The ledger invariant is preserved. */
  lemma AppendTrimsOldest(l: Ledger, topic: string, op: Operation, now: int)
    requires Valid(l)
    ensures var u := Upsert(l, topic, op, now); var a := Append(l, topic, op, now);
      && |a.rows| == (if |u.rows| <= MAX_OPERATION_RECORDS then |u.rows| else MAX_OPERATION_RECORDS)
      && a.rows == u.rows[|u.rows| - |a.rows|..]
      && |u.rows| - |a.rows| <= 1
      && (|u.rows| > |a.rows| ==> FindKey(l.rows, topic, op.requestId).None? && |l.rows| == MAX_OPERATION_RECORDS)
      && (forall i, j :: 0 <= i < |u.rows| - |a.rows| <= j < |u.rows| ==> u.rows[i].id < u.rows[j].id)
      && Valid(a)
  {
    UpsertSize(l, topic, op, now);
    UpsertKeepsOrder(l, topic, op, now);
    AppendRows(l, topic, op, now);
    AppendValid(l, topic, op, now);
  }

  /** After an append the key holds exactly the row KeyRow describes: the stored row
      overwritten in place, keeping its id, or a new row whose id is larger than every
      id in the ledger. */
  lemma AppendStoresKeyRow(l: Ledger, topic: string, op: Operation, now: int)
    requires Valid(l)
    ensures RowFor(Append(l, topic, op, now).rows, topic, op.requestId) == Some(KeyRow(l, topic, op, now))
    ensures match FindKey(l.rows, topic, op.requestId)
      case Some(k) => KeyRow(l, topic, op, now).id == l.rows[k].id
      case None => forall i :: 0 <= i < |l.rows| ==> l.rows[i].id < KeyRow(l, topic, op, now).id
  {
    var u := Upsert(l, topic, op, now);
    var a := Append(l, topic, op, now);
    UpsertSize(l, topic, op, now);
    UpsertStoresKeyRow(l, topic, op, now);
    AppendRows(l, topic, op, now);
    AppendValid(l, topic, op, now);
    var p := FindKey(u.rows, topic, op.requestId).value;
    var off := Max(0, |u.rows| - MAX_OPERATION_RECORDS);
    assert p >= off;
    assert a.rows[p - off] == u.rows[p];
    FindKeyUnique(a.rows, topic, op.requestId, p - off);
  }

  /** After any append the ledger holds at most 500 rows, and at most 500 per topic. */
  lemma AppendBounded(l: Ledger, topic: string, op: Operation, now: int)
    requires Valid(l)
    ensures |Append(l, topic, op, now).rows| <= MAX_OPERATION_RECORDS
    ensures forall t :: TopicCount(Append(l, topic, op, now).rows, t) <= MAX_OPERATION_RECORDS
  {
    AppendTrimsOldest(l, topic, op, now);
  }

  /** Appending the same operation twice leaves the ledger as appending it once. */
  lemma AppendIdempotent(l: Ledger, topic: string, op: Operation, now: int, later: int)
    requires Valid(l)
    ensures Append(Append(l, topic, op, now), topic, op, later) == Append(l, topic, op, now)
  {
    var a := Append(l, topic, op, now);
    AppendValid(l, topic, op, now);
    AppendStoresKeyRow(l, topic, op, now);
    OverwriteSettled(l, topic, op, now);
    UpsertOfSettled(a, topic, op, later, KeyRow(l, topic, op, now));
    AppendOfSettled(a, topic, op, later);
  }

  /** Upserting onto a stored row that the operation would leave as it is changes nothing. */
  lemma UpsertOfSettled(l: Ledger, topic: string, op: Operation, now: int, row: SessionOperation)
    requires RowFor(l.rows, topic, op.requestId) == Some(row) && Overwrite(row, op) == row
    ensures Upsert(l, topic, op, now) == l
  {
    var k := FindKey(l.rows, topic, op.requestId).value;
    assert l.rows[k := row] == l.rows;
  }

  /** When the upsert changes nothing, neither does either trim. */
  lemma AppendOfSettled(l: Ledger, topic: string, op: Operation, now: int)
    requires Valid(l) && Upsert(l, topic, op, now) == l
    ensures Append(l, topic, op, now) == l
  {
    TrimGlobalKeepsNewest(l.rows);
    assert l.rows[0..] == l.rows;
    TrimTopicOfSmall(l.rows, topic);
  }

  /** Two deliveries of one key leave one row, under the first delivery's id, carrying
      the second delivery's method, chain, status and timestamp, and its params, result
      and error where they are defined (the first delivery's where they are not). */
  lemma AppendLastWriteWins(l: Ledger, topic: string, first: Operation, second: Operation, now: int, later: int)
    requires Valid(l) && first.requestId == second.requestId
    ensures var a := Append(Append(l, topic, first, now), topic, second, later);
      var before := KeyRow(l, topic, first, now);
      && Valid(a)
      && RowFor(a.rows, topic, second.requestId).Some?
      && var row := RowFor(a.rows, topic, second.requestId).value;
      && row.id == before.id
      && row.rpcMethod == second.rpcMethod && row.chainId == second.chainId
      && row.status == second.status && row.timestampMs == second.timestamp
      && row.params == (if second.params.Undefined? then before.params else second.params)
      && row.result == (if second.result.Some? then second.result else before.result)
      && row.error == (if second.error.Some? then second.error else before.error)
  {
    var a1 := Append(l, topic, first, now);
    AppendTrimsOldest(l, topic, first, now);
    AppendStoresKeyRow(l, topic, first, now);
    assert KeyRow(a1, topic, second, later) == Overwrite(KeyRow(l, topic, first, now), second);
    AppendTrimsOldest(a1, topic, second, later);
    AppendStoresKeyRow(a1, topic, second, later);
  }
}
