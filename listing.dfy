/** The two read queries: sessions of one owner (or all), newest first, and the
    operations ledger filtered by topic and owner, newest first and capped at 500. */
module Listing {
  import opened Wrappers
  import opened Schema
  import Js
  import Ledger

  // ---- Sessions ----

  /** What `listWalletSessions` returns for one row; a NULL domain becomes `undefined`. */
  datatype SessionSummary = SessionSummary(
    topic: string,
    owner: string,
    address: string,
    domain: Option<string>,
    defaultChainId: int)

  function Summary(topic: string, s: WalletSession): SessionSummary {
    SessionSummary(topic, s.owner, s.address, s.domain, s.defaultChainId)
  }

  /** The owner filter applies only when the owner argument is truthy. */
  predicate SessionSelected(s: WalletSession, owner: Option<string>) {
    Truthy(owner) ==> s.owner == owner.value
  }

  /** Session rows with their topics, in non-increasing order of creation time. */
  predicate NewestFirst(entries: seq<(string, WalletSession)>) {
    forall i, j :: 0 <= i < j < |entries| ==> entries[i].1.createdAt >= entries[j].1.createdAt
  }

  /** The position of the first entry created no later than `e`. */
  function InsertPosition(entries: seq<(string, WalletSession)>, e: (string, WalletSession)): (k: nat)
    requires NewestFirst(entries)
    ensures k <= |entries|
    ensures forall i :: 0 <= i < k ==> entries[i].1.createdAt > e.1.createdAt
    ensures forall i :: k <= i < |entries| ==> entries[i].1.createdAt <= e.1.createdAt
  {
    if |entries| == 0 || entries[0].1.createdAt <= e.1.createdAt then 0
    else 1 + InsertPosition(entries[1..], e)
  }

  /** No topic appears twice. */
  predicate DistinctTopics(entries: seq<(string, WalletSession)>) {
    forall i, j :: 0 <= i < j < |entries| ==> entries[i].0 != entries[j].0
  }

  /** Places `e` in front of the first entry created no later than it. */
  function InsertByCreation(entries: seq<(string, WalletSession)>, e: (string, WalletSession)): (r: seq<(string, WalletSession)>)
    requires NewestFirst(entries)
    ensures |r| == |entries| + 1
  {
    var k := InsertPosition(entries, e);
    entries[..k] + [e] + entries[k..]
  }

  /** Where each entry lands: before the insertion point in place, after it one further on. */
  lemma InsertByCreationLayout(entries: seq<(string, WalletSession)>, e: (string, WalletSession))
    requires NewestFirst(entries)
    ensures var r := InsertByCreation(entries, e); var k := InsertPosition(entries, e);
      && r[k] == e
      && (forall i :: 0 <= i < k ==> r[i] == entries[i])
      && (forall i :: k <= i < |entries| ==> r[i + 1] == entries[i])
  {
  }

  /** The insertion keeps the entries newest first. */
  lemma InsertByCreationOrdered(entries: seq<(string, WalletSession)>, e: (string, WalletSession))
    requires NewestFirst(entries)
    ensures NewestFirst(InsertByCreation(entries, e))
  {
    var k := InsertPosition(entries, e);
    var r := InsertByCreation(entries, e);
    InsertByCreationLayout(entries, e);
    forall i, j | 0 <= i < j < |r|
      ensures r[i].1.createdAt >= r[j].1.createdAt
    {
      if j > k { assert r[(j - 1) + 1] == entries[j - 1]; }
      if i > k { assert r[(i - 1) + 1] == entries[i - 1]; }
    }
  }

  /** The insertion adds exactly `e`. */
  lemma InsertByCreationMembers(entries: seq<(string, WalletSession)>, e: (string, WalletSession))
    requires NewestFirst(entries)
    ensures forall x :: x in InsertByCreation(entries, e) <==> x == e || x in entries
  {
    var k := InsertPosition(entries, e);
    var r := InsertByCreation(entries, e);
    InsertByCreationLayout(entries, e);
    forall i | 0 <= i < |r|
      ensures r[i] == e || r[i] in entries
    {
      if i > k { assert r[(i - 1) + 1] == entries[i - 1]; }
    }
    forall i | 0 <= i < |entries|
      ensures entries[i] in r
    {
      if i >= k { assert r[i + 1] == entries[i]; }
    }
  }

  /** Inserting an entry for a topic not yet present keeps the topics distinct. */
  lemma InsertByCreationDistinct(entries: seq<(string, WalletSession)>, e: (string, WalletSession))
    requires NewestFirst(entries) && DistinctTopics(entries)
    requires forall x :: x in entries ==> x.0 != e.0
    ensures DistinctTopics(InsertByCreation(entries, e))
  {
    var k := InsertPosition(entries, e);
    var r := InsertByCreation(entries, e);
    InsertByCreationLayout(entries, e);
    forall i, j | 0 <= i < j < |r|
      ensures r[i].0 != r[j].0
    {
      if j > k { assert r[(j - 1) + 1] == entries[j - 1]; }
      if i > k { assert r[(i - 1) + 1] == entries[i - 1]; }
    }
  }

  /** What the listing loop has gathered once the topics outside `remaining` are
      looked at: exactly the selected ones among them, each with its row, newest first. */
  predicate Collected(sessions: SessionTable, owner: Option<string>, remaining: set<string>, entries: seq<(string, WalletSession)>) {
    && remaining <= sessions.Keys
    && (forall x :: x in entries ==> x.0 in sessions && sessions[x.0] == x.1 && x.0 !in remaining && SessionSelected(x.1, owner))
    && (forall t :: t in sessions && t !in remaining && SessionSelected(sessions[t], owner) ==> (t, sessions[t]) in entries)
    && DistinctTopics(entries)
    && NewestFirst(entries)
  }

  /** Looking at one more topic, and inserting it when selected, keeps what is gathered. */
  lemma CollectStep(sessions: SessionTable, owner: Option<string>, remaining: set<string>,
                    entries: seq<(string, WalletSession)>, t: string)
    requires Collected(sessions, owner, remaining, entries) && t in remaining
    ensures NewestFirst(entries)
    ensures Collected(sessions, owner, remaining - {t},
      if SessionSelected(sessions[t], owner) then InsertByCreation(entries, (t, sessions[t])) else entries)
  {
    if SessionSelected(sessions[t], owner) {
      CollectInsert(sessions, owner, remaining, entries, t);
    }
  }

  lemma CollectInsert(sessions: SessionTable, owner: Option<string>, remaining: set<string>,
                      entries: seq<(string, WalletSession)>, t: string)
    requires Collected(sessions, owner, remaining, entries) && t in remaining && SessionSelected(sessions[t], owner)
    ensures Collected(sessions, owner, remaining - {t}, InsertByCreation(entries, (t, sessions[t])))
  {
    var e := (t, sessions[t]);
    var r := InsertByCreation(entries, e);
    InsertByCreationOrdered(entries, e);
    InsertByCreationMembers(entries, e);
    assert forall x :: x in entries ==> x.0 != t;
    InsertByCreationDistinct(entries, e);
    assert forall x :: x in r ==> x == e || x in entries;
  }

  /** The row mapping applied to every gathered entry. */
  function Summaries(entries: seq<(string, WalletSession)>): (r: seq<SessionSummary>)
    ensures |r| == |entries|
    ensures forall i :: 0 <= i < |r| ==> r[i] == Summary(entries[i].0, entries[i].1)
  {
    seq(|entries|, i requires 0 <= i < |entries| => Summary(entries[i].0, entries[i].1))
  }

  /** Once every topic is looked at, the summaries list exactly the selected sessions,
      each once, newest first. */
  lemma CollectedListing(sessions: SessionTable, owner: Option<string>, entries: seq<(string, WalletSession)>)
    requires Collected(sessions, owner, {}, entries)
    ensures var r := Summaries(entries);
      && (forall i :: 0 <= i < |r| ==> r[i].topic in sessions && r[i] == Summary(r[i].topic, sessions[r[i].topic]))
      && (forall t :: t in sessions ==> (SessionSelected(sessions[t], owner) <==> exists i :: 0 <= i < |r| && r[i].topic == t))
      && (forall i, j :: 0 <= i < j < |r| ==> r[i].topic != r[j].topic)
      && (forall i, j :: 0 <= i < j < |r| ==> sessions[r[i].topic].createdAt >= sessions[r[j].topic].createdAt)
  {
    var r := Summaries(entries);
    forall t | t in sessions && SessionSelected(sessions[t], owner)
      ensures exists i :: 0 <= i < |r| && r[i].topic == t
    {
      var i :| 0 <= i < |entries| && entries[i] == (t, sessions[t]);
      assert r[i].topic == t;
    }
    forall i | 0 <= i < |r|
      ensures r[i].topic == entries[i].0 && entries[i].0 in sessions && sessions[entries[i].0] == entries[i].1
    {
      assert entries[i] in entries;
    }
  }

  /** `select ... where owner = ? order by created_at desc`, then the row mapping. Rows
      created at the same instant come in an order the database does not fix; the
      listing is any arrangement that satisfies the ordering. */
  method ListWalletSessions(sessions: SessionTable, owner: Option<string>) returns (r: seq<SessionSummary>)
    ensures forall i :: 0 <= i < |r| ==> r[i].topic in sessions && r[i] == Summary(r[i].topic, sessions[r[i].topic])
    ensures forall t :: t in sessions ==> (SessionSelected(sessions[t], owner) <==> exists i :: 0 <= i < |r| && r[i].topic == t)
    ensures forall i, j :: 0 <= i < j < |r| ==> r[i].topic != r[j].topic
    ensures forall i, j :: 0 <= i < j < |r| ==> sessions[r[i].topic].createdAt >= sessions[r[j].topic].createdAt
  {
    var entries: seq<(string, WalletSession)> := [];
    var remaining := sessions.Keys;
    while remaining != {}
      invariant Collected(sessions, owner, remaining, entries)
      decreases remaining
    {
      var t :| t in remaining;
      CollectStep(sessions, owner, remaining, entries, t);
      if SessionSelected(sessions[t], owner) {
        entries := InsertByCreation(entries, (t, sessions[t]));
      }
      remaining := remaining - {t};
    }
    CollectedListing(sessions, owner, entries);
    r := Summaries(entries);
  }

  // ---- Operations ----

  /** One listed operation. Its `id` is the peer's request id, not the row id. */
  datatype ListedOperation = ListedOperation(
    id: int,
    topic: string,
    rpcMethod: string,
    chainId: string,
    params: Js.Value,
    status: OperationStatus,
    timestamp: int,
    result: Option<Js.Value>,
    error: Option<string>)

  /** One listed operation: the request id as `id`, and `result ?? undefined`, so a
      `null` the handler returned, which the result column holds as SQL NULL, is listed
      as no result. */
  function Listed(row: SessionOperation): (r: ListedOperation)
    ensures r.id == row.requestId && r.topic == row.topic && r.params == row.params && r.status == row.status
    ensures r.result.Some? <==> row.result.Some? && !Js.Nullish(row.result.value)
    ensures r.result.Some? ==> r.result == row.result
  {
    var result := if row.result.Some? && Js.Nullish(row.result.value) then None else row.result;
    ListedOperation(row.requestId, row.topic, row.rpcMethod, row.chainId, row.params,
                    row.status, row.timestampMs, result, row.error)
  }

  /** The `where` clause over the left join with sessions: each filter applies only
      when its argument is truthy, and the owner filter needs a session row for the
      operation's topic (an operation whose session is gone never matches it). */
  predicate OperationSelected(row: SessionOperation, sessions: SessionTable, owner: Option<string>, topic: Option<string>) {
    && (Truthy(topic) ==> row.topic == topic.value)
    && (Truthy(owner) ==> row.topic in sessions && sessions[row.topic].owner == owner.value)
  }

  /** The selected rows from the newest stored row backwards. */
  function NewestSelected(rows: seq<SessionOperation>, sessions: SessionTable, owner: Option<string>, topic: Option<string>): (r: seq<SessionOperation>)
    ensures forall x :: x in r <==> x in rows && OperationSelected(x, sessions, owner, topic)
    ensures |r| <= |rows|
  {
    if |rows| == 0 then []
    else
      var last := rows[|rows| - 1];
      var older := NewestSelected(rows[..|rows| - 1], sessions, owner, topic);
      assert rows == rows[..|rows| - 1] + [last];
      if OperationSelected(last, sessions, owner, topic) then [last] + older else older
  }

  /** `order by id desc limit 500`, on rows kept in id order. */
  function SelectOperations(rows: seq<SessionOperation>, sessions: SessionTable, owner: Option<string>, topic: Option<string>): seq<SessionOperation> {
    var all := NewestSelected(rows, sessions, owner, topic);
    if |all| <= Ledger.MAX_OPERATION_RECORDS then all else all[..Ledger.MAX_OPERATION_RECORDS]
  }

  /** `listWalletSessionOperations`: the selected rows, mapped. */
  function ListOperations(rows: seq<SessionOperation>, sessions: SessionTable, owner: Option<string>, topic: Option<string>): (r: seq<ListedOperation>)
    ensures |r| <= Ledger.MAX_OPERATION_RECORDS
  {
    var sel := SelectOperations(rows, sessions, owner, topic);
    seq(|sel|, i requires 0 <= i < |sel| => Listed(sel[i]))
  }

  /** Row ids strictly decrease along the sequence. */
  predicate IdsDescending(rows: seq<SessionOperation>) {
    forall i, j :: 0 <= i < j < |rows| ==> rows[i].id > rows[j].id
  }

  lemma {:induction false} NewestSelectedDescending(rows: seq<SessionOperation>, sessions: SessionTable, owner: Option<string>, topic: Option<string>)
    requires IdsIncreasing(rows)
    ensures IdsDescending(NewestSelected(rows, sessions, owner, topic))
  {
    if |rows| > 0 {
      var init := rows[..|rows| - 1];
      var last := rows[|rows| - 1];
      assert IdsIncreasing(init);
      NewestSelectedDescending(init, sessions, owner, topic);
      var older := NewestSelected(init, sessions, owner, topic);
      assert forall k :: 0 <= k < |init| ==> init[k].id < last.id;
      SelectedBelow(init, sessions, owner, topic, last.id);
      if OperationSelected(last, sessions, owner, topic) {
        assert NewestSelected(rows, sessions, owner, topic) == [last] + older;
        ConsDescending(last, older);
      } else {
        assert NewestSelected(rows, sessions, owner, topic) == older;
      }
    }
  }

  /** A bound on every stored id bounds every selected id. */
  lemma SelectedBelow(rows: seq<SessionOperation>, sessions: SessionTable, owner: Option<string>, topic: Option<string>, bound: int)
    requires forall k :: 0 <= k < |rows| ==> rows[k].id < bound
    ensures forall x :: x in NewestSelected(rows, sessions, owner, topic) ==> x.id < bound
  {
    forall x | x in NewestSelected(rows, sessions, owner, topic)
      ensures x.id < bound
    {
      var k :| 0 <= k < |rows| && rows[k] == x;
    }
  }

  /** A row newer than all of a descending sequence can go in front of it. */
  lemma ConsDescending(first: SessionOperation, rest: seq<SessionOperation>)
    requires IdsDescending(rest) && forall x :: x in rest ==> x.id < first.id
    ensures IdsDescending([first] + rest)
  {
    var r := [first] + rest;
    forall i, j | 0 <= i < j < |r|
      ensures r[i].id > r[j].id
    {
      assert r[j] == rest[j - 1] && rest[j - 1] in rest;
      if i > 0 { assert r[i] == rest[i - 1]; }
    }
  }

  /** The listing holds at most 500 operations, each a selected row in its mapped form,
      in strictly descending row-id order; a selected row left out means the listing is
      full and every listed row is newer than it. */
  lemma ListOperationsSpec(rows: seq<SessionOperation>, sessions: SessionTable, owner: Option<string>, topic: Option<string>)
    requires IdsIncreasing(rows)
    ensures var sel := SelectOperations(rows, sessions, owner, topic);
      && |sel| <= Ledger.MAX_OPERATION_RECORDS
      && ListOperations(rows, sessions, owner, topic) == seq(|sel|, i requires 0 <= i < |sel| => Listed(sel[i]))
      && (forall x :: x in sel ==> x in rows && OperationSelected(x, sessions, owner, topic))
      && IdsDescending(sel)
      && (forall x :: x in rows && OperationSelected(x, sessions, owner, topic) && x !in sel ==>
            |sel| == Ledger.MAX_OPERATION_RECORDS && forall y :: y in sel ==> y.id > x.id)
  {
    var all := NewestSelected(rows, sessions, owner, topic);
    var sel := SelectOperations(rows, sessions, owner, topic);
    NewestSelectedDescending(rows, sessions, owner, topic);
    assert forall i :: 0 <= i < |sel| ==> sel[i] == all[i];
    forall x | x in rows && OperationSelected(x, sessions, owner, topic) && x !in sel
      ensures |sel| == Ledger.MAX_OPERATION_RECORDS && forall y :: y in sel ==> y.id > x.id
    {
      var k :| 0 <= k < |all| && all[k] == x;
      forall y | y in sel
        ensures y.id > x.id
      {
        var m :| 0 <= m < |sel| && sel[m] == y;
        assert all[m] == y && m < k;
        assert all[m].id > all[k].id;
      }
    }
  }

  /** With no more than 500 rows stored, every selected row is listed. */
  lemma ListOperationsComplete(rows: seq<SessionOperation>, sessions: SessionTable, owner: Option<string>, topic: Option<string>)
    requires IdsIncreasing(rows) && |rows| <= Ledger.MAX_OPERATION_RECORDS
    ensures forall x :: x in rows && OperationSelected(x, sessions, owner, topic) ==>
      Listed(x) in ListOperations(rows, sessions, owner, topic)
  {
    var sel := SelectOperations(rows, sessions, owner, topic);
    var r := ListOperations(rows, sessions, owner, topic);
    forall x | x in rows && OperationSelected(x, sessions, owner, topic)
      ensures Listed(x) in r
    {
      var k :| 0 <= k < |sel| && sel[k] == x;
      assert r[k] == Listed(x);
    }
  }

  /** The listing is ordered by row id but reports request ids, so the reported ids
      need not descend: two requests answered out of order list as 3 before 7. */
  lemma ListedIdsNeedNotDescend()
    ensures var older := SessionOperation(1, 7, "t", "personal_sign", "eip155:1", Js.Null, Succeeded, 10, None, None, 10);
      var newer := SessionOperation(2, 3, "t", "eth_sign", "eip155:1", Js.Null, Proposed, 20, None, None, 20);
      var r := ListOperations([older, newer], map[], None, None);
      |r| == 2 && r[0].id == 3 && r[1].id == 7
  {
    var older := SessionOperation(1, 7, "t", "personal_sign", "eip155:1", Js.Null, Succeeded, 10, None, None, 10);
    var newer := SessionOperation(2, 3, "t", "eth_sign", "eip155:1", Js.Null, Proposed, 20, None, None, 20);
    assert [older, newer][..1] == [older];
    assert [older] == [] + [older];
  }
}
