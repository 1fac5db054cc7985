/** The pending-connection store as functions on the table: a keyed upsert with a
    300-second expiry, a lazy sweep of expired rows, and keyed lookup and delete. */
module Pending {
  import opened Wrappers
  import opened Schema

  const PENDING_TTL_SECONDS: int := 300
  const PENDING_TTL_MS: int := PENDING_TTL_SECONDS * 1000

  /** What a caller stores and gets back: the columns other than the timestamps. */
  datatype PendingRecord = PendingRecord(owner: string, defaultChainId: int)

  /** `setPendingConnection`: insert, or on a conflicting topic update owner, default
      chain and expiry; the first insertion's `createdAt` is kept. */
  function Upsert(t: PendingTable, topic: string, rec: PendingRecord, now: int): (r: PendingTable)
    ensures r.Keys == t.Keys + {topic}
    ensures r[topic].owner == rec.owner && r[topic].defaultChainId == rec.defaultChainId
    ensures r[topic].expiresAt == now + PENDING_TTL_MS
    ensures r[topic].createdAt == if topic in t then t[topic].createdAt else now
    ensures forall k :: k in t && k != topic ==> r[k] == t[k]
  {
    var createdAt := if topic in t then t[topic].createdAt else now;
    t[topic := PendingConnection(rec.owner, rec.defaultChainId, now + PENDING_TTL_MS, createdAt)]
  }

  /** The sweep at the start of `getPendingConnection`: delete every row whose expiry is
      not after `now`; the rest are untouched. */
  function Sweep(t: PendingTable, now: int): (r: PendingTable)
    ensures forall k :: k in r <==> k in t && t[k].expiresAt > now
    ensures forall k :: k in r ==> r[k] == t[k]
  {
    map k | k in t && t[k].expiresAt > now :: t[k]
  }

  /** The read in `getPendingConnection`: the topic's row if it expires after `now`. */
  function Lookup(t: PendingTable, topic: string, now: int): (r: Option<PendingRecord>)
    ensures r.Some? <==> topic in t && t[topic].expiresAt > now
    ensures r.Some? ==> r.value == PendingRecord(t[topic].owner, t[topic].defaultChainId)
  {
    if topic in t && t[topic].expiresAt > now then
      Some(PendingRecord(t[topic].owner, t[topic].defaultChainId))
    else None
  }

  /** `deletePendingConnection`: unconditional removal of the topic's row. */
  function Delete(t: PendingTable, topic: string): (r: PendingTable)
    ensures topic !in r
    ensures forall k :: k != topic ==> (k in r <==> k in t) && (k in t ==> r[k] == t[k])
  {
    t - {topic}
  }

  /** The sweep never changes what a lookup at the same instant sees, and after it no
      expired row is left. */
  lemma SweepPreservesLookup(t: PendingTable, topic: string, now: int)
    ensures Lookup(Sweep(t, now), topic, now) == Lookup(t, topic, now)
    ensures forall k :: k in Sweep(t, now) ==> Lookup(Sweep(t, now), k, now).Some?
  {
  }

  /** A row stored at `stored` is found before its 300 seconds are up and gone from
      then on, so a second kickoff for the same topic is refused inside the window
      and admitted after it. */
  lemma TtlWindow(t: PendingTable, topic: string, rec: PendingRecord, stored: int, now: int)
    ensures Lookup(Upsert(t, topic, rec, stored), topic, now).Some? <==> now < stored + PENDING_TTL_MS
    ensures now >= stored + PENDING_TTL_MS ==> topic !in Sweep(Upsert(t, topic, rec, stored), now)
    ensures now < stored + PENDING_TTL_MS ==>
      Lookup(Upsert(t, topic, rec, stored), topic, now) == Some(rec)
  {
  }

  /** Storing or deleting one topic leaves every other topic's lookup as it was. */
  lemma OtherTopicsUntouched(t: PendingTable, topic: string, other: string, rec: PendingRecord, now: int, at: int)
    requires other != topic
    ensures Lookup(Upsert(t, topic, rec, now), other, at) == Lookup(t, other, at)
    ensures Lookup(Delete(t, topic), other, at) == Lookup(t, other, at)
  {
  }
}
