/** The session registry as functions on the table: the signer record stored under a
    session topic, upserted on approval, read on every request and removed when the
    peer deletes the session. */
module Sessions {
  import opened Wrappers
  import opened Schema

  /** What a caller stores and gets back: the columns other than `createdAt`. */
  datatype SessionRecord = SessionRecord(owner: string, address: string, domain: Option<string>, defaultChainId: int)

  /** `setSessionSigner`: insert, or on a conflicting topic update the record. An
      undefined domain is left out of the update, so it keeps the stored domain; on
      insert it is stored as NULL. The first insertion's `createdAt` is kept. */
  function Upsert(t: SessionTable, topic: string, rec: SessionRecord, now: int): (r: SessionTable)
    ensures r.Keys == t.Keys + {topic}
    ensures forall k :: k in t && k != topic ==> r[k] == t[k]
  {
    if topic in t then
      var row := t[topic];
      t[topic := WalletSession(rec.owner, rec.address, if rec.domain.Some? then rec.domain else row.domain,
                               rec.defaultChainId, row.createdAt)]
    else
      t[topic := WalletSession(rec.owner, rec.address, rec.domain, rec.defaultChainId, now)]
  }

  /** `getSessionSigner`: the record stored under the topic, if any. */
  function Lookup(t: SessionTable, topic: string): (r: Option<SessionRecord>)
    ensures r.Some? <==> topic in t
    ensures r.Some? ==> r.value == SessionRecord(t[topic].owner, t[topic].address, t[topic].domain, t[topic].defaultChainId)
  {
    if topic in t then
      var row := t[topic];
      Some(SessionRecord(row.owner, row.address, row.domain, row.defaultChainId))
    else None
  }

  /** `deleteSessionSigner`. */
  function Delete(t: SessionTable, topic: string): (r: SessionTable)
    ensures topic !in r
    ensures forall k :: k != topic ==> (k in r <==> k in t) && (k in t ==> r[k] == t[k])
  {
    t - {topic}
  }

  /** After an upsert the topic reads back the stored record, with the previously
      stored domain when the new one is undefined. */
  lemma UpsertThenLookup(t: SessionTable, topic: string, rec: SessionRecord, now: int)
    ensures Lookup(Upsert(t, topic, rec, now), topic) ==
      Some(if rec.domain.Some? || topic !in t then rec else rec.(domain := t[topic].domain))
    ensures Upsert(t, topic, rec, now)[topic].createdAt == if topic in t then t[topic].createdAt else now
  {
  }

  /** Storing or deleting one topic leaves every other topic's record as it was, and a
      deleted topic reads back nothing. */
  lemma OtherTopicsUntouched(t: SessionTable, topic: string, other: string, rec: SessionRecord, now: int)
    requires other != topic
    ensures Lookup(Upsert(t, topic, rec, now), other) == Lookup(t, other)
    ensures Lookup(Delete(t, topic), other) == Lookup(t, other)
    ensures Lookup(Delete(t, topic), topic) == None
  {
  }

  /** A record whose default chain fits the column keeps the table within its column types. */
  lemma UpsertFitsColumns(t: SessionTable, topic: string, rec: SessionRecord, now: int)
    requires SessionColumnsFit(t) && IsInt32(rec.defaultChainId)
    ensures SessionColumnsFit(Upsert(t, topic, rec, now))
  {
  }
}
