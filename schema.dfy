/** The three persisted tables: their row shapes, column types and key constraints.
    A table keyed by a primary key is a map from that key, so "at most one row per key"
    holds by construction; the operations table, which has a generated identity and a
    separate unique index, is a sequence of rows with both constraints as predicates. */
module Schema {
  import opened Wrappers
  import Js

  /** Bounds of the `integer` (int4) column type. */
  const MIN_INT32: int := -0x8000_0000
  const MAX_INT32: int := 0x7fff_ffff

  predicate IsInt32(n: int) {
    MIN_INT32 <= n <= MAX_INT32
  }

  /** A row of the pending-connections table, keyed by pairing topic. Every column is
      required; `createdAt` is set once, when the row is first inserted. */
  datatype PendingConnection = PendingConnection(
    owner: string,
    defaultChainId: int,
    expiresAt: int,
    createdAt: int)

  /** A row of the sessions table, keyed by session topic; `domain` is the only
      nullable column. */
  datatype WalletSession = WalletSession(
    owner: string,
    address: string,
    domain: Option<string>,
    defaultChainId: int,
    createdAt: int)

  /** The `status` column, whose text is one of "proposed", "succeeded" and "failed". */
  datatype OperationStatus = Proposed | Succeeded | Failed

  /** A row of the session-operations table. `id` is the generated identity,
      `requestId` the peer-assigned JSON-RPC id; `chainId` is free text;
      `result` and `error` are the only nullable columns; the `method` column
      is `rpcMethod` here, `method` being a Dafny keyword. */
  datatype SessionOperation = SessionOperation(
    id: nat,
    requestId: int,
    topic: string,
    rpcMethod: string,
    chainId: string,
    params: Js.Value,
    status: OperationStatus,
    timestampMs: int,
    result: Option<Js.Value>,
    error: Option<string>,
    createdAt: int)

  type PendingTable = map<string, PendingConnection>
  type SessionTable = map<string, WalletSession>

  /** Row ids strictly increase along the sequence: the identity column is a primary
      key, and rows are kept in insertion order. */
  predicate IdsIncreasing(rows: seq<SessionOperation>) {
    forall i, j :: 0 <= i < j < |rows| ==> rows[i].id < rows[j].id
  }

  /** The unique index on (topic, requestId). */
  predicate UniqueRequestKeys(rows: seq<SessionOperation>) {
    forall i, j :: 0 <= i < j < |rows| ==>
      rows[i].topic != rows[j].topic || rows[i].requestId != rows[j].requestId
  }

  predicate HasKey(row: SessionOperation, topic: string, requestId: int) {
    row.topic == topic && row.requestId == requestId
  }

  /** Every stored integer chain id fits its int4 column. */
  predicate PendingColumnsFit(t: PendingTable) {
    forall k :: k in t ==> IsInt32(t[k].defaultChainId)
  }

  predicate SessionColumnsFit(t: SessionTable) {
    forall k :: k in t ==> IsInt32(t[k].defaultChainId)
  }
}
