/** The lifecycle handlers as transitions of the service's whole state: the three
    tables and the sequence of calls made to the WalletConnect engine. Whatever the
    handlers learn from outside (the derived account, the engine's answers, the
    signer's results, database failures, the clock) is a parameter. */
module Lifecycle {
  import opened Wrappers
  import opened Schema
  import Text
  import Js
  import Chains
  import Pending
  import Sessions
  import Ledger
  import Dispatch

  // ---- The engine's side ----

  /** The SDK error key of every rejection the service sends. */
  const USER_REJECTED := "USER_REJECTED"

  /** JSON-RPC error codes of the two failure responses. */
  const UNKNOWN_SESSION_CODE := 5000
  const REQUEST_FAILED_CODE := 5001

  const UnknownSession := "unknown WalletConnect session"
  const NoSupportedChains := "no supported eip155 chains in session proposal"

  /** The database's refusal of a value outside the int4 column range. */
  const IntegerOutOfRange := "value out of range for type integer"

  /** The database's refusal of an operation row with no params. */
  const ParamsRequired := "null value in column \"params\" violates not-null constraint"

  /** The `eip155` namespace a session is approved with. */
  datatype Namespace = Namespace(methods: seq<string>, events: seq<string>, accounts: seq<string>)

  datatype JsonRpcResponse = RpcResult(id: int, result: Js.Value) | RpcError(id: int, code: int, message: string)

  /** A call the service makes to the WalletConnect engine. */
  datatype EngineCall =
    | Pair(uri: string)
    | ApproveSession(proposalId: int, namespace: Namespace)
    | RejectSession(proposalId: int, reason: string)
    | RespondSessionRequest(topic: string, response: JsonRpcResponse)

  /** What a successful pairing kickoff returns. */
  datatype Kickoff = Kickoff(topic: string, address: string, status: string)

  /** A session proposal: its id, the pairing it arrived on, the chains of its required
      and optional `eip155` namespaces, and the proposer's metadata URL. */
  datatype Proposal = Proposal(
    id: int,
    pairingTopic: Option<string>,
    requiredChains: seq<string>,
    optionalChains: seq<string>,
    proposerUrl: Option<string>)

  /** The outcomes of the calls one request can make that may throw: the three ledger
      writes, in order the `proposed` row, the `succeeded` row and the `failed` row, and
      the engine's delivery of the result response. */
  datatype RequestFaults = RequestFaults(proposed: Outcome<string>, succeeded: Outcome<string>,
                                         failed: Outcome<string>, responded: Outcome<string>)

  datatype State = State(
    pending: PendingTable,
    sessions: SessionTable,
    ledger: Ledger.Ledger,
    trace: seq<EngineCall>)

  const Initial := State(map[], map[], Ledger.Empty, [])

  /** The table constraints: the ledger invariant and every integer column in range. */
  predicate Consistent(s: State) {
    Ledger.Valid(s.ledger) && PendingColumnsFit(s.pending) && SessionColumnsFit(s.sessions)
  }

  // ---- Pure helpers ----

  /** A CAIP-10 account id on an `eip155` chain. */
  function CaipAccount(chainId: int, address: string): string {
    "eip155:" + Text.IntToString(chainId) + ":" + address
  }

  /** The namespace approved for the chains `ids` and the derived address. */
  function ApprovedNamespace(ids: seq<int>, address: string): (n: Namespace)
    ensures |n.accounts| == |ids|
  {
    Namespace(Dispatch.EIP155_METHODS, Dispatch.EIP155_EVENTS,
              seq(|ids|, i requires 0 <= i < |ids| => CaipAccount(ids[i], address)))
  }

  /** `extractDomain`: the host name of the proposer's URL; `hostOf` is the URL parser,
      `None` standing for a URL it rejects. Falsy URLs and empty host names give
      `undefined`. */
  function ExtractDomain(url: Option<string>, hostOf: string -> Option<string>): (r: Option<string>)
    ensures r.Some? ==> Truthy(url) && hostOf(url.value) == r && r.value != ""
    ensures Truthy(url) && hostOf(url.value).Some? && hostOf(url.value).value != "" ==> r == hostOf(url.value)
  {
    if !Truthy(url) then None
    else
      match hostOf(url.value)
      case None => None
      case Some(h) => if h == "" then None else Some(h)
  }

  // ---- Store operations on the state ----

  /** `getPendingConnection`: sweep, then read. */
  function GetPending(s: State, topic: string, now: int): (State, Option<Pending.PendingRecord>) {
    (s.(pending := Pending.Sweep(s.pending, now)), Pending.Lookup(s.pending, topic, now))
  }

  /** `setSessionSigner`: the column type refuses an out-of-range default chain, and the
      statement may fail for reasons of its own (`fault`); either way nothing is written. */
  function SetSession(s: State, topic: string, rec: Sessions.SessionRecord, now: int, fault: Outcome<string>): (State, Outcome<string>) {
    if !IsInt32(rec.defaultChainId) then (s, Fail(IntegerOutOfRange))
    else if fault.Fail? then (s, fault)
    else (s.(sessions := Sessions.Upsert(s.sessions, topic, rec, now)), Pass)
  }

  /** `appendOperation`: one transaction. Undefined params are sent as `default` and
      null params as NULL, and either is NULL for the params column; the not-null check
      of the proposed row comes before the conflict is looked at, so the statement fails
      whether or not the key is stored; the transaction may also fail for reasons of its own (`fault`). A failed
      transaction leaves the ledger as it was. */
  function AppendOp(s: State, topic: string, op: Ledger.Operation, now: int, fault: Outcome<string>): (State, Outcome<string>) {
    if Js.Nullish(op.params) then (s, Fail(ParamsRequired))
    else if fault.Fail? then (s, fault)
    else (s.(ledger := Ledger.Append(s.ledger, topic, op, now)), Pass)
  }

  function Call(s: State, c: EngineCall): State {
    s.(trace := s.trace + [c])
  }

  // ---- createWalletSession ----

  function AlreadyPending(topic: string): string {
    "pairing already pending for topic " + topic
  }

  /** `createWalletSession` for a URI whose pairing topic is `topic`: `derive` is the
      account derivation, `walletReady` the engine's initialisation and `paired` the
      engine's answer to the pairing. */
  function CreateWalletSessionStep(s: State, owner: string, uri: string, topic: string, now: int,
                                   derive: string -> Result<string, string>,
                                   walletReady: Outcome<string>, paired: Outcome<string>): (State, Result<Kickoff, string>) {
    var (s1, found) := GetPending(s, topic, now);
    if found.Some? then (s1, Err(AlreadyPending(topic)))
    else
      match derive(owner)
      case Err(e) => (s1, Err(e))
      case Ok(address) =>
        var s2 := s1.(pending := Pending.Upsert(s1.pending, topic, Pending.PendingRecord(owner, 1), now));
        if walletReady.Fail? then (s2, Err(walletReady.error))
        else
          var s3 := Call(s2, Pair(uri));
          if paired.Fail? then (s3.(pending := Pending.Delete(s3.pending, topic)), Err(paired.error))
          else (s3, Ok(Kickoff(topic, address, "pairing_started")))
  }

  // ---- onSessionProposal ----

  /** The `try` body of `onSessionProposal`, for the unexpired pending record `rec`:
      `approve` is the engine's answer to the approval (the new session's topic). */
  function ApproveProposal(s: State, p: Proposal, rec: Pending.PendingRecord, now: int, registry: Chains.Registry,
                           derive: string -> Result<string, string>, approve: Result<string, string>,
                           hostOf: string -> Option<string>, sessionFault: Outcome<string>): (State, Outcome<string>)
    requires p.pairingTopic.Some?
  {
    match derive(rec.owner)
    case Err(e) => (s, Fail(e))
    case Ok(address) =>
      var ids := Chains.ResolveApprovedChainIds(p.requiredChains, p.optionalChains, rec.defaultChainId, registry);
      if |ids| == 0 then (s, Fail(NoSupportedChains))
      else
        var s1 := Call(s, ApproveSession(p.id, ApprovedNamespace(ids, address)));
        match approve
        case Err(e) => (s1, Fail(e))
        case Ok(sessionTopic) =>
          var record := Sessions.SessionRecord(rec.owner, address, ExtractDomain(p.proposerUrl, hostOf), ids[0]);
          var (s2, stored) := SetSession(s1, sessionTopic, record, now, sessionFault);
          if stored.Fail? then (s2, stored)
          else (s2.(pending := Pending.Delete(s2.pending, p.pairingTopic.value)), Pass)
  }

  /** `onSessionProposal`. */
  function OnSessionProposalStep(s: State, p: Proposal, now: int, registry: Chains.Registry,
                                 derive: string -> Result<string, string>, approve: Result<string, string>,
                                 hostOf: string -> Option<string>, sessionFault: Outcome<string>): State {
    var (s1, found) := if Truthy(p.pairingTopic) then GetPending(s, p.pairingTopic.value, now) else (s, None);
    if found.None? then Call(s1, RejectSession(p.id, USER_REJECTED))
    else
      var (s2, attempt) := ApproveProposal(s1, p, found.value, now, registry, derive, approve, hostOf, sessionFault);
      if attempt.Pass? then s2
      else Call(s2.(pending := Pending.Delete(s2.pending, p.pairingTopic.value)), RejectSession(p.id, USER_REJECTED))
  }

  // ---- onSessionRequest ----

  /** The ledger entry a request makes, with the given status and values. */
  function RequestOp(ev: Dispatch.Request, status: OperationStatus, at: int, result: Option<Js.Value>, error: Option<string>): Ledger.Operation {
    Ledger.Operation(ev.id, ev.topic, ev.rpcMethod, ev.chainId.GetOr(""), ev.params, status, at, result, error)
  }

  function Respond(s: State, ev: Dispatch.Request, response: JsonRpcResponse): State {
    Call(s, RespondSessionRequest(ev.topic, response))
  }

  /** The `catch` of `onSessionRequest`: record the failure, then answer 5001. A failed
      ledger write here escapes the handler unanswered. */
  function RequestFailed(s: State, ev: Dispatch.Request, message: string, at: int, fault: Outcome<string>): (State, Outcome<string>) {
    if Dispatch.IsSigningOrExecutionMethod(ev.rpcMethod) then
      var (s1, o) := AppendOp(s, ev.topic, RequestOp(ev, Failed, at, None, Some(message)), at, fault);
      if o.Fail? then (s1, o)
      else (Respond(s1, ev, RpcError(ev.id, REQUEST_FAILED_CODE, message)), Pass)
    else (Respond(s, ev, RpcError(ev.id, REQUEST_FAILED_CODE, message)), Pass)
  }

  /** The `try` body of `onSessionRequest` once the session is known; `proposedAt` and
      `settledAt` are the clock's two readings. */
  function RequestAttempt(s: State, ev: Dispatch.Request, record: Sessions.SessionRecord, settledAt: int,
                          registry: Chains.Registry, derive: string -> Result<string, string>,
                          foreign: Dispatch.Foreign, faults: RequestFaults): (State, Outcome<string>) {
    var answer := match derive(record.owner)
      case Err(e) => Err(e)
      case Ok(address) => Dispatch.HandleSessionRequest(ev, Dispatch.Signer(address, record.defaultChainId), registry, foreign);
    match answer
    case Err(e) => RequestFailed(s, ev, e, settledAt, faults.failed)
    case Ok(v) =>
      if Dispatch.IsSigningOrExecutionMethod(ev.rpcMethod) then
        var (s1, o) := AppendOp(s, ev.topic, RequestOp(ev, Succeeded, settledAt, Js.Defined(v), None), settledAt, faults.succeeded);
        if o.Fail? then RequestFailed(s1, ev, o.error, settledAt, faults.failed)
        else RespondResult(s1, ev, v, settledAt, faults)
      else RespondResult(s, ev, v, settledAt, faults)
  }

  /** The result response is sent inside the `try`: when its delivery throws, the
      `catch` records the request as failed and answers 5001. */
  function RespondResult(s: State, ev: Dispatch.Request, v: Js.Value, at: int, faults: RequestFaults): (State, Outcome<string>) {
    var s1 := Respond(s, ev, RpcResult(ev.id, v));
    if faults.responded.Fail? then RequestFailed(s1, ev, faults.responded.error, at, faults.failed)
    else (s1, Pass)
  }

  /** `onSessionRequest`: `Fail` is an error that escapes the handler. */
  function OnSessionRequestStep(s: State, ev: Dispatch.Request, proposedAt: int, settledAt: int,
                                registry: Chains.Registry, derive: string -> Result<string, string>,
                                foreign: Dispatch.Foreign, faults: RequestFaults): (State, Outcome<string>) {
    match Sessions.Lookup(s.sessions, ev.topic)
    case None => (Respond(s, ev, RpcError(ev.id, UNKNOWN_SESSION_CODE, UnknownSession)), Pass)
    case Some(record) =>
      if Dispatch.IsSigningOrExecutionMethod(ev.rpcMethod) then
        var (s1, o) := AppendOp(s, ev.topic, RequestOp(ev, Proposed, proposedAt, None, None), proposedAt, faults.proposed);
        if o.Fail? then (s1, o)
        else RequestAttempt(s1, ev, record, settledAt, registry, derive, foreign, faults)
      else RequestAttempt(s, ev, record, settledAt, registry, derive, foreign, faults)
  }

  // ---- session_delete ----

  function OnSessionDeleteStep(s: State, topic: string): State {
    s.(sessions := Sessions.Delete(s.sessions, topic))
  }
}
