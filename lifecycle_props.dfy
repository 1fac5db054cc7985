/** What the lifecycle handlers guarantee: the kickoff's refusal, rollback and result,
    the proposal's correlation, approval and rejection, the request's ledger
    bracketing and answers, and the table constraints every handler keeps. */
module LifecycleProperties {
  import opened Wrappers
  import opened Schema
  import Text
  import Js
  import Chains
  import Numbers
  import Pending
  import Sessions
  import Ledger
  import Dispatch
  import opened Lifecycle

  // ---- The approved namespace ----

  /** Each approved account is the CAIP-10 id `eip155:<chain>:<address>`: it splits on
      `:` into exactly its three components, and for a chain id up to 2^53 its chain part
      parses back to the chain it was made from. */
  lemma CaipAccountParts(chainId: nat, address: string)
    requires chainId > 0 && ':' !in address
    ensures Text.Split(CaipAccount(chainId, address), ':') == ["eip155", Text.NatToString(chainId), address]
    ensures chainId <= Numbers.SIGNIFICAND_LIMIT ==>
      Chains.ExtractChainId(Some("eip155:" + Text.NatToString(chainId))) == Some(chainId)
  {
    var d := Text.NatToString(chainId);
    assert ':' !in d by {
      forall i | 0 <= i < |d| ensures d[i] != ':' { assert Text.IsDigit(d[i]); }
    }
    assert CaipAccount(chainId, address) == "eip155" + [':'] + (d + [':'] + address);
    Text.SplitAtFirstSeparator("eip155", ':', d + [':'] + address);
    Text.SplitAtFirstSeparator(d, ':', address);
    Text.SplitWithoutSeparator(address, ':');
    if chainId <= Numbers.SIGNIFICAND_LIMIT {
      Chains.ExtractChainIdRoundTrip(chainId);
    }
  }

  /** The namespace offers the eight methods and two events, and one account per
      approved chain, in approved order, each naming its chain and the address. */
  lemma ApprovedNamespaceSpec(ids: seq<int>, address: string)
    requires forall i :: 0 <= i < |ids| ==> ids[i] > 0
    requires ':' !in address
    ensures var n := ApprovedNamespace(ids, address);
      && n.methods == Dispatch.EIP155_METHODS && |n.methods| == 8
      && n.events == ["accountsChanged", "chainChanged"]
      && |n.accounts| == |ids|
      && forall i :: 0 <= i < |ids| ==> Text.Split(n.accounts[i], ':') == ["eip155", Text.NatToString(ids[i]), address]
  {
    var n := ApprovedNamespace(ids, address);
    forall i | 0 <= i < |ids|
      ensures Text.Split(n.accounts[i], ':') == ["eip155", Text.NatToString(ids[i]), address]
    {
      CaipAccountParts(ids[i], address);
    }
  }

  // ---- createWalletSession ----

  /** A topic with an unexpired pending row is refused before anything is written:
      apart from the sweep of expired rows, the state is unchanged. */
  lemma KickoffRefusedWhilePending(s: State, owner: string, uri: string, topic: string, now: int,
                                   derive: string -> Result<string, string>, walletReady: Outcome<string>, paired: Outcome<string>)
    requires Pending.Lookup(s.pending, topic, now).Some?
    ensures CreateWalletSessionStep(s, owner, uri, topic, now, derive, walletReady, paired) ==
      (s.(pending := Pending.Sweep(s.pending, now)), Err(AlreadyPending(topic)))
  {
  }

  /** When pairing fails the error is passed on, no pending row is left for the topic,
      and nothing else changes apart from the sweep. */
  lemma KickoffPairFailureRollsBack(s: State, owner: string, uri: string, topic: string, now: int,
                                    derive: string -> Result<string, string>, e: string)
    requires Pending.Lookup(s.pending, topic, now).None? && derive(owner).Ok?
    ensures var (s', r) := CreateWalletSessionStep(s, owner, uri, topic, now, derive, Pass, Fail(e));
      && r == Err(e)
      && topic !in s'.pending
      && (forall t :: t != topic ==> Pending.Lookup(s'.pending, t, now) == Pending.Lookup(s.pending, t, now))
      && s'.sessions == s.sessions && s'.ledger == s.ledger
      && s'.trace == s.trace + [Pair(uri)]
  {
  }

  /** A successful kickoff returns the topic, the derived address and
      `pairing_started`, and leaves a pending row for the owner on chain 1 that
      expires 300 seconds later. */
  lemma KickoffSucceeds(s: State, owner: string, uri: string, topic: string, now: int,
                        derive: string -> Result<string, string>)
    requires Pending.Lookup(s.pending, topic, now).None? && derive(owner).Ok?
    ensures var (s', r) := CreateWalletSessionStep(s, owner, uri, topic, now, derive, Pass, Pass);
      && r == Ok(Kickoff(topic, derive(owner).value, "pairing_started"))
      && topic in s'.pending
      && s'.pending[topic].owner == owner && s'.pending[topic].defaultChainId == 1
      && s'.pending[topic].expiresAt == now + Pending.PENDING_TTL_MS
      && (forall later :: now <= later < now + Pending.PENDING_TTL_MS ==>
            Pending.Lookup(s'.pending, topic, later) == Some(Pending.PendingRecord(owner, 1)))
      && s'.sessions == s.sessions && s'.ledger == s.ledger
      && s'.trace == s.trace + [Pair(uri)]
  {
  }

  /** The engine's initialisation runs after the pending row is written and outside
      the rollback: if it fails, the error is passed on, pairing is never attempted
      and the pending row stays. */
  lemma KickoffWalletFailureKeepsPending(s: State, owner: string, uri: string, topic: string, now: int,
                                         derive: string -> Result<string, string>, e: string, paired: Outcome<string>)
    requires Pending.Lookup(s.pending, topic, now).None? && derive(owner).Ok?
    ensures var (s', r) := CreateWalletSessionStep(s, owner, uri, topic, now, derive, Fail(e), paired);
      && r == Err(e)
      && Pending.Lookup(s'.pending, topic, now) == Some(Pending.PendingRecord(owner, 1))
      && s'.trace == s.trace
  {
  }

  // ---- onSessionProposal ----

  /** A proposal without a pairing topic, or whose pairing has no unexpired pending
      row, is rejected as USER_REJECTED and no session is written. */
  lemma ProposalWithoutPendingRejected(s: State, p: Proposal, now: int, registry: Chains.Registry,
                                       derive: string -> Result<string, string>, approve: Result<string, string>,
                                       hostOf: string -> Option<string>, sessionFault: Outcome<string>)
    requires !Truthy(p.pairingTopic) || Pending.Lookup(s.pending, p.pairingTopic.value, now).None?
    ensures var s' := OnSessionProposalStep(s, p, now, registry, derive, approve, hostOf, sessionFault);
      && s'.sessions == s.sessions && s'.ledger == s.ledger
      && s'.trace == s.trace + [RejectSession(p.id, USER_REJECTED)]
  {
  }

  /** A proposal approved end to end: the session row is upserted under the engine's
      topic with the pending owner, the derived address, the proposer's domain and
      the first approved chain; the pending row is gone; the only engine call is the
      approval with the namespace for the approved chains. */
  lemma ProposalApproved(s: State, p: Proposal, now: int, registry: Chains.Registry,
                         derive: string -> Result<string, string>, sessionTopic: string,
                         hostOf: string -> Option<string>)
    requires Truthy(p.pairingTopic)
    requires Pending.Lookup(s.pending, p.pairingTopic.value, now).Some?
    requires var rec := Pending.Lookup(s.pending, p.pairingTopic.value, now).value;
      var ids := Chains.ResolveApprovedChainIds(p.requiredChains, p.optionalChains, rec.defaultChainId, registry);
      derive(rec.owner).Ok? && |ids| > 0 && IsInt32(ids[0])
    ensures var rec := Pending.Lookup(s.pending, p.pairingTopic.value, now).value;
      var ids := Chains.ResolveApprovedChainIds(p.requiredChains, p.optionalChains, rec.defaultChainId, registry);
      var address := derive(rec.owner).value;
      var s' := OnSessionProposalStep(s, p, now, registry, derive, Ok(sessionTopic), hostOf, Pass);
      && Sessions.Lookup(s'.sessions, sessionTopic) ==
           Some(Sessions.SessionRecord(rec.owner, address,
                  (if ExtractDomain(p.proposerUrl, hostOf).Some? || sessionTopic !in s.sessions
                   then ExtractDomain(p.proposerUrl, hostOf) else s.sessions[sessionTopic].domain),
                  ids[0]))
      && (forall t :: t != sessionTopic ==> Sessions.Lookup(s'.sessions, t) == Sessions.Lookup(s.sessions, t))
      && p.pairingTopic.value !in s'.pending
      && s'.ledger == s.ledger
      && s'.trace == s.trace + [ApproveSession(p.id, ApprovedNamespace(ids, address))]
  {
    var rec := Pending.Lookup(s.pending, p.pairingTopic.value, now).value;
    var ids := Chains.ResolveApprovedChainIds(p.requiredChains, p.optionalChains, rec.defaultChainId, registry);
    var address := derive(rec.owner).value;
    var record := Sessions.SessionRecord(rec.owner, address, ExtractDomain(p.proposerUrl, hostOf), ids[0]);
    Sessions.UpsertThenLookup(s.sessions, sessionTopic, record, now);
    forall t | t != sessionTopic
      ensures Sessions.Lookup(Sessions.Upsert(s.sessions, sessionTopic, record, now), t) == Sessions.Lookup(s.sessions, t)
    {
      Sessions.OtherTopicsUntouched(s.sessions, sessionTopic, t, record, now);
    }
  }

  /** The `try` body of an approval that fails at any step writes no session. */
  lemma ApproveProposalFailureWritesNothing(s: State, p: Proposal, rec: Pending.PendingRecord, now: int, registry: Chains.Registry,
                                            derive: string -> Result<string, string>, approve: Result<string, string>,
                                            hostOf: string -> Option<string>, sessionFault: Outcome<string>)
    requires p.pairingTopic.Some?
    ensures var (s', o) := ApproveProposal(s, p, rec, now, registry, derive, approve, hostOf, sessionFault);
      && (o.Fail? ==> s'.sessions == s.sessions && s'.pending == s.pending)
      && s'.ledger == s.ledger
      && s'.trace[..|s.trace|] == s.trace
      && forall i :: |s.trace| <= i < |s'.trace| ==> s'.trace[i].ApproveSession?
  {
  }

  /** Once a pending row is found it is consumed whatever happens next, and a failure
      at any step ends in a USER_REJECTED rejection with no session written. */
  lemma ProposalConsumesPending(s: State, p: Proposal, now: int, registry: Chains.Registry,
                                derive: string -> Result<string, string>, approve: Result<string, string>,
                                hostOf: string -> Option<string>, sessionFault: Outcome<string>)
    requires Truthy(p.pairingTopic) && Pending.Lookup(s.pending, p.pairingTopic.value, now).Some?
    ensures var s' := OnSessionProposalStep(s, p, now, registry, derive, approve, hostOf, sessionFault);
      var s1 := s.(pending := Pending.Sweep(s.pending, now));
      var rec := Pending.Lookup(s.pending, p.pairingTopic.value, now).value;
      var attempt := ApproveProposal(s1, p, rec, now, registry, derive, approve, hostOf, sessionFault);
      && p.pairingTopic.value !in s'.pending
      && (attempt.1.Fail? ==>
            s'.sessions == s.sessions && |s'.trace| > 0 && s'.trace[|s'.trace| - 1] == RejectSession(p.id, USER_REJECTED))
  {
    var s1 := s.(pending := Pending.Sweep(s.pending, now));
    var rec := Pending.Lookup(s.pending, p.pairingTopic.value, now).value;
    ApproveProposalFailureWritesNothing(s1, p, rec, now, registry, derive, approve, hostOf, sessionFault);
  }

  /** A session store failure after the engine approved still rejects the proposal:
      the engine sees the approval and then the rejection. */
  lemma ApprovedThenRejectedOnStoreFailure(s: State, p: Proposal, now: int, registry: Chains.Registry,
                                           derive: string -> Result<string, string>, sessionTopic: string,
                                           hostOf: string -> Option<string>, e: string)
    requires Truthy(p.pairingTopic)
    requires Pending.Lookup(s.pending, p.pairingTopic.value, now).Some?
    requires var rec := Pending.Lookup(s.pending, p.pairingTopic.value, now).value;
      derive(rec.owner).Ok? &&
      |Chains.ResolveApprovedChainIds(p.requiredChains, p.optionalChains, rec.defaultChainId, registry)| > 0
    ensures var rec := Pending.Lookup(s.pending, p.pairingTopic.value, now).value;
      var ids := Chains.ResolveApprovedChainIds(p.requiredChains, p.optionalChains, rec.defaultChainId, registry);
      var s' := OnSessionProposalStep(s, p, now, registry, derive, Ok(sessionTopic), hostOf, Fail(e));
      && s'.sessions == s.sessions
      && s'.trace == s.trace + [ApproveSession(p.id, ApprovedNamespace(ids, derive(rec.owner).value)),
                                RejectSession(p.id, USER_REJECTED)]
  {
  }

  /** `after` extends `before`, and every rejection it adds carries USER_REJECTED. */
  predicate ExtendsWithUserRejections(before: seq<EngineCall>, after: seq<EngineCall>, id: int) {
    && |before| <= |after|
    && after[..|before|] == before
    && forall i :: |before| <= i < |after| && after[i].RejectSession? ==> after[i] == RejectSession(id, USER_REJECTED)
  }

  /** Sending one more USER_REJECTED rejection keeps the trace of that shape. */
  lemma RejectKeepsShape(before: seq<EngineCall>, after: seq<EngineCall>, id: int)
    requires ExtendsWithUserRejections(before, after, id)
    ensures ExtendsWithUserRejections(before, after + [RejectSession(id, USER_REJECTED)], id)
  {
    var last := RejectSession(id, USER_REJECTED);
    assert forall i :: 0 <= i < |after| ==> (after + [last])[i] == after[i];
  }

  /** The handler only appends to the engine trace, and every rejection it sends
      carries USER_REJECTED. */
  lemma ProposalRejectionsAreUserRejected(s: State, p: Proposal, now: int, registry: Chains.Registry,
                                          derive: string -> Result<string, string>, approve: Result<string, string>,
                                          hostOf: string -> Option<string>, sessionFault: Outcome<string>)
    ensures var s' := OnSessionProposalStep(s, p, now, registry, derive, approve, hostOf, sessionFault);
      && |s.trace| <= |s'.trace|
      && s'.trace[..|s.trace|] == s.trace
      && forall i :: |s.trace| <= i < |s'.trace| && s'.trace[i].RejectSession? ==>
           s'.trace[i] == RejectSession(p.id, USER_REJECTED)
  {
    var s' := OnSessionProposalStep(s, p, now, registry, derive, approve, hostOf, sessionFault);
    if Truthy(p.pairingTopic) && Pending.Lookup(s.pending, p.pairingTopic.value, now).Some? {
      var s1 := s.(pending := Pending.Sweep(s.pending, now));
      var rec := Pending.Lookup(s.pending, p.pairingTopic.value, now).value;
      ApproveProposalFailureWritesNothing(s1, p, rec, now, registry, derive, approve, hostOf, sessionFault);
      var (s2, attempt) := ApproveProposal(s1, p, rec, now, registry, derive, approve, hostOf, sessionFault);
      assert ExtendsWithUserRejections(s.trace, s2.trace, p.id);
      if attempt.Fail? {
        RejectKeepsShape(s.trace, s2.trace, p.id);
      }
    } else {
      RejectKeepsShape(s.trace, s.trace, p.id);
    }
    assert ExtendsWithUserRejections(s.trace, s'.trace, p.id);
  }

  // ---- onSessionRequest ----

  /** A request on an unknown session is answered with error 5000 and nothing else
      changes. */
  lemma UnknownSessionAnswered(s: State, ev: Dispatch.Request, proposedAt: int, settledAt: int,
                               registry: Chains.Registry, derive: string -> Result<string, string>,
                               foreign: Dispatch.Foreign, faults: RequestFaults)
    requires ev.topic !in s.sessions
    ensures OnSessionRequestStep(s, ev, proposedAt, settledAt, registry, derive, foreign, faults) ==
      (s.(trace := s.trace + [RespondSessionRequest(ev.topic, RpcError(ev.id, UNKNOWN_SESSION_CODE, UnknownSession))]), Pass)
  {
  }

  /** Requests for methods that neither sign nor execute never touch the tables and are
      always answered: once, or, when the result's delivery throws, a second time with
      the 5001 error carrying the delivery's message. */
  lemma OtherMethodsLeaveLedger(s: State, ev: Dispatch.Request, proposedAt: int, settledAt: int,
                                registry: Chains.Registry, derive: string -> Result<string, string>,
                                foreign: Dispatch.Foreign, faults: RequestFaults)
    requires !Dispatch.IsSigningOrExecutionMethod(ev.rpcMethod)
    ensures var (s', o) := OnSessionRequestStep(s, ev, proposedAt, settledAt, registry, derive, foreign, faults);
      && s'.ledger == s.ledger && s'.sessions == s.sessions && s'.pending == s.pending
      && o == Pass
      && |s'.trace| > |s.trace| && s'.trace[..|s.trace|] == s.trace
      && s'.trace[|s.trace|].RespondSessionRequest?
      && (faults.responded.Pass? ==> |s'.trace| == |s.trace| + 1)
      && (|s'.trace| == |s.trace| + 1 ||
          (faults.responded.Fail? && |s'.trace| == |s.trace| + 2 && s'.trace[|s.trace|].response.RpcResult? &&
           s'.trace[|s.trace| + 1] == RespondSessionRequest(ev.topic, RpcError(ev.id, REQUEST_FAILED_CODE, faults.responded.error))))
  {
  }

  /** A recorded request whose proposed row cannot be written escapes the handler
      unanswered, leaving the state as it was. */
  lemma ProposedWriteFailureEscapes(s: State, ev: Dispatch.Request, proposedAt: int, settledAt: int,
                                    registry: Chains.Registry, derive: string -> Result<string, string>,
                                    foreign: Dispatch.Foreign, faults: RequestFaults, e: string)
    requires ev.topic in s.sessions && Dispatch.IsSigningOrExecutionMethod(ev.rpcMethod)
    requires faults.proposed == Fail(e)
    ensures var (s', o) := OnSessionRequestStep(s, ev, proposedAt, settledAt, registry, derive, foreign, faults);
      s' == s && o.Fail?
  {
  }

  /** A recorded request with `undefined` or `null` params escapes unanswered, whatever the ledger holds:
      its `proposed` row is refused by the params column. */
  lemma NullishParamsEscape(s: State, ev: Dispatch.Request, proposedAt: int, settledAt: int,
                            registry: Chains.Registry, derive: string -> Result<string, string>,
                            foreign: Dispatch.Foreign, faults: RequestFaults)
    requires ev.topic in s.sessions && Dispatch.IsSigningOrExecutionMethod(ev.rpcMethod)
    requires Js.Nullish(ev.params)
    ensures OnSessionRequestStep(s, ev, proposedAt, settledAt, registry, derive, foreign, faults) == (s, Fail(ParamsRequired))
  {
  }

  /** The handler's answer to a known session when every ledger write succeeds. */
  function Answer(s: State, ev: Dispatch.Request, registry: Chains.Registry,
                  derive: string -> Result<string, string>, foreign: Dispatch.Foreign): Result<Js.Value, string>
    requires ev.topic in s.sessions
  {
    var record := Sessions.Lookup(s.sessions, ev.topic).value;
    match derive(record.owner)
    case Err(e) => Err(e)
    case Ok(address) => Dispatch.HandleSessionRequest(ev, Dispatch.Signer(address, record.defaultChainId), registry, foreign)
  }

  /** A recorded request leaves exactly one row for its key: `succeeded` with the
      result when the handler returns, `failed` with the message when it throws, and
      the answer is the matching JSON-RPC result or a 5001 error. */
  lemma RecordedRequestSettles(s: State, ev: Dispatch.Request, proposedAt: int, settledAt: int,
                               registry: Chains.Registry, derive: string -> Result<string, string>,
                               foreign: Dispatch.Foreign)
    requires Consistent(s)
    requires ev.topic in s.sessions && Dispatch.IsSigningOrExecutionMethod(ev.rpcMethod)
    requires !Js.Nullish(ev.params)
    ensures var (s', o) := OnSessionRequestStep(s, ev, proposedAt, settledAt, registry, derive, foreign, RequestFaults(Pass, Pass, Pass, Pass));
      var answer := Answer(s, ev, registry, derive, foreign);
      && o == Pass
      && Ledger.Valid(s'.ledger)
      && Ledger.RowFor(s'.ledger.rows, ev.topic, ev.id).Some?
      && var row := Ledger.RowFor(s'.ledger.rows, ev.topic, ev.id).value;
      && row.rpcMethod == ev.rpcMethod && row.params == ev.params && row.timestampMs == settledAt
      && (answer.Ok? ==>
            && row.status == Succeeded
            && (!answer.value.Undefined? ==> row.result == Some(answer.value))
            && s'.trace == s.trace + [RespondSessionRequest(ev.topic, RpcResult(ev.id, answer.value))])
      && (answer.Err? ==>
            && row.status == Failed
            && row.error == Some(answer.error)
            && s'.trace == s.trace + [RespondSessionRequest(ev.topic, RpcError(ev.id, REQUEST_FAILED_CODE, answer.error))])
  {
    var proposed := RequestOp(ev, Proposed, proposedAt, None, None);
    var answer := Answer(s, ev, registry, derive, foreign);
    RecordedRequestUnfolds(s, ev, proposedAt, settledAt, registry, derive, foreign);
    Ledger.AppendLastWriteWins(s.ledger, ev.topic, proposed, SettledOp(ev, answer, settledAt), proposedAt, settledAt);
  }

  /** The ledger entry that settles a request with the handler's answer. */
  function SettledOp(ev: Dispatch.Request, answer: Result<Js.Value, string>, settledAt: int): Ledger.Operation {
    if answer.Ok? then RequestOp(ev, Succeeded, settledAt, Js.Defined(answer.value), None)
    else RequestOp(ev, Failed, settledAt, None, Some(answer.error))
  }

  /** The response that answers a request with the handler's answer. */
  function AnswerResponse(ev: Dispatch.Request, answer: Result<Js.Value, string>): JsonRpcResponse {
    if answer.Ok? then RpcResult(ev.id, answer.value) else RpcError(ev.id, REQUEST_FAILED_CODE, answer.error)
  }

  /** When every write succeeds, a recorded request makes two appends and one answer. */
  lemma RecordedRequestUnfolds(s: State, ev: Dispatch.Request, proposedAt: int, settledAt: int,
                               registry: Chains.Registry, derive: string -> Result<string, string>,
                               foreign: Dispatch.Foreign)
    requires ev.topic in s.sessions && Dispatch.IsSigningOrExecutionMethod(ev.rpcMethod)
    requires !Js.Nullish(ev.params)
    ensures var answer := Answer(s, ev, registry, derive, foreign);
      var l1 := Ledger.Append(s.ledger, ev.topic, RequestOp(ev, Proposed, proposedAt, None, None), proposedAt);
      OnSessionRequestStep(s, ev, proposedAt, settledAt, registry, derive, foreign, RequestFaults(Pass, Pass, Pass, Pass)) ==
        (s.(ledger := Ledger.Append(l1, ev.topic, SettledOp(ev, answer, settledAt), settledAt),
            trace := s.trace + [RespondSessionRequest(ev.topic, AnswerResponse(ev, answer))]), Pass)
  {
  }

  /** When the result's delivery throws, a recorded request makes three appends and two
      answers. */
  lemma UndeliveredResultUnfolds(s: State, ev: Dispatch.Request, proposedAt: int, settledAt: int,
                                 registry: Chains.Registry, derive: string -> Result<string, string>,
                                 foreign: Dispatch.Foreign, e: string)
    requires ev.topic in s.sessions && Dispatch.IsSigningOrExecutionMethod(ev.rpcMethod)
    requires !Js.Nullish(ev.params)
    requires Answer(s, ev, registry, derive, foreign).Ok?
    ensures var v := Answer(s, ev, registry, derive, foreign).value;
      var l1 := Ledger.Append(s.ledger, ev.topic, RequestOp(ev, Proposed, proposedAt, None, None), proposedAt);
      var l2 := Ledger.Append(l1, ev.topic, RequestOp(ev, Succeeded, settledAt, Js.Defined(v), None), settledAt);
      OnSessionRequestStep(s, ev, proposedAt, settledAt, registry, derive, foreign, RequestFaults(Pass, Pass, Pass, Fail(e))) ==
        (s.(ledger := Ledger.Append(l2, ev.topic, RequestOp(ev, Failed, settledAt, None, Some(e)), settledAt),
            trace := s.trace + [RespondSessionRequest(ev.topic, RpcResult(ev.id, v)),
                                RespondSessionRequest(ev.topic, RpcError(ev.id, REQUEST_FAILED_CODE, e))]), Pass)
  {
    var faults := RequestFaults(Pass, Pass, Pass, Fail(e));
    var v := Answer(s, ev, registry, derive, foreign).value;
    var record := Sessions.Lookup(s.sessions, ev.topic).value;
    var s1 := s.(ledger := Ledger.Append(s.ledger, ev.topic, RequestOp(ev, Proposed, proposedAt, None, None), proposedAt));
    assert OnSessionRequestStep(s, ev, proposedAt, settledAt, registry, derive, foreign, faults) ==
      RequestAttempt(s1, ev, record, settledAt, registry, derive, foreign, faults);
    var s2 := s1.(ledger := Ledger.Append(s1.ledger, ev.topic, RequestOp(ev, Succeeded, settledAt, Js.Defined(v), None), settledAt));
    assert RequestAttempt(s1, ev, record, settledAt, registry, derive, foreign, faults) == RespondResult(s2, ev, v, settledAt, faults);
    var s3 := Respond(s2, ev, RpcResult(ev.id, v));
    assert RespondResult(s2, ev, v, settledAt, faults) == RequestFailed(s3, ev, e, settledAt, Pass);
    var s4 := s3.(ledger := Ledger.Append(s3.ledger, ev.topic, RequestOp(ev, Failed, settledAt, None, Some(e)), settledAt));
    assert RequestFailed(s3, ev, e, settledAt, Pass) == (Respond(s4, ev, RpcError(ev.id, REQUEST_FAILED_CODE, e)), Pass);
    assert s.trace + [RespondSessionRequest(ev.topic, RpcResult(ev.id, v))] + [RespondSessionRequest(ev.topic, RpcError(ev.id, REQUEST_FAILED_CODE, e))]
      == s.trace + [RespondSessionRequest(ev.topic, RpcResult(ev.id, v)), RespondSessionRequest(ev.topic, RpcError(ev.id, REQUEST_FAILED_CODE, e))];
  }

  /** The result response is sent inside the `try`: when its delivery throws, a request
      whose transaction or signature already went through is recorded as `failed` with
      the delivery's message (keeping the result the `succeeded` write stored) and is
      answered a second time, with error 5001. */
  lemma UndeliveredResultRecordedFailed(s: State, ev: Dispatch.Request, proposedAt: int, settledAt: int,
                                        registry: Chains.Registry, derive: string -> Result<string, string>,
                                        foreign: Dispatch.Foreign, e: string)
    requires Consistent(s)
    requires ev.topic in s.sessions && Dispatch.IsSigningOrExecutionMethod(ev.rpcMethod)
    requires !Js.Nullish(ev.params)
    requires Answer(s, ev, registry, derive, foreign).Ok?
    ensures var (s', o) := OnSessionRequestStep(s, ev, proposedAt, settledAt, registry, derive, foreign, RequestFaults(Pass, Pass, Pass, Fail(e)));
      var v := Answer(s, ev, registry, derive, foreign).value;
      && o == Pass
      && Ledger.Valid(s'.ledger)
      && Ledger.RowFor(s'.ledger.rows, ev.topic, ev.id).Some?
      && var row := Ledger.RowFor(s'.ledger.rows, ev.topic, ev.id).value;
      && row.status == Failed && row.error == Some(e) && row.params == ev.params
      && (!v.Undefined? ==> row.result == Some(v))
      && s'.trace == s.trace + [RespondSessionRequest(ev.topic, RpcResult(ev.id, v)),
                                RespondSessionRequest(ev.topic, RpcError(ev.id, REQUEST_FAILED_CODE, e))]
  {
    var v := Answer(s, ev, registry, derive, foreign).value;
    var proposed := RequestOp(ev, Proposed, proposedAt, None, None);
    var succeeded := RequestOp(ev, Succeeded, settledAt, Js.Defined(v), None);
    var failed := RequestOp(ev, Failed, settledAt, None, Some(e));
    UndeliveredResultUnfolds(s, ev, proposedAt, settledAt, registry, derive, foreign, e);
    var l1 := Ledger.Append(s.ledger, ev.topic, proposed, proposedAt);
    Ledger.AppendValid(s.ledger, ev.topic, proposed, proposedAt);
    Ledger.AppendLastWriteWins(l1, ev.topic, succeeded, failed, settledAt, settledAt);
    var before := Ledger.KeyRow(l1, ev.topic, succeeded, settledAt);
    assert before.result == (if succeeded.result.Some? then succeeded.result else before.result);
  }

  // ---- The table constraints ----

  lemma AppendOpKeepsConsistent(s: State, topic: string, op: Ledger.Operation, now: int, fault: Outcome<string>)
    requires Consistent(s)
    ensures Consistent(AppendOp(s, topic, op, now, fault).0)
  {
    Ledger.AppendValid(s.ledger, topic, op, now);
  }

  lemma RequestFailedKeepsConsistent(s: State, ev: Dispatch.Request, message: string, at: int, fault: Outcome<string>)
    requires Consistent(s)
    ensures Consistent(RequestFailed(s, ev, message, at, fault).0)
  {
    AppendOpKeepsConsistent(s, ev.topic, RequestOp(ev, Failed, at, None, Some(message)), at, fault);
  }

  /** Every handler keeps the table constraints. */
  lemma HandlersKeepConsistent(s: State)
    requires Consistent(s)
    ensures forall owner, uri, topic, now, derive, walletReady, paired ::
      Consistent(CreateWalletSessionStep(s, owner, uri, topic, now, derive, walletReady, paired).0)
    ensures forall p, now, registry, derive, approve, hostOf, sessionFault ::
      Consistent(OnSessionProposalStep(s, p, now, registry, derive, approve, hostOf, sessionFault))
    ensures forall topic :: Consistent(OnSessionDeleteStep(s, topic))
  {
    forall p, now, registry, derive, approve, hostOf, sessionFault
      ensures Consistent(OnSessionProposalStep(s, p, now, registry, derive, approve, hostOf, sessionFault))
    {
      ProposalKeepsConsistent(s, p, now, registry, derive, approve, hostOf, sessionFault);
    }
  }

  lemma ProposalKeepsConsistent(s: State, p: Proposal, now: int, registry: Chains.Registry,
                                derive: string -> Result<string, string>, approve: Result<string, string>,
                                hostOf: string -> Option<string>, sessionFault: Outcome<string>)
    requires Consistent(s)
    ensures Consistent(OnSessionProposalStep(s, p, now, registry, derive, approve, hostOf, sessionFault))
  {
    if Truthy(p.pairingTopic) && Pending.Lookup(s.pending, p.pairingTopic.value, now).Some? {
      var s1 := s.(pending := Pending.Sweep(s.pending, now));
      var rec := Pending.Lookup(s.pending, p.pairingTopic.value, now).value;
      ApproveKeepsConsistent(s1, p, rec, now, registry, derive, approve, hostOf, sessionFault);
    }
  }

  lemma ApproveKeepsConsistent(s: State, p: Proposal, rec: Pending.PendingRecord, now: int, registry: Chains.Registry,
                               derive: string -> Result<string, string>, approve: Result<string, string>,
                               hostOf: string -> Option<string>, sessionFault: Outcome<string>)
    requires Consistent(s) && p.pairingTopic.Some?
    ensures Consistent(ApproveProposal(s, p, rec, now, registry, derive, approve, hostOf, sessionFault).0)
  {
    match derive(rec.owner)
    case Err(_) =>
    case Ok(address) =>
      var ids := Chains.ResolveApprovedChainIds(p.requiredChains, p.optionalChains, rec.defaultChainId, registry);
      if |ids| > 0 && approve.Ok? {
        var s1 := Call(s, ApproveSession(p.id, ApprovedNamespace(ids, address)));
        var record := Sessions.SessionRecord(rec.owner, address, ExtractDomain(p.proposerUrl, hostOf), ids[0]);
        SetSessionKeepsConsistent(s1, approve.value, record, now, sessionFault);
      }
  }

  lemma SetSessionKeepsConsistent(s: State, topic: string, rec: Sessions.SessionRecord, now: int, fault: Outcome<string>)
    requires Consistent(s)
    ensures Consistent(SetSession(s, topic, rec, now, fault).0)
  {
    if IsInt32(rec.defaultChainId) {
      Sessions.UpsertFitsColumns(s.sessions, topic, rec, now);
    }
  }

  lemma RequestKeepsConsistent(s: State, ev: Dispatch.Request, proposedAt: int, settledAt: int,
                               registry: Chains.Registry, derive: string -> Result<string, string>,
                               foreign: Dispatch.Foreign, faults: RequestFaults)
    requires Consistent(s)
    ensures Consistent(OnSessionRequestStep(s, ev, proposedAt, settledAt, registry, derive, foreign, faults).0)
  {
    if ev.topic in s.sessions {
      var record := Sessions.Lookup(s.sessions, ev.topic).value;
      var s1 := s;
      if Dispatch.IsSigningOrExecutionMethod(ev.rpcMethod) {
        AppendOpKeepsConsistent(s, ev.topic, RequestOp(ev, Proposed, proposedAt, None, None), proposedAt, faults.proposed);
        s1 := AppendOp(s, ev.topic, RequestOp(ev, Proposed, proposedAt, None, None), proposedAt, faults.proposed).0;
      }
      RequestAttemptKeepsConsistent(s1, ev, record, settledAt, registry, derive, foreign, faults);
    }
  }

  lemma RequestAttemptKeepsConsistent(s: State, ev: Dispatch.Request, record: Sessions.SessionRecord, settledAt: int,
                                      registry: Chains.Registry, derive: string -> Result<string, string>,
                                      foreign: Dispatch.Foreign, faults: RequestFaults)
    requires Consistent(s)
    ensures Consistent(RequestAttempt(s, ev, record, settledAt, registry, derive, foreign, faults).0)
  {
    var answer := match derive(record.owner)
      case Err(e) => Err(e)
      case Ok(address) => Dispatch.HandleSessionRequest(ev, Dispatch.Signer(address, record.defaultChainId), registry, foreign);
    match answer
    case Err(e) => RequestFailedKeepsConsistent(s, ev, e, settledAt, faults.failed);
    case Ok(v) =>
      if Dispatch.IsSigningOrExecutionMethod(ev.rpcMethod) {
        var op := RequestOp(ev, Succeeded, settledAt, Js.Defined(v), None);
        AppendOpKeepsConsistent(s, ev.topic, op, settledAt, faults.succeeded);
        var (s1, o) := AppendOp(s, ev.topic, op, settledAt, faults.succeeded);
        if o.Fail? {
          RequestFailedKeepsConsistent(s1, ev, o.error, settledAt, faults.failed);
        } else {
          RespondResultKeepsConsistent(s1, ev, v, settledAt, faults);
        }
      } else {
        RespondResultKeepsConsistent(s, ev, v, settledAt, faults);
      }
  }

  lemma RespondResultKeepsConsistent(s: State, ev: Dispatch.Request, v: Js.Value, at: int, faults: RequestFaults)
    requires Consistent(s)
    ensures Consistent(RespondResult(s, ev, v, at, faults).0)
  {
    if faults.responded.Fail? {
      RequestFailedKeepsConsistent(Respond(s, ev, RpcResult(ev.id, v)), ev, faults.responded.error, at, faults.failed);
    }
  }
}
