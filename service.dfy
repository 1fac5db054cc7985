/** The signer service as an object: the three tables and the engine call log are
    its fields, the store operations and the handlers are its methods, and each
    method is proved to make exactly the transition its lifecycle function describes
    while keeping the table constraints. */
module Service {
  import opened Wrappers
  import opened Schema
  import Js
  import Chains
  import Pending
  import Sessions
  import Ledger
  import Dispatch
  import opened Lifecycle
  import LifecycleProperties

  class WalletConnectSigner {
    var pending: PendingTable
    var sessions: SessionTable
    var ledger: Ledger.Ledger
    var trace: seq<EngineCall>

    function Snapshot(): State
      reads this
    {
      State(pending, sessions, ledger, trace)
    }

    predicate Valid()
      reads this
    {
      Consistent(Snapshot())
    }

    constructor ()
      ensures Snapshot() == Initial
      ensures Valid()
    {
      pending := map[];
      sessions := map[];
      ledger := Ledger.Empty;
      trace := [];
    }

    // ---- Pending store ----

    method SetPendingConnection(topic: string, rec: Pending.PendingRecord, now: int)
      modifies this
      ensures pending == Pending.Upsert(old(pending), topic, rec, now)
      ensures sessions == old(sessions) && ledger == old(ledger) && trace == old(trace)
    {
      pending := Pending.Upsert(pending, topic, rec, now);
    }

    /** Deletes the expired rows, then reads the topic's row. */
    method GetPendingConnection(topic: string, now: int) returns (r: Option<Pending.PendingRecord>)
      modifies this
      ensures (Snapshot(), r) == GetPending(old(Snapshot()), topic, now)
    {
      Pending.SweepPreservesLookup(pending, topic, now);
      pending := Pending.Sweep(pending, now);
      r := Pending.Lookup(pending, topic, now);
    }

    method DeletePendingConnection(topic: string)
      modifies this
      ensures pending == Pending.Delete(old(pending), topic)
      ensures sessions == old(sessions) && ledger == old(ledger) && trace == old(trace)
    {
      pending := Pending.Delete(pending, topic);
    }

    // ---- Session registry ----

    method SetSessionSigner(topic: string, rec: Sessions.SessionRecord, now: int, fault: Outcome<string>) returns (o: Outcome<string>)
      modifies this
      ensures (Snapshot(), o) == SetSession(old(Snapshot()), topic, rec, now, fault)
    {
      if !IsInt32(rec.defaultChainId) {
        return Fail(IntegerOutOfRange);
      }
      if fault.Fail? {
        return fault;
      }
      sessions := Sessions.Upsert(sessions, topic, rec, now);
      o := Pass;
    }

    method GetSessionSigner(topic: string) returns (r: Option<Sessions.SessionRecord>)
      ensures r.Some? <==> topic in sessions
      ensures r.Some? ==>
        && r.value.owner == sessions[topic].owner && r.value.address == sessions[topic].address
        && r.value.domain == sessions[topic].domain && r.value.defaultChainId == sessions[topic].defaultChainId
    {
      r := Sessions.Lookup(sessions, topic);
    }

    method DeleteSessionSigner(topic: string)
      modifies this
      ensures sessions == Sessions.Delete(old(sessions), topic)
      ensures pending == old(pending) && ledger == old(ledger) && trace == old(trace)
    {
      sessions := Sessions.Delete(sessions, topic);
    }

    // ---- Operation ledger ----

    /** The upsert and the two trims, in one transaction. */
    method AppendOperation(topic: string, op: Ledger.Operation, now: int, fault: Outcome<string>) returns (o: Outcome<string>)
      modifies this
      ensures (Snapshot(), o) == AppendOp(old(Snapshot()), topic, op, now, fault)
    {
      if Js.Nullish(op.params) {
        return Fail(ParamsRequired);
      }
      if fault.Fail? {
        return fault;
      }
      ledger := Ledger.Append(ledger, topic, op, now);
      o := Pass;
    }

    // ---- Handlers ----

    method CreateWalletSession(owner: string, uri: string, topic: string, now: int,
                               derive: string -> Result<string, string>,
                               walletReady: Outcome<string>, paired: Outcome<string>) returns (r: Result<Kickoff, string>)
      requires Valid()
      modifies this
      ensures (Snapshot(), r) == CreateWalletSessionStep(old(Snapshot()), owner, uri, topic, now, derive, walletReady, paired)
      ensures Valid()
    {
      LifecycleProperties.HandlersKeepConsistent(Snapshot());
      var found := GetPendingConnection(topic, now);
      if found.Some? {
        return Err(AlreadyPending(topic));
      }
      var account := derive(owner);
      if account.Err? {
        return Err(account.error);
      }
      SetPendingConnection(topic, Pending.PendingRecord(owner, 1), now);
      if walletReady.Fail? {
        return Err(walletReady.error);
      }
      trace := trace + [Pair(uri)];
      if paired.Fail? {
        DeletePendingConnection(topic);
        return Err(paired.error);
      }
      r := Ok(Kickoff(topic, account.value, "pairing_started"));
    }

    /** The `try` body of the proposal handler. */
    method ApprovePending(p: Proposal, rec: Pending.PendingRecord, now: int, registry: Chains.Registry,
                          derive: string -> Result<string, string>, approve: Result<string, string>,
                          hostOf: string -> Option<string>, sessionFault: Outcome<string>) returns (o: Outcome<string>)
      requires p.pairingTopic.Some?
      modifies this
      ensures (Snapshot(), o) == ApproveProposal(old(Snapshot()), p, rec, now, registry, derive, approve, hostOf, sessionFault)
    {
      var account := derive(rec.owner);
      if account.Err? {
        return Fail(account.error);
      }
      var ids := Chains.ResolveApprovedChainIds(p.requiredChains, p.optionalChains, rec.defaultChainId, registry);
      if |ids| == 0 {
        return Fail(NoSupportedChains);
      }
      trace := trace + [ApproveSession(p.id, ApprovedNamespace(ids, account.value))];
      if approve.Err? {
        return Fail(approve.error);
      }
      var record := Sessions.SessionRecord(rec.owner, account.value, ExtractDomain(p.proposerUrl, hostOf), ids[0]);
      o := SetSessionSigner(approve.value, record, now, sessionFault);
      if o.Fail? {
        return;
      }
      DeletePendingConnection(p.pairingTopic.value);
    }

    method OnSessionProposal(p: Proposal, now: int, registry: Chains.Registry,
                             derive: string -> Result<string, string>, approve: Result<string, string>,
                             hostOf: string -> Option<string>, sessionFault: Outcome<string>)
      requires Valid()
      modifies this
      ensures Snapshot() == OnSessionProposalStep(old(Snapshot()), p, now, registry, derive, approve, hostOf, sessionFault)
      ensures Valid()
    {
      LifecycleProperties.HandlersKeepConsistent(Snapshot());
      var found: Option<Pending.PendingRecord> := None;
      if Truthy(p.pairingTopic) {
        found := GetPendingConnection(p.pairingTopic.value, now);
      }
      if found.None? {
        trace := trace + [RejectSession(p.id, USER_REJECTED)];
        return;
      }
      var attempt := ApprovePending(p, found.value, now, registry, derive, approve, hostOf, sessionFault);
      if attempt.Fail? {
        if Truthy(p.pairingTopic) {
          DeletePendingConnection(p.pairingTopic.value);
        }
        trace := trace + [RejectSession(p.id, USER_REJECTED)];
      }
    }

    /** The `catch` of the request handler. */
    method RecordFailure(ev: Dispatch.Request, message: string, at: int, fault: Outcome<string>) returns (o: Outcome<string>)
      modifies this
      ensures (Snapshot(), o) == RequestFailed(old(Snapshot()), ev, message, at, fault)
    {
      if Dispatch.IsSigningOrExecutionMethod(ev.rpcMethod) {
        o := AppendOperation(ev.topic, RequestOp(ev, Failed, at, None, Some(message)), at, fault);
        if o.Fail? {
          return;
        }
      }
      trace := trace + [RespondSessionRequest(ev.topic, RpcError(ev.id, REQUEST_FAILED_CODE, message))];
      o := Pass;
    }

    /** The `try` body of the request handler. */
    method AttemptRequest(ev: Dispatch.Request, record: Sessions.SessionRecord, settledAt: int,
                          registry: Chains.Registry, derive: string -> Result<string, string>,
                          foreign: Dispatch.Foreign, faults: RequestFaults) returns (o: Outcome<string>)
      modifies this
      ensures (Snapshot(), o) == RequestAttempt(old(Snapshot()), ev, record, settledAt, registry, derive, foreign, faults)
    {
      var account := derive(record.owner);
      if account.Err? {
        o := RecordFailure(ev, account.error, settledAt, faults.failed);
        return;
      }
      var answer := Dispatch.HandleSessionRequest(ev, Dispatch.Signer(account.value, record.defaultChainId), registry, foreign);
      if answer.Err? {
        o := RecordFailure(ev, answer.error, settledAt, faults.failed);
        return;
      }
      if Dispatch.IsSigningOrExecutionMethod(ev.rpcMethod) {
        var stored := AppendOperation(ev.topic, RequestOp(ev, Succeeded, settledAt, Js.Defined(answer.value), None), settledAt, faults.succeeded);
        if stored.Fail? {
          o := RecordFailure(ev, stored.error, settledAt, faults.failed);
          return;
        }
      }
      trace := trace + [RespondSessionRequest(ev.topic, RpcResult(ev.id, answer.value))];
      if faults.responded.Fail? {
        o := RecordFailure(ev, faults.responded.error, settledAt, faults.failed);
        return;
      }
      o := Pass;
    }

    /** `Fail` is an error that escapes the handler. */
    method OnSessionRequest(ev: Dispatch.Request, proposedAt: int, settledAt: int,
                            registry: Chains.Registry, derive: string -> Result<string, string>,
                            foreign: Dispatch.Foreign, faults: RequestFaults) returns (o: Outcome<string>)
      requires Valid()
      modifies this
      ensures (Snapshot(), o) == OnSessionRequestStep(old(Snapshot()), ev, proposedAt, settledAt, registry, derive, foreign, faults)
      ensures Valid()
    {
      LifecycleProperties.RequestKeepsConsistent(Snapshot(), ev, proposedAt, settledAt, registry, derive, foreign, faults);
      var record := GetSessionSigner(ev.topic);
      if record.None? {
        trace := trace + [RespondSessionRequest(ev.topic, RpcError(ev.id, UNKNOWN_SESSION_CODE, UnknownSession))];
        return Pass;
      }
      if Dispatch.IsSigningOrExecutionMethod(ev.rpcMethod) {
        o := AppendOperation(ev.topic, RequestOp(ev, Proposed, proposedAt, None, None), proposedAt, faults.proposed);
        if o.Fail? {
          return;
        }
      }
      o := AttemptRequest(ev, record.value, settledAt, registry, derive, foreign, faults);
    }

    method OnSessionDelete(topic: string)
      requires Valid()
      modifies this
      ensures Snapshot() == OnSessionDeleteStep(old(Snapshot()), topic)
      ensures Valid()
    {
      LifecycleProperties.HandlersKeepConsistent(Snapshot());
      DeleteSessionSigner(topic);
    }
  }
}
