/** The request dispatcher: the method and event tables the session is approved for,
    the payload conversions, the wallet client for a chain, and the closed table that
    turns one session request into a signature, an account list or an RPC call. */
module Dispatch {
  import opened Wrappers
  import Text
  import Js
  import Chains

  /** The methods an approved session offers, in the order they are announced. */
  const EIP155_METHODS: seq<string> := [
    "eth_sendTransaction",
    "eth_signTransaction",
    "eth_sign",
    "personal_sign",
    "eth_signTypedData",
    "eth_signTypedData_v4",
    "eth_accounts",
    "eth_requestAccounts"
  ]

  const EIP155_EVENTS: seq<string> := ["accountsChanged", "chainChanged"]

  /** The methods that sign or execute, whose requests are recorded in the ledger. */
  const SIGNING_OR_EXECUTION_METHODS: set<string> := {
    "personal_sign",
    "eth_sign",
    "eth_signTypedData",
    "eth_signTypedData_v4",
    "eth_signTransaction",
    "eth_sendTransaction"
  }

  predicate IsSigningOrExecutionMethod(m: string) {
    m in SIGNING_OR_EXECUTION_METHODS
  }

  // ---- Payloads ----

  /** `0x` followed by hexadecimal digits only (possibly none). */
  predicate IsHex(s: string) {
    |s| >= 2 && s[..2] == "0x" &&
    forall i :: 2 <= i < |s| ==> ('0' <= s[i] <= '9' || 'a' <= s[i] <= 'f' || 'A' <= s[i] <= 'F')
  }

  /** What is handed to the signer: text to sign as is, or a hex string whose bytes
      are signed (`{ raw: hexToBytes(hex) }`). */
  datatype SignableMessage = Text(text: string) | Raw(hex: string)

  const InvalidSigningPayload := "invalid signing payload"

  /** `toSignableMessage`: a string payload is signed as raw bytes when it is a hex
      string and as text otherwise; anything that is not a string is refused. */
  function ToSignableMessage(raw: Js.Value): (r: Result<SignableMessage, string>)
    ensures r.Err? <==> !raw.Str?
    ensures r.Err? ==> r.error == InvalidSigningPayload
    ensures r.Ok? ==> (r.value.Raw? <==> IsHex(raw.s))
    ensures r.Ok? && r.value.Raw? ==> r.value.hex == raw.s
    ensures r.Ok? && r.value.Text? ==> r.value.text == raw.s
  {
    match raw
    case Str(s) => Ok(if IsHex(s) then Raw(s) else Text(s))
    case _ => Err(InvalidSigningPayload)
  }

  // ---- The wallet client ----

  /** A wallet client bound to one chain and its first HTTP RPC endpoint. */
  datatype WalletClient = WalletClient(chainId: int, rpcUrl: string)

  function NoViemChain(chainId: int): string {
    "unsupported chain " + Text.IntToString(chainId) + ": no viem default RPC available"
  }

  function NoHttpRpcUrl(chainId: int): string {
    "unsupported chain " + Text.IntToString(chainId) + ": no default HTTP RPC URL"
  }

  /** `makeWalletClient`: the chain must be known, and its first HTTP URL must be
      present and non-empty. */
  function MakeWalletClient(registry: Chains.Registry, chainId: int): (r: Result<WalletClient, string>)
    ensures chainId !in registry <==> r == Err(NoViemChain(chainId))
    ensures chainId in registry && (|registry[chainId]| == 0 || registry[chainId][0] == "") <==> r == Err(NoHttpRpcUrl(chainId))
    ensures r.Ok? <==> chainId in registry && |registry[chainId]| > 0 && registry[chainId][0] != ""
    ensures r.Ok? ==> r.value == WalletClient(chainId, registry[chainId][0])
  {
    WalletClientErrorsDiffer(chainId);
    if chainId !in registry then Err(NoViemChain(chainId))
    else
      var urls := registry[chainId];
      if |urls| == 0 || urls[0] == "" then Err(NoHttpRpcUrl(chainId))
      else Ok(WalletClient(chainId, urls[0]))
  }

  lemma WalletClientErrorsDiffer(chainId: int)
    ensures NoViemChain(chainId) != NoHttpRpcUrl(chainId)
  {
    var n := |Text.IntToString(chainId)|;
    assert |NoViemChain(chainId)| == 18 + n + 31;
    assert |NoHttpRpcUrl(chainId)| == 18 + n + 25;
  }

  // ---- Dispatch ----

  /** A session request as the dispatcher sees it. */
  datatype Request = Request(id: int, topic: string, rpcMethod: string, chainId: Option<string>, params: Js.Value)

  /** The signer a session resolves to: the derived account and the session's default chain. */
  datatype Signer = Signer(address: string, defaultChainId: int)

  /** The collaborators behind the dispatcher, each of which may throw: message and
      typed-data signing by the account with the given address, JSON parsing, and the
      wallet client's request to its RPC endpoint. */
  datatype Foreign = Foreign(
    signMessage: (string, SignableMessage) -> Result<Js.Value, string>,
    signTypedData: (string, Js.Value) -> Result<Js.Value, string>,
    parseJson: string -> Result<Js.Value, string>,
    rpcRequest: (WalletClient, string, Js.Value) -> Result<Js.Value, string>)

  /** The branch of the dispatcher a method takes; `SignMessage(i)` signs `params[i]`. */
  datatype Route = Accounts | SignMessage(index: nat) | SignTypedData | Transaction | Unsupported

  function RouteOf(m: string): Route {
    if m == "eth_accounts" || m == "eth_requestAccounts" then Accounts
    else if m == "personal_sign" then SignMessage(0)
    else if m == "eth_sign" then SignMessage(1)
    else if m == "eth_signTypedData_v4" || m == "eth_signTypedData" then SignTypedData
    else if m == "eth_signTransaction" || m == "eth_sendTransaction" then Transaction
    else Unsupported
  }

  /** The dispatcher's branches agree with the two method tables: a method is handled
      exactly when the session offers it, and it signs or executes exactly when it is
      one of the recorded methods. */
  lemma RouteAgreesWithTables(m: string)
    ensures RouteOf(m) != Unsupported <==> m in EIP155_METHODS
    ensures (RouteOf(m) != Unsupported && RouteOf(m) != Accounts) <==> IsSigningOrExecutionMethod(m)
  {
  }

  function UnsupportedMethod(m: string): string {
    "unsupported WalletConnect method: " + m
  }

  /** The chain a request runs on: the one it names, else the session's default. */
  function RequestChain(req: Request, signer: Signer): int {
    Chains.ExtractChainId(req.chainId).GetOr(signer.defaultChainId)
  }

  /** The transaction sent: `params[0]` spread into a fresh object, `from` replaced by
      the signer's address. */
  function TransactionFields(first: Js.Value, address: string): (tx: map<string, Js.Value>)
    ensures "from" in tx && tx["from"] == Js.Str(address)
    ensures forall k :: k in tx <==> k == "from" || k in Js.Spread(first)
    ensures forall k :: k in Js.Spread(first) && k != "from" ==> tx[k] == Js.Spread(first)[k]
  {
    Js.Spread(first)["from" := Js.Str(address)]
  }

  /** The typed data to sign: `params[1]`, parsed first when it is a string. */
  function TypedData(v: Js.Value, foreign: Foreign): Result<Js.Value, string> {
    if v.Str? then foreign.parseJson(v.s) else Ok(v)
  }

  /** The message branch: sign `params[i]`. */
  function SignMessageAt(params: Js.Value, i: nat, signer: Signer, foreign: Foreign): Result<Js.Value, string> {
    match Js.Index(params, i)
    case Err(e) => Err(e)
    case Ok(raw) =>
      match ToSignableMessage(raw)
      case Err(e) => Err(e)
      case Ok(msg) => foreign.signMessage(signer.address, msg)
  }

  /** The typed-data branch: sign `params[1]`, parsed first when it is a string. */
  function SignTypedDataAt(params: Js.Value, signer: Signer, foreign: Foreign): Result<Js.Value, string> {
    match Js.Index(params, 1)
    case Err(e) => Err(e)
    case Ok(v) =>
      match TypedData(v, foreign)
      case Err(e) => Err(e)
      case Ok(data) => foreign.signTypedData(signer.address, data)
  }

  /** The transaction branch: a wallet client for the request's chain, then the
      request with the overridden sender. */
  function SendTransaction(req: Request, signer: Signer, registry: Chains.Registry, foreign: Foreign): Result<Js.Value, string> {
    match MakeWalletClient(registry, RequestChain(req, signer))
    case Err(e) => Err(e)
    case Ok(client) =>
      match Js.Index(req.params, 0)
      case Err(e) => Err(e)
      case Ok(first) =>
        foreign.rpcRequest(client, req.rpcMethod, Js.Arr([Js.Obj(TransactionFields(first, signer.address))]))
  }

  /** `handleSessionRequest`. */
  function HandleSessionRequest(req: Request, signer: Signer, registry: Chains.Registry, foreign: Foreign): Result<Js.Value, string> {
    match RouteOf(req.rpcMethod)
    case Accounts => Ok(Js.Arr([Js.Str(signer.address)]))
    case SignMessage(i) => SignMessageAt(req.params, i, signer, foreign)
    case SignTypedData => SignTypedDataAt(req.params, signer, foreign)
    case Transaction => SendTransaction(req, signer, registry, foreign)
    case Unsupported => Err(UnsupportedMethod(req.rpcMethod))
  }

  /** Account requests answer with the signer's address and nothing else. */
  lemma AccountsAnswerAddress(req: Request, signer: Signer, registry: Chains.Registry, foreign: Foreign)
    requires req.rpcMethod == "eth_accounts" || req.rpcMethod == "eth_requestAccounts"
    ensures HandleSessionRequest(req, signer, registry, foreign) == Ok(Js.Arr([Js.Str(signer.address)]))
  {
  }

  /** `personal_sign` signs `params[0]` and `eth_sign` signs `params[1]`; a payload that
      is not a string is refused before anything is signed. */
  lemma MessageSigningPayload(req: Request, signer: Signer, registry: Chains.Registry, foreign: Foreign, items: seq<Js.Value>)
    requires req.rpcMethod == "personal_sign" || req.rpcMethod == "eth_sign"
    requires req.params == Js.Arr(items)
    ensures var i := if req.rpcMethod == "personal_sign" then 0 else 1;
      var payload := if i < |items| then items[i] else Js.Undefined;
      && (!payload.Str? ==> HandleSessionRequest(req, signer, registry, foreign) == Err(InvalidSigningPayload))
      && (payload.Str? && IsHex(payload.s) ==>
            HandleSessionRequest(req, signer, registry, foreign) == foreign.signMessage(signer.address, Raw(payload.s)))
      && (payload.Str? && !IsHex(payload.s) ==>
            HandleSessionRequest(req, signer, registry, foreign) == foreign.signMessage(signer.address, Text(payload.s)))
  {
  }

  /** A transaction runs on the request's chain when it names a valid `eip155` one and
      on the session's default chain otherwise, fails when that chain has no usable
      RPC endpoint, and is sent with `from` replaced by the signer's address. */
  lemma TransactionRouting(req: Request, signer: Signer, registry: Chains.Registry, foreign: Foreign)
    requires req.rpcMethod == "eth_signTransaction" || req.rpcMethod == "eth_sendTransaction"
    ensures var chain := RequestChain(req, signer);
      && (Chains.ExtractChainId(req.chainId).Some? ==> chain == Chains.ExtractChainId(req.chainId).value)
      && (Chains.ExtractChainId(req.chainId).None? ==> chain == signer.defaultChainId)
      && (MakeWalletClient(registry, chain).Err? ==>
            HandleSessionRequest(req, signer, registry, foreign) == Err(MakeWalletClient(registry, chain).error))
      && (MakeWalletClient(registry, chain).Ok? && Js.Index(req.params, 0).Ok? ==>
            HandleSessionRequest(req, signer, registry, foreign) ==
              foreign.rpcRequest(WalletClient(chain, registry[chain][0]), req.rpcMethod,
                Js.Arr([Js.Obj(TransactionFields(Js.Index(req.params, 0).value, signer.address))])))
  {
  }

  /** Any method outside the table fails, naming the method, without calling anything. */
  lemma UnsupportedMethodFails(req: Request, signer: Signer, registry: Chains.Registry, foreign: Foreign)
    requires req.rpcMethod !in EIP155_METHODS
    ensures HandleSessionRequest(req, signer, registry, foreign) == Err(UnsupportedMethod(req.rpcMethod))
  {
    RouteAgreesWithTables(req.rpcMethod);
  }
}
