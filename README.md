# WalletConnect signer service, modelled in Dafny

This project models the core of a WalletConnect signer service: a server-side wallet
that pairs with decentralised apps over WalletConnect, approves their session
proposals for the `eip155` chains it can reach, and answers their signing and transaction
requests with a key derived for the owner. The model covers four parts of the service.
Each part has proved properties.

- **Three tables.**
  - The pending connections: a pairing topic with its owner and default chain, valid for 300 seconds.
  - The session registry: a session topic with owner, address, domain and default chain.
  - The operation ledger: one row per (topic, request id), capped at 500 rows globally and per topic.
- **Handlers and dispatcher.**
  - The pairing kickoff, the proposal handler and the request handler.
  - The session-deletion handler.
  - The closed dispatcher that turns a request into an account list, a signature or an RPC call.
- **Pure helpers.** Chain-id parsing (CAIP-2 `eip155:<reference>`, with the reference read as a JavaScript double), chain approval, the approved namespace with its CAIP-10 accounts, payload conversion and the wallet client's chain check.
- **Replay-nonce store** of the request-signature middleware.

## How the model is laid out

| file | module | contents |
|---|---|---|
| wrappers.dfy | Wrappers | `Option`, `Result`, `Outcome`, and JavaScript truthiness of an optional string |
| text.dfy | Text | digit strings, decimal formatting, `split` on one character, with the lemmas `split` needs |
| js.dfy | Js | the opaque JSON-like values the service passes through: indexing and object spread |
| schema.dfy | Schema | the three table row types, the int4 range and the key constraints |
| numbers.dfy | Numbers | the double `Number()` gives a digit string: nearest, ties to even, exact up to 2^53, infinite from 2^1024 |
| chains.dfy, chain_examples.dfy | Chains, ChainExamples | `extractChainId`, `[...new Set(..)]`, `resolveApprovedChainIds`, and worked cases |
| pending.dfy | Pending | the pending-connection store as functions on its table |
| registry.dfy | Sessions | the session registry as functions on its table |
| ledger.dfy | Ledger | the keyed upsert, the two trims and `appendOperation` as functions on the ledger |
| listing.dfy | Listing | `listWalletSessions` (a method with a loop) and `listWalletSessionOperations` |
| dispatch.dfy | Dispatch | method tables, `toSignableMessage`, `makeWalletClient`, `handleSessionRequest` |
| lifecycle.dfy | Lifecycle | each handler as a transition of the whole state: the three tables plus the engine call trace |
| lifecycle_props.dfy | LifecycleProperties | what the handlers guarantee, and that every handler keeps the table constraints |
| service.dfy | Service | class `WalletConnectSigner` with the tables as fields; each store operation and handler is a method proved to make its transition |
| nonces.dfy | Nonces | class `NonceStore` with the `usedNonces` map as a field, and `consume` |

**Outside collaborators become parameters.** Each call outside the service is one of these:

- The WalletConnect engine. Its `pair`, `approveSession` and `rejectSession` calls and its request responses are appended to a trace of `EngineCall`s. Whether it succeeds is a parameter.
- Key derivation: `derive`, from owner to address or error.
- Chain lookup: the viem chain lookup is a `Registry` (a map from chain id to its HTTP RPC URLs).
- URL parsing: the URL parser behind `extractDomain` is `hostOf`.
- The signer's `signMessage`/`signTypedData`, `JSON.parse` and the wallet client's RPC request. These are the function fields of `Dispatch.Foreign`.
- Database failures: `Outcome` parameters, where `Fail` means the statement threw.
- The clock: `now`, or `proposedAt` and `settledAt` for the request handler's two readings.

**Two behaviours of the persistence library are modelled because the results depend on them.**

- **Undefined values are skipped on update.** An `undefined` value in an `onConflictDoUpdate` `set` clause is left out of the update. So an undefined domain, params, result or error keeps the stored value.
- **Database refusals.**
  - Undefined `params` are sent as `default` and `null` params as NULL; either is NULL for the `not null` params column. The database checks that before it looks for a conflicting row, so `appendOperation` with `undefined` or `null` params fails whether or not the key is stored.
  - A handler result of `null` is stored as SQL NULL, and the operations listing's `result ?? undefined` reports it as no result.
  - A default chain outside the int4 range makes `setSessionSigner` fail.

**Behaviours the code has, modelled as written and each stated by a lemma.**

- `ChainExamples.DedupBeforeParsingExample`: chain approval removes duplicates by comparing the raw strings, before parsing. So `"eip155:1"` and `"eip155:01"` both approve chain 1, and chain 1 appears twice.
- `LifecycleProperties.KickoffWalletFailureKeepsPending`: the engine is obtained after the pending row is written, outside the rollback. If that fails, the pending row stays.
- `LifecycleProperties.ProposalRejectionsAreUserRejected`: every rejection carries `USER_REJECTED`. That includes the rejection for a proposal with no usable chain.
- `LifecycleProperties.ProposedWriteFailureEscapes`: a failure of the `proposed` ledger write escapes the request handler, and no response is sent.
- `LifecycleProperties.ApprovedThenRejectedOnStoreFailure`: when the session store fails after the engine approved, the engine is sent a rejection after the approval.
- `Listing.ListedIdsNeedNotDescend`: the operations listing reports the request id as `id` but orders by the row id. So the reported ids need not descend.
- `Ledger.AppendLastWriteWins`: appending a key twice keeps the row's first id, and fields the second write leaves undefined keep their stored values.
- `LifecycleProperties.UndeliveredResultRecordedFailed`: the result response is sent inside the request handler's `try`. If its delivery throws, a transaction that was already executed is recorded `failed` and answered a second time with error 5001.
- `ChainExamples.ChainIdBeyondExactRange`: the chain reference is read as a double, so `eip155:9007199254740993` names chain 9007199254740992.


## Model

| member | source | states |
|---|---|---|
| Text.Split | runtime/src/services/walletConnectSigner.ts:681 | `split` on one character gives at least one part, no part holds the separator, and joining the parts with it gives the string back |
| Text.DecimalValueSnoc | runtime/src/services/walletConnectSigner.ts:687 | a digit string's value is ten times the value of its prefix plus its last digit |
| Text.SplitAtFirstSeparator | runtime/src/services/walletConnectSigner.ts:681 | `split` on a string whose first part has no separator yields that part followed by the split of the rest |
| Text.SplitWithoutSeparator | runtime/src/services/walletConnectSigner.ts:681 | `split` of a string without the separator is the one-element list of that string |
| Chains.IntegerValue | runtime/src/services/walletConnectSigner.ts:687-689 | only a digit string gives a value; it is the nearest double of its decimal value, `None` where that is infinite, and the exact value up to 2^53 |
| Chains.ExtractChainId | runtime/src/services/walletConnectSigner.ts:676-694 | an accepted chain id is positive |
| Chains.ExtractChainIdAccepts | runtime/src/services/walletConnectSigner.ts:676-694 | a string is accepted iff it is `eip155:` followed by a digit string of positive value whose nearest double is finite, and the result is that double |
| Chains.ExtractChainIdRoundTrip | runtime/src/services/walletConnectSigner.ts:676-694 | formatting an id from 1 to 2^53 as `eip155:<id>` and parsing it gives the id back |
| Chains.ExtractChainIdAt | runtime/src/services/walletConnectSigner.ts:676-694 | an `eip155:` string whose digit reference has a value from 1 to 2^53 parses to that value |
| Chains.ExtractChainIdOverflowRejected | runtime/src/services/walletConnectSigner.ts:687-691 | a digit reference of value 2^1024 or more is `Infinity`, which `Number.isInteger` refuses, so there is no chain id |
| Chains.FirstIndex | runtime/src/services/walletConnectSigner.ts:664 | the position of the first occurrence of an element |
| Chains.Dedup | runtime/src/services/walletConnectSigner.ts:664 | `[...new Set(s)]` keeps exactly the elements of `s`, each once |
| Chains.DedupKeepsFirstSeenOrder | runtime/src/services/walletConnectSigner.ts:664 | the distinct elements come in the order of their first occurrence |
| Chains.DedupOfDistinct | runtime/src/services/walletConnectSigner.ts:664 | a list without duplicates is left unchanged |
| Chains.ParsedChainIds | runtime/src/services/walletConnectSigner.ts:665-666 | the ids kept after `map(extractChainId)` and the `undefined` filter are positive |
| Chains.ParsedChainIdsAppend | runtime/src/services/walletConnectSigner.ts:665-666 | parsing a concatenation gives the parsed parts concatenated, so ids keep their candidates' order |
| Chains.ParsedChainIdsMembers | runtime/src/services/walletConnectSigner.ts:665-666 | an id is kept iff some candidate string parses to it |
| Chains.ResolvableIds | runtime/src/services/walletConnectSigner.ts:667 | the resolver filter keeps exactly the ids the registry knows, and no more ids than it is given |
| Chains.ResolvableIdsAppend | runtime/src/services/walletConnectSigner.ts:667 | the resolver filter of a concatenation is the filtered parts concatenated, so kept ids stay in order |
| Chains.CandidateFilterSingle | runtime/src/services/walletConnectSigner.ts:664-667 | one candidate contributes its id exactly when it parses and resolves, and nothing otherwise |
| Chains.CandidateFilterInOrder | runtime/src/services/walletConnectSigner.ts:664-667 | the approved ids of a concatenation of candidates are those of its parts, in order |
| Chains.FirstKeptQualifies | runtime/src/services/walletConnectSigner.ts:664-667 | the first kept id is that of a qualifying candidate before which no candidate qualifies |
| Chains.ResolveApprovedChainIds | runtime/src/services/walletConnectSigner.ts:655-674 | every approved id is one the registry knows, and the list is empty exactly when no candidate qualifies and the fallback does not resolve |
| Chains.DefaultChainIsFirstQualifying | runtime/src/services/walletConnectSigner.ts:655-674 | the first approved id, the session's default chain, is the id of a qualifying candidate, and no candidate seen before it qualifies |
| Chains.SeenBeforeDoesNotQualify | runtime/src/services/walletConnectSigner.ts:664 | when none of the first i distinct candidates qualifies, no candidate first seen before the i-th distinct one qualifies |
| Chains.ApprovedChainIdsSound | runtime/src/services/walletConnectSigner.ts:655-674 | every approved id is positive and resolvable; an id is approved iff a candidate names it and it resolves, or no candidate qualifies and it is the resolvable fallback |
| ChainExamples.RequiredBeforeOptionalExample | runtime/src/services/walletConnectSigner.ts:659-672 | required `eip155:1`, `eip155:999999` (unknown) and optional `eip155:137` approve `[1, 137]` |
| ChainExamples.DedupBeforeParsingExample | runtime/src/services/walletConnectSigner.ts:664-666 | `eip155:1` and `eip155:01` survive the raw-string dedup and approve chain 1 twice |
| ChainExamples.ThreeCandidates | runtime/src/services/walletConnectSigner.ts:659-672 | three distinct candidates of which the middle one does not resolve approve the outer two in order |
| ChainExamples.TwoCandidates | runtime/src/services/walletConnectSigner.ts:659-672 | two distinct resolvable candidates approve both in order |
| ChainExamples.ChainIdOne | runtime/src/services/walletConnectSigner.ts:676-694 | `eip155:1` parses to 1 |
| ChainExamples.ChainIdOneWithLeadingZero | runtime/src/services/walletConnectSigner.ts:676-694 | `eip155:01` parses to 1 |
| ChainExamples.ChainIdPolygon | runtime/src/services/walletConnectSigner.ts:676-694 | `eip155:137` parses to 137 |
| ChainExamples.ChainIdUnknown | runtime/src/services/walletConnectSigner.ts:676-694 | `eip155:999999` parses to 999999 |
| ChainExamples.ChainIdBeyondExactRange | runtime/src/services/walletConnectSigner.ts:687-693 | `eip155:9007199254740993` parses to 9007199254740992, as `Number` rounds 2^53 + 1 |
| ChainExamples.DecimalValueBeyondExactRange | runtime/src/services/walletConnectSigner.ts:687 | the digit string `9007199254740993` has that value |
| Numbers.ExponentBounds | runtime/src/services/walletConnectSigner.ts:687 | a value lies in the binade whose doubles are spaced by 2^Exponent |
| Numbers.RoundedSignificand | runtime/src/services/walletConnectSigner.ts:687 | the rounded multiple of the spacing is within half a spacing of the value |
| Numbers.SignificandBounds | runtime/src/services/walletConnectSigner.ts:687 | rounding keeps the value on its side of every multiple of the spacing |
| Numbers.NearestDouble | runtime/src/services/walletConnectSigner.ts:687 | `Number` of a digit string: exact up to 2^53; otherwise a significand of at most 2^53 times the spacing, within half a spacing of the value, positive for a positive value |
| Numbers.RoundedValueBounds | runtime/src/services/walletConnectSigner.ts:687 | the facts NearestDouble promises, about the rounded multiple |
| Numbers.NearestDoubleOverflows | runtime/src/services/walletConnectSigner.ts:687-689 | from 2^1024 on the value is `Infinity` |
| Numbers.NearestDoubleFinite | runtime/src/services/walletConnectSigner.ts:687-689 | below 2^1023 the value is finite |
| Numbers.RoundsPastSignificand | runtime/src/services/walletConnectSigner.ts:687 | 2^53 + 1 rounds to 2^53, a tie broken to the even significand |
| Pending.Upsert | runtime/src/services/walletConnectSigner.ts:482-499 | the topic holds the owner and chain with expiry `now + 300000` ms; every other topic is unchanged |
| Pending.Sweep | runtime/src/services/walletConnectSigner.ts:502-504 | exactly the rows expiring after `now` remain, unchanged |
| Pending.Lookup | runtime/src/services/walletConnectSigner.ts:506-520 | a record is found iff the topic's row expires after `now`, and it is that row's owner and chain |
| Pending.Delete | runtime/src/services/walletConnectSigner.ts:523-527 | the topic is gone and every other topic is unchanged |
| Pending.SweepPreservesLookup | runtime/src/services/walletConnectSigner.ts:501-521 | sweeping first does not change what the read sees, and leaves no expired row |
| Pending.TtlWindow | runtime/src/services/walletConnectSigner.ts:482-521 | a stored row is found exactly within 300 s of storing, with the stored record, and is swept from then on |
| Pending.OtherTopicsUntouched | runtime/src/services/walletConnectSigner.ts:482-527 | storing or deleting one topic leaves every other topic's lookup as it was |
| Sessions.Upsert | runtime/src/services/walletConnectSigner.ts:529-548 | the topic is added or overwritten and every other topic is unchanged |
| Sessions.Lookup | runtime/src/services/walletConnectSigner.ts:550-565 | a record is found iff the topic has a row, and it is that row's owner, address, domain and default chain |
| Sessions.Delete | runtime/src/services/walletConnectSigner.ts:567-569 | the topic is gone and every other topic is unchanged |
| Sessions.UpsertThenLookup | runtime/src/services/walletConnectSigner.ts:529-565 | the topic reads back the stored record, keeping the stored domain when the new one is undefined, and keeps its first `createdAt` |
| Sessions.OtherTopicsUntouched | runtime/src/services/walletConnectSigner.ts:529-569 | storing or deleting one topic leaves every other topic's record as it was; a deleted topic reads nothing |
| Sessions.UpsertFitsColumns | runtime/src/db/schema.ts:24 | a default chain in the int4 range keeps the table within its column types |
| Ledger.Upsert | runtime/src/services/walletConnectSigner.ts:573-596 | the insert or conflict update on (topic, requestId); its properties are UpsertSize, UpsertKeepsOrder, UpsertStoresKeyRow and UpsertOthersInPlace |
| Ledger.Overwrite | runtime/src/services/walletConnectSigner.ts:585-595 | the `set` clause: id, key and `createdAt` kept, undefined values skipped; stated by OverwriteSettled and AppendLastWriteWins |
| Ledger.TrimGlobal | runtime/src/services/walletConnectSigner.ts:598-606 | the global retention delete; TrimGlobalKeepsNewest states it keeps the 500 newest rows |
| Ledger.TrimTopic | runtime/src/services/walletConnectSigner.ts:608-619 | the per-topic retention delete; TrimTopicOfSmall and TrimTopicAfterGlobal state when it deletes nothing |
| Ledger.Append | runtime/src/services/walletConnectSigner.ts:571-621 | the upsert then both trims; its properties are AppendValid, AppendRows, AppendTrimsOldest, AppendStoresKeyRow, AppendIdempotent and AppendLastWriteWins |
| Ledger.FindKey | runtime/src/db/schema.ts:49-51 | the position found holds the key, and no row holds it when none is found |
| Ledger.FindKeyUnique | runtime/src/db/schema.ts:49-51 | under the unique index the row holding a key is the one found |
| Ledger.UpsertSize | runtime/src/services/walletConnectSigner.ts:573-596 | only an insert adds a row and draws an id |
| Ledger.UpsertKeepsOrder | runtime/src/services/walletConnectSigner.ts:573-596 | the upsert keeps ids increasing, keys unique and ids below the generator |
| Ledger.UpsertStoresKeyRow | runtime/src/services/walletConnectSigner.ts:573-596 | the key stays where it was, or goes at the end when new, and holds the overwritten or inserted row |
| Ledger.UpsertOthersInPlace | runtime/src/services/walletConnectSigner.ts:573-596 | rows of other keys stay in place |
| Ledger.UpsertShape | runtime/src/services/walletConnectSigner.ts:573-596 | the previous four facts together |
| Ledger.OverwriteSettled | runtime/src/services/walletConnectSigner.ts:585-595 | overwriting a row with the operation that produced it changes nothing |
| Ledger.UpsertOfSettled | runtime/src/services/walletConnectSigner.ts:573-596 | an upsert onto a row it would leave as is changes nothing |
| Ledger.CountAboveAt | runtime/src/services/walletConnectSigner.ts:598-606 | in id order, the rows with a larger id than the row at `i` are exactly the ones after it |
| Ledger.KeepNewestSuffix | runtime/src/services/walletConnectSigner.ts:598-606 | on id-ordered rows, `offset 500` over `id desc` deletes exactly a prefix |
| Ledger.TrimGlobalKeepsNewest | runtime/src/services/walletConnectSigner.ts:598-606 | the global trim keeps exactly the 500 rows with the largest ids |
| Ledger.TrimTopicOfSmall | runtime/src/services/walletConnectSigner.ts:608-619 | on at most 500 rows the per-topic trim deletes nothing |
| Ledger.TrimTopicAfterGlobal | runtime/src/services/walletConnectSigner.ts:598-619 | the per-topic trim is a no-op after the global trim |
| Ledger.DropOldestValid | runtime/src/services/walletConnectSigner.ts:598-606 | dropping oldest rows down to 500 keeps the ledger invariant |
| Ledger.AppendRows | runtime/src/services/walletConnectSigner.ts:571-621 | the append leaves the upserted rows minus the oldest beyond 500 |
| Ledger.AppendValid | runtime/src/services/walletConnectSigner.ts:571-621 | the append keeps ids increasing, keys unique, ids issued and at most 500 rows |
| Ledger.AppendTrimsOldest | runtime/src/services/walletConnectSigner.ts:571-621 | at most one row is deleted, only when a new key meets a full ledger, and every deleted row is older than every kept row |
| Ledger.AppendStoresKeyRow | runtime/src/services/walletConnectSigner.ts:571-621 | the key holds the overwritten row under its old id, or a new row whose id is larger than every previous id |
| Ledger.AppendBounded | runtime/src/services/walletConnectSigner.ts:571-621 | after an append at most 500 rows remain, and at most 500 for every topic |
| Ledger.AppendOfSettled | runtime/src/services/walletConnectSigner.ts:571-621 | when the upsert changes nothing, neither do the trims |
| Ledger.AppendIdempotent | runtime/src/services/walletConnectSigner.ts:571-621 | appending the same operation twice leaves the ledger as appending it once |
| Ledger.AppendLastWriteWins | runtime/src/services/walletConnectSigner.ts:571-621 | two deliveries of one key leave one row: the first id; method, chain, status and timestamp of the second; params, result and error of the second where defined |
| Listing.InsertPosition | runtime/src/services/walletConnectSigner.ts:139 | the split point of a newest-first list around a creation time |
| Listing.InsertByCreation | runtime/src/services/walletConnectSigner.ts:139 | placing one row into a newest-first list grows it by one |
| Listing.InsertByCreationLayout | runtime/src/services/walletConnectSigner.ts:139 | where each row lands after the insertion |
| Listing.InsertByCreationOrdered | runtime/src/services/walletConnectSigner.ts:139 | the insertion keeps the list newest first |
| Listing.InsertByCreationMembers | runtime/src/services/walletConnectSigner.ts:139 | the insertion adds exactly the new row |
| Listing.InsertByCreationDistinct | runtime/src/services/walletConnectSigner.ts:133-149 | inserting a new topic keeps the topics distinct |
| Listing.CollectStep | runtime/src/services/walletConnectSigner.ts:134-140 | looking at one more session keeps exactly the selected ones gathered, newest first |
| Listing.CollectInsert | runtime/src/services/walletConnectSigner.ts:134-140 | inserting a selected session keeps what is gathered |
| Listing.Summaries | runtime/src/services/walletConnectSigner.ts:142-148 | the row mapping applied to each gathered row |
| Listing.CollectedListing | runtime/src/services/walletConnectSigner.ts:133-149 | once all sessions are looked at, the summaries list exactly the selected sessions, once each, newest first |
| Listing.ListWalletSessions | runtime/src/services/walletConnectSigner.ts:133-149 | each listed entry is a stored session mapped; a session is listed iff the owner filter selects it; no topic twice; creation time non-increasing |
| Listing.NewestSelected | runtime/src/services/walletConnectSigner.ts:152-182 | a row is selected iff it is stored and both truthy filters hold (owner through the session row) |
| Listing.Listed | runtime/src/services/walletConnectSigner.ts:184-196 | a listed operation carries the row's request id, topic, params and status, and its result is the stored one unless that is `null`, which `?? undefined` turns into no result |
| Listing.ListOperations | runtime/src/services/walletConnectSigner.ts:151-197 | at most 500 operations are listed |
| Listing.SelectedBelow | runtime/src/services/walletConnectSigner.ts:177-183 | a bound on every stored id bounds every selected id |
| Listing.ConsDescending | runtime/src/services/walletConnectSigner.ts:183 | a row newer than a descending list can go in front of it |
| Listing.NewestSelectedDescending | runtime/src/services/walletConnectSigner.ts:183 | on id-ordered rows the selection comes in strictly descending id order |
| Listing.ListOperationsSpec | runtime/src/services/walletConnectSigner.ts:151-197 | the listing is the mapped selection; at most 500 rows, each selected, ids descending; a selected row is left out only when 500 newer rows are listed |
| Listing.ListOperationsComplete | runtime/src/services/walletConnectSigner.ts:151-197 | with at most 500 rows stored, every selected row is listed |
| Listing.ListedIdsNeedNotDescend | runtime/src/services/walletConnectSigner.ts:167-183 | two rows answered out of order list with request ids 3 then 7 |
| Dispatch.IsSigningOrExecutionMethod | runtime/src/services/walletConnectSigner.ts:82-89 | membership in the six recorded methods; RouteAgreesWithTables relates it to the dispatcher |
| Dispatch.RouteOf | runtime/src/services/walletConnectSigner.ts:430-467 | the branch `handleSessionRequest` takes for a method; RouteAgreesWithTables states which methods reach which branch |
| Dispatch.HandleSessionRequest | runtime/src/services/walletConnectSigner.ts:424-468 | the dispatcher; AccountsAnswerAddress, MessageSigningPayload, TransactionRouting and UnsupportedMethodFails state its branches |
| Js.Index | runtime/src/services/walletConnectSigner.ts:436-460 | `params[i]` throws exactly on `undefined` or `null`, gives the element of an array in range and `undefined` past its end |
| Js.IndexedEntries | runtime/src/services/walletConnectSigner.ts:460 | spreading an array gives one entry per index, keyed by the index's decimal text |
| Js.Spread | runtime/src/services/walletConnectSigner.ts:459-462 | object spread of `params[0]`; TransactionFields states the sent object |
| Dispatch.ToSignableMessage | runtime/src/services/walletConnectSigner.ts:708-714 | a non-string is refused with `invalid signing payload`; a hex string becomes raw bytes, any other string text |
| Dispatch.MakeWalletClient | runtime/src/services/walletConnectSigner.ts:623-641 | a client exists iff the chain is known and has a first non-empty HTTP URL, and it uses that URL |
| Dispatch.WalletClientErrorsDiffer | runtime/src/services/walletConnectSigner.ts:627-635 | the two wallet-client errors are different messages |
| Dispatch.RouteAgreesWithTables | runtime/src/services/walletConnectSigner.ts:69-89 | a method is dispatched iff the namespace offers it, and signs or executes iff it is recorded |
| Dispatch.TransactionFields | runtime/src/services/walletConnectSigner.ts:457-462 | the sent object has the spread fields of `params[0]`, with `from` set to the signer's address |
| Dispatch.AccountsAnswerAddress | runtime/src/services/walletConnectSigner.ts:430-432 | account requests return `[address]` |
| Dispatch.MessageSigningPayload | runtime/src/services/walletConnectSigner.ts:434-444 | `personal_sign` signs `params[0]`, `eth_sign` `params[1]`; a non-string is refused, hex signed raw, other strings as text |
| Dispatch.TransactionRouting | runtime/src/services/walletConnectSigner.ts:453-465 | transactions run on the request's chain when it parses and on the default chain otherwise, fail without a client, and send the overridden object |
| Dispatch.UnsupportedMethodFails | runtime/src/services/walletConnectSigner.ts:467 | any other method fails naming the method |
| Lifecycle.ApprovedNamespace | runtime/src/services/walletConnectSigner.ts:273-284 | one account per approved chain |
| Lifecycle.ExtractDomain | runtime/src/services/walletConnectSigner.ts:696-706 | a domain is returned only for a truthy URL whose host name parses and is non-empty, and then it is that host name |
| Lifecycle.GetPending | runtime/src/services/walletConnectSigner.ts:501-521 | the sweep then the read; `Pending.SweepPreservesLookup` states what it returns |
| Lifecycle.SetSession | runtime/src/services/walletConnectSigner.ts:529-548 | an out-of-range chain or a statement failure writes nothing, otherwise the registry upsert; `LifecycleProperties.SetSessionKeepsConsistent` keeps the constraints |
| Lifecycle.AppendOp | runtime/src/services/walletConnectSigner.ts:571-621 | `undefined` or `null` params or a failed transaction write nothing, otherwise the append; `LifecycleProperties.NullishParamsEscape` and `LifecycleProperties.AppendOpKeepsConsistent` state it |
| Lifecycle.CreateWalletSessionStep | runtime/src/services/walletConnectSigner.ts:91-131 | the kickoff; the four `LifecycleProperties.Kickoff…` lemmas state its outcomes |
| Lifecycle.ApproveProposal | runtime/src/services/walletConnectSigner.ts:263-299 | the approval attempt; `LifecycleProperties.ProposalApproved` and `LifecycleProperties.ApproveProposalFailureWritesNothing` state it |
| Lifecycle.OnSessionProposalStep | runtime/src/services/walletConnectSigner.ts:241-318 | the proposal handler; `ProposalWithoutPendingRejected`, `ProposalConsumesPending`, `ApprovedThenRejectedOnStoreFailure` and `ProposalRejectionsAreUserRejected` state it |
| Lifecycle.RequestFailed | runtime/src/services/walletConnectSigner.ts:391-421 | the request `catch`: a `failed` row for recorded methods, then the 5001 answer; `LifecycleProperties.RequestFailedKeepsConsistent` keeps the constraints |
| Lifecycle.RequestAttempt | runtime/src/services/walletConnectSigner.ts:359-390 | the request `try` body; `RecordedRequestSettles` and `UndeliveredResultRecordedFailed` state it |
| Lifecycle.RespondResult | runtime/src/services/walletConnectSigner.ts:387-421 | the result response inside the `try`, whose failure goes to the `catch`; `UndeliveredResultRecordedFailed` states it |
| Lifecycle.OnSessionRequestStep | runtime/src/services/walletConnectSigner.ts:320-422 | the request handler; `UnknownSessionAnswered`, `OtherMethodsLeaveLedger`, `ProposedWriteFailureEscapes`, `NullishParamsEscape` and `RecordedRequestSettles` state it |
| Lifecycle.OnSessionDeleteStep | runtime/src/services/walletConnectSigner.ts:233-236 | removes the session's row; `Sessions.OtherTopicsUntouched` states the result |
| LifecycleProperties.CaipAccountParts | runtime/src/services/walletConnectSigner.ts:280 | an account splits into `eip155`, the chain and the address, and for a chain id up to 2^53 its chain part parses back |
| LifecycleProperties.ApprovedNamespaceSpec | runtime/src/services/walletConnectSigner.ts:273-284 | exactly the 8 methods and 2 events, and one `eip155:<id>:<address>` account per approved chain in order |
| LifecycleProperties.KickoffRefusedWhilePending | runtime/src/services/walletConnectSigner.ts:91-97 | an unexpired pending row refuses the kickoff before any write beyond the sweep |
| LifecycleProperties.KickoffPairFailureRollsBack | runtime/src/services/walletConnectSigner.ts:115-120 | a pairing failure is passed on and leaves no pending row for the topic, nothing else changed |
| LifecycleProperties.KickoffSucceeds | runtime/src/services/walletConnectSigner.ts:91-131 | success returns topic, address and `pairing_started`, leaving a pending row on chain 1 found for 300 s |
| LifecycleProperties.KickoffWalletFailureKeepsPending | runtime/src/services/walletConnectSigner.ts:103-115 | an engine failure after the pending write is passed on and leaves the pending row |
| LifecycleProperties.ProposalWithoutPendingRejected | runtime/src/services/walletConnectSigner.ts:252-261 | no pairing topic or no unexpired pending row: rejected with `USER_REJECTED`, no session written |
| LifecycleProperties.ProposalApproved | runtime/src/services/walletConnectSigner.ts:263-292 | on success the session row holds owner, address, domain and first chain under the engine's topic; other sessions unchanged; pending row gone; only the approval sent |
| LifecycleProperties.ApproveProposalFailureWritesNothing | runtime/src/services/walletConnectSigner.ts:263-299 | a failed approval attempt writes no session and no pending change, and sends at most the approval |
| LifecycleProperties.ProposalConsumesPending | runtime/src/services/walletConnectSigner.ts:263-317 | a found pending row is consumed whatever happens; a failure ends in a USER_REJECTED rejection and no session |
| LifecycleProperties.ApprovedThenRejectedOnStoreFailure | runtime/src/services/walletConnectSigner.ts:273-317 | a session-store failure after approval sends the approval and then a rejection, and writes no session |
| LifecycleProperties.RejectKeepsShape | runtime/src/services/walletConnectSigner.ts:255-258 | one more USER_REJECTED rejection keeps the trace extending only with such rejections |
| LifecycleProperties.ProposalRejectionsAreUserRejected | runtime/src/services/walletConnectSigner.ts:241-318 | the handler only appends to the engine trace, and every rejection it sends is USER_REJECTED |
| LifecycleProperties.UnknownSessionAnswered | runtime/src/services/walletConnectSigner.ts:326-337 | an unknown session gets error 5000 and nothing else changes |
| LifecycleProperties.OtherMethodsLeaveLedger | runtime/src/services/walletConnectSigner.ts:320-422 | non-recording methods never touch the tables; they are answered once, or, when the result's delivery fails, a second time with error 5001 |
| LifecycleProperties.ProposedWriteFailureEscapes | runtime/src/services/walletConnectSigner.ts:339-357 | a failed `proposed` write escapes unanswered with the state unchanged |
| LifecycleProperties.RecordedRequestUnfolds | runtime/src/services/walletConnectSigner.ts:339-421 | with every write passing, a recorded request is two appends and one answer |
| LifecycleProperties.RecordedRequestSettles | runtime/src/services/walletConnectSigner.ts:339-421 | one row remains for the key: `succeeded` with the result and a result response, or `failed` with the message and a 5001 response |
| LifecycleProperties.AppendOpKeepsConsistent | runtime/src/services/walletConnectSigner.ts:571-621 | the ledger write keeps the table constraints |
| LifecycleProperties.SetSessionKeepsConsistent | runtime/src/services/walletConnectSigner.ts:529-548 | the session write keeps the table constraints |
| LifecycleProperties.ApproveKeepsConsistent | runtime/src/services/walletConnectSigner.ts:263-299 | the approval attempt keeps the table constraints |
| LifecycleProperties.ProposalKeepsConsistent | runtime/src/services/walletConnectSigner.ts:241-318 | the proposal handler keeps the table constraints |
| LifecycleProperties.RequestFailedKeepsConsistent | runtime/src/services/walletConnectSigner.ts:391-421 | the request `catch` keeps the table constraints |
| LifecycleProperties.NullishParamsEscape | runtime/src/services/walletConnectSigner.ts:339-357 | a recorded method with `undefined` or `null` params fails its `proposed` write, which escapes unanswered with the state unchanged |
| LifecycleProperties.UndeliveredResultUnfolds | runtime/src/services/walletConnectSigner.ts:359-421 | a failed result delivery runs the `succeeded` write, the result response, then the `catch` |
| LifecycleProperties.UndeliveredResultRecordedFailed | runtime/src/services/walletConnectSigner.ts:387-421 | when the result response fails, the executed request's row ends `failed` with that error and the result kept, and a 5001 follows the result |
| LifecycleProperties.RespondResultKeepsConsistent | runtime/src/services/walletConnectSigner.ts:387-421 | the result response, and the `catch` it may lead to, keep the table constraints |
| LifecycleProperties.RequestAttemptKeepsConsistent | runtime/src/services/walletConnectSigner.ts:359-390 | the request `try` body keeps the table constraints |
| LifecycleProperties.RequestKeepsConsistent | runtime/src/services/walletConnectSigner.ts:320-422 | the request handler keeps the table constraints |
| LifecycleProperties.HandlersKeepConsistent | runtime/src/services/walletConnectSigner.ts:91-318 | the kickoff, proposal and deletion handlers keep the table constraints for all inputs |
| Service.WalletConnectSigner.constructor | runtime/src/db/schema.ts:3-55 | the service starts with empty tables and keeps its invariant |
| Service.WalletConnectSigner.SetPendingConnection | runtime/src/services/walletConnectSigner.ts:482-499 | the pending table becomes its upsert; nothing else changes |
| Service.WalletConnectSigner.GetPendingConnection | runtime/src/services/walletConnectSigner.ts:501-521 | sweeps, then returns the unexpired record |
| Service.WalletConnectSigner.DeletePendingConnection | runtime/src/services/walletConnectSigner.ts:523-527 | the pending row goes; nothing else changes |
| Service.WalletConnectSigner.SetSessionSigner | runtime/src/services/walletConnectSigner.ts:529-548 | out-of-range chains and statement failures write nothing, otherwise the registry is upserted |
| Service.WalletConnectSigner.GetSessionSigner | runtime/src/services/walletConnectSigner.ts:550-565 | returns the topic's record iff it is registered, field by field |
| Service.WalletConnectSigner.DeleteSessionSigner | runtime/src/services/walletConnectSigner.ts:567-569 | the session row goes; nothing else changes |
| Service.WalletConnectSigner.AppendOperation | runtime/src/services/walletConnectSigner.ts:571-621 | refuses `undefined` and `null` params for any key, a failed transaction writes nothing, otherwise the ledger is appended |
| Service.WalletConnectSigner.CreateWalletSession | runtime/src/services/walletConnectSigner.ts:91-131 | makes the kickoff transition and keeps the invariant |
| Service.WalletConnectSigner.ApprovePending | runtime/src/services/walletConnectSigner.ts:263-299 | makes the approval attempt's transition |
| Service.WalletConnectSigner.OnSessionProposal | runtime/src/services/walletConnectSigner.ts:241-318 | makes the proposal transition and keeps the invariant |
| Service.WalletConnectSigner.RecordFailure | runtime/src/services/walletConnectSigner.ts:391-421 | makes the `catch` transition |
| Service.WalletConnectSigner.AttemptRequest | runtime/src/services/walletConnectSigner.ts:359-390 | makes the `try` transition |
| Service.WalletConnectSigner.OnSessionRequest | runtime/src/services/walletConnectSigner.ts:320-422 | makes the request transition and keeps the invariant |
| Service.WalletConnectSigner.OnSessionDelete | runtime/src/services/walletConnectSigner.ts:233-236 | removes the session row and keeps the invariant |
| Nonces.ConsumeStep | runtime/src/middleware/erc8128.ts:9-20 | refused, map unchanged, iff the key's recorded expiry is after now; otherwise the key is set to `now + ttl*1000` |
| Nonces.ConsumeIsolated | runtime/src/middleware/erc8128.ts:17 | only the key's entry may change, and no entry is removed |
| Nonces.ConsumeWindow | runtime/src/middleware/erc8128.ts:9-20 | an accepted key is refused before its expiry and accepted again from then on |
| Nonces.ConsumeTwice | runtime/src/middleware/erc8128.ts:9-20 | two consumptions of a new key at one instant accept then refuse |
| Nonces.NonceStore.constructor | runtime/src/middleware/erc8128.ts:6 | the store starts empty |
| Nonces.NonceStore.Consume | runtime/src/middleware/erc8128.ts:9-20 | makes the `consume` step on the field and never removes a key |

## Left out

- The WalletConnect engine (`Core`, `Web3Wallet`, pairing, approval, rejection, responses and the event wiring) is not modelled. Its calls are recorded in a trace and their outcomes are parameters.
- Failures of the engine's `rejectSession`, of the 5000 response to an unknown session and of the `catch`'s 5001 response escape the handlers in the source and are not modelled: the model treats those calls as always returning. A failure of the result response, which is sent inside the `try`, is modelled (`Lifecycle.RespondResult`).
- The `getWallet` lazy promise and any interleaving of concurrent callbacks: the model runs one handler at a time.
- `session_delete` deletes without awaiting; the model performs the deletion within the handler and does not model its failure.
- Failures of the pending-connection statements and of the session read are not modelled; the session write and the ledger transaction do have failure parameters.
- Key derivation, message and typed-data signing, `hexToBytes`, `JSON.parse` and the wallet client's network request are foreign calls: parameters that return a value or an error message.
- The viem chain registry scan is a map from chain id to its HTTP URLs; a chain absent from it is one the scan does not find.
- URL parsing behind `extractDomain` is the parameter `hostOf`.
- `parseUri` is not modelled: the kickoff takes the parsed pairing topic as a parameter, and the `wc:` prefix check of the HTTP handler is left out.
- Thrown values that are not `Error`s (the `"unknown error"` and `"request failed"` fallbacks) are not modelled: every failure carries a message.
- JavaScript `TypeError`s from reading properties of malformed events or proposals are not modelled; events and proposals are well-typed records.
- `Chains.IntegerValue`: models `Number()` only on digit strings (with "" as 0); other numeric syntaxes (`"0x10"`, `"1e3"`, `" 7 "`, `"1.0"`) are treated as not integers, which `Number()` would accept. It rounds the decimal value correctly; ECMAScript lets an implementation round differently after the 20th significant digit.
- `Text.IntToString`: prints the exact integer. JavaScript prints a number above 2^53 with its shortest round-trip digits padded with zeros, and from 10^21 on in exponent notation, so for such chain ids the `unsupported chain` messages and the CAIP-10 accounts differ from the source's text.
- Non-string entries of a `chains` array are not modelled: the chains lists are sequences of strings, and a namespace without an array contributes nothing.
- Rows with equal `createdAt` come back in an order the database does not fix; `Listing.ListWalletSessions` promises only non-increasing creation time.
- The request handler reads the clock twice in the model (`proposedAt`, `settledAt`); the source reads it again for a `failed` write that follows a failed `succeeded` write.
- The identity generator is modelled as advancing only on insert; Postgres may also consume a value on conflict, which changes no row but can leave gaps.
- `LifecycleProperties.RecordedRequestSettles`: requires params that are neither `undefined` nor `null`, because those fail the `proposed` write for any key (that case is `LifecycleProperties.NullishParamsEscape`).
- `LifecycleProperties.RecordedRequestSettles`: assumes the result response is delivered; its failure is `LifecycleProperties.UndeliveredResultRecordedFailed`.
- `LifecycleProperties.RecordedRequestSettles`: states the row's result only for a defined handler result, because an undefined result keeps the stored value.
- Console logging, the HTTP and oRPC layer, the CLI, the scripts, the database client and its configuration are not modelled.
- ERC-8128 signature verification is a library call and is not modelled; only its replay-nonce store is.
