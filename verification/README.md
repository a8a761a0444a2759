# Reference-state conflict retry, settlement waiter and two node stores — a Dafny model

This project models four pieces of a Corda node.

- **`WithReferencedStatesFlow.call`** (module `ReferencedStatesFlow`) runs a wrapped flow as a sub-flow.
  If the notary rejects the transaction with a `Conflict`, it keeps the conflicting states that were used as
  *reference inputs*, waits until the vault sees them consumed, and then runs the wrapped flow exactly once more.
  The wrapped flow is an oracle `subFlow: nat -> Attempt<T>`, consulted for attempts 1 and 2. `Call` returns
  the trace of sub-flow starts and waits together with the final outcome: a returned value or an escaping exception.
- **`WaitForStatesToUpdate.execute`** (module `WaitForStates`) queries the vault for the supplied references and
  keeps the rows with no consumption time. It returns an already completed future when none remain. Otherwise it
  returns the all-of join of one `whenConsumed` subscription per remaining row. The joined future is a `Waiter`
  holding the set of outstanding references; a consumption event removes one, and the future is complete exactly
  when the set is empty. `ReferencedStatesFlow.Drive` composes the flow with its waiter.
- **`FlowsDrainingModeOperationsImpl`** (module `NodeProperties`) is a boolean stored as a string under the key
  `<physical node id>_flowsExecutionMode`. It reads as false when absent, and every write publishes the pair
  (previous value, new value). The publish stream is an appended list.
- **`PersistentIdentityService`** (module `IdentityService`) is two append-only maps: key hash → identity and
  X.500 name → key hash. Append-only means insert-if-absent. Name lookup composes the two maps. The key hash is
  an arbitrary function carried by the service; it is not assumed injective.

Modules `Wrappers` (Option, Result) and `Ledger` (hashes, state references, consumption details) hold the shared
vocabulary.

### Retry and filtering

`call` waits once and retries once; there is no loop (`AtMostOneRetry`). The entries of a conflict that were
ordinary inputs are filtered out rather than treated as fatal, so the wait set may be empty and the flow still
retries (`OrdinaryInputConflictStillRetries`). The flow keeps no progress state beyond its trace.

## Model

| member | source | states |
|---|---|---|
| `ReferencedStatesFlow.ReferenceInputRefs` | core/src/main/kotlin/net/corda/core/flows/WithReferencedStatesFlow.kt:36-40 | the wait set holds only conflict keys used as reference inputs; it is empty exactly when every conflicting entry was an ordinary input |
| `ReferencedStatesFlow.ReferenceInputRefsPartition` | core/src/main/kotlin/net/corda/core/flows/WithReferencedStatesFlow.kt:37-39 | the conflict keys split disjointly into the reference-input refs kept and the ordinary-input refs dropped |
| `ReferencedStatesFlow.Propagate` | core/src/main/kotlin/net/corda/core/flows/WithReferencedStatesFlow.kt:57 | the second attempt is not caught: its value is returned and its exception escapes, unchanged |
| `ReferencedStatesFlow.ProcessResult` | core/src/main/kotlin/net/corda/core/flows/WithReferencedStatesFlow.kt:33-47 | a value becomes Success with that value; a notary Conflict becomes the reference-input refs; every other caught exception is rethrown as the same exception |
| `ReferencedStatesFlow.Call` | core/src/main/kotlin/net/corda/core/flows/WithReferencedStatesFlow.kt:22-60 | attempt 1 always starts first; wait and second attempt happen exactly on a notary conflict, wait over the reference-input refs then attempt 2, whose result is final; otherwise the first result is returned or thrown unchanged |
| `ReferencedStatesFlow.AtMostOneRetry` | core/src/main/kotlin/net/corda/core/flows/WithReferencedStatesFlow.kt:53-58 | at most two sub-flow starts, numbered 1 and 2, at most one wait, a second start exactly when there was a wait, and the wait immediately precedes it |
| `ReferencedStatesFlow.FirstSuccessIsFinal` | core/src/main/kotlin/net/corda/core/flows/WithReferencedStatesFlow.kt:46-52 | a successful first attempt returns its value with no wait and no second start, whatever attempt 2 would have done |
| `ReferencedStatesFlow.NonConflictFailureIsRethrown` | core/src/main/kotlin/net/corda/core/flows/WithReferencedStatesFlow.kt:24-45 | any first-attempt failure other than a notary Conflict (other notary error, other flow exception, non-flow exception) escapes unchanged with no wait and no retry |
| `ReferencedStatesFlow.OrdinaryInputConflictStillRetries` | core/src/main/kotlin/net/corda/core/flows/WithReferencedStatesFlow.kt:37-40 | a conflict whose entries are all ordinary inputs still waits (on the empty set) and retries once |
| `ReferencedStatesFlow.DriveFinishesIffSettled` | core/src/main/kotlin/net/corda/core/flows/WithReferencedStatesFlow.kt:53-57 | the flow finishes exactly when there was no conflict or every reference the vault reported unconsumed has been consumed; when it finishes its outcome is Call's |
| `ReferencedStatesFlow.Drive` | core/src/main/kotlin/net/corda/core/flows/WithReferencedStatesFlow.kt:54-57 | without a conflict the flow is finished; a finished flow has Call's outcome; a parked flow had a conflict and waits on at least one ref that no delivered event named |
| `ReferencedStatesFlow.UnsettledReferenceKeepsFlowParked` | core/src/main/kotlin/net/corda/core/flows/WithReferencedStatesFlow.kt:54-57 | a reference the vault reported unconsumed that is never consumed keeps the flow suspended, so the second attempt never runs |
| `WaitForStates.NotYetConsumed` | core/src/main/kotlin/net/corda/core/internal/AsyncOperations.kt:35 | the refs of rows without a consumption time are kept, each as many times as it has such rows and no other ref; it is empty iff every row is consumed, full-length iff none is |
| `WaitForStates.Execute` | core/src/main/kotlin/net/corda/core/internal/AsyncOperations.kt:31-49 | the done future iff every queried row is consumed; otherwise a non-empty join with one subscription per unconsumed row, for that row's ref, and to no other ref |
| `WaitForStates.ExecuteDependsOnlyOnQueriedRefs` | core/src/main/kotlin/net/corda/core/internal/AsyncOperations.kt:33-34 | the vault is consulted only through the query for exactly the supplied refs |
| `WaitForStates.Subscribe` | core/src/main/kotlin/net/corda/core/internal/AsyncOperations.kt:39-47 | the done future has nothing outstanding; the join starts with exactly its subscriptions outstanding |
| `WaitForStates.Deliver` | core/src/main/kotlin/net/corda/core/internal/AsyncOperations.kt:44-47 | delivering consumption events only ever completes subscriptions, and every ref an event named is no longer outstanding |
| `WaitForStates.OnConsumed` | core/src/main/kotlin/net/corda/core/internal/AsyncOperations.kt:44 | a consumption event completes that ref's subscription and no other |
| `WaitForStates.DeliverLeavesUnnamed` | core/src/main/kotlin/net/corda/core/internal/AsyncOperations.kt:44-47 | after any event sequence exactly the subscriptions no event named remain outstanding |
| `WaitForStates.AllOfCompletesIffAllConsumed` | core/src/main/kotlin/net/corda/core/internal/AsyncOperations.kt:47 | the join completes iff every subscribed ref has been consumed (logical AND) |
| `WaitForStates.OnePendingKeepsIncomplete` | core/src/main/kotlin/net/corda/core/internal/AsyncOperations.kt:17-19 | leaving any one subscription pending keeps the joined future incomplete |
| `WaitForStates.DoneIsStable` | core/src/main/kotlin/net/corda/core/internal/AsyncOperations.kt:41 | a completed future stays complete under further events |
| `WaitForStates.Get` | core/src/main/kotlin/net/corda/core/internal/AsyncOperations.kt:41-47 | the future yields Unit exactly when nothing is outstanding, and carries no other payload |
| `WaitForStates.WaitCompletesIffUnconsumedSettled` | core/src/main/kotlin/net/corda/core/internal/AsyncOperations.kt:31-49 | the waiter completes iff every row the vault reported unconsumed has since been consumed; with none, it is complete at once |
| `NodeProperties.NodeSpecificKey` | node/src/main/kotlin/net/corda/node/services/persistence/NodePropertiesPersistentStore.kt:44 | the key is the physical node id followed by `_flowsExecutionMode` |
| `NodeProperties.NodeSpecificKeyInjective` | node/src/main/kotlin/net/corda/node/services/persistence/NodePropertiesPersistentStore.kt:44 | distinct node ids give distinct keys |
| `NodeProperties.Create` | node/src/main/kotlin/net/corda/node/services/persistence/NodePropertiesPersistentStore.kt:43-44 | the key is derived once from the node id and nothing is published at construction |
| `NodeProperties.ToBoolean` | node/src/main/kotlin/net/corda/node/services/persistence/NodePropertiesPersistentStore.kt:62-69 | true exactly for the four letters t, r, u, e each in lower or upper case; every other string, the empty one included, is false |
| `NodeProperties.ToBooleanRoundTrip` | node/src/main/kotlin/net/corda/node/services/persistence/NodePropertiesPersistentStore.kt:62-69 | parsing the written `toString` gives the boolean back |
| `NodeProperties.ToBooleanIgnoresCase` | node/src/main/kotlin/net/corda/node/services/persistence/NodePropertiesPersistentStore.kt:69 | changing the case of any letters of the stored string never changes the parsed boolean |
| `NodeProperties.IsEnabled` | node/src/main/kotlin/net/corda/node/services/persistence/NodePropertiesPersistentStore.kt:67-71 | false when nothing is stored under the key; otherwise true exactly when the stored value spells "true" in any mix of case |
| `NodeProperties.SetEnabled` | node/src/main/kotlin/net/corda/node/services/persistence/NodePropertiesPersistentStore.kt:59-65 | afterwards isEnabled returns the written value; exactly one pair (previous isEnabled, new value) is published, even when unchanged; only the node key is written |
| `NodeProperties.DefaultIsDisabled` | node/src/main/kotlin/net/corda/node/services/persistence/NodePropertiesPersistentStore.kt:67-70 | a switch never written reads as disabled |
| `NodeProperties.SetEnabledTwicePublishesChain` | node/src/main/kotlin/net/corda/node/services/persistence/NodePropertiesPersistentStore.kt:59-65 | two writes publish two pairs, the second one's old value being the first write |
| `NodeProperties.SetEnabledLeavesOtherNodes` | node/src/main/kotlin/net/corda/node/services/persistence/NodePropertiesPersistentStore.kt:62 | writing one node's switch does not change another node's switch in the same store |
| `IdentityService.AddIfAbsent` | node/src/main/kotlin/net/corda/node/services/identity/PersistentIdentityService.kt:114-115 | the key becomes present; existing entries, including one for that key, are kept; an absent key gets the new value |
| `IdentityService.LoadWellKnown` | node/src/main/kotlin/net/corda/node/services/identity/PersistentIdentityService.kt:112-116 | a well-known identity adds its key hash and its name, a newly bound name points to that identity's key hash, and nothing stored changes |
| `IdentityService.LoadConfidential` | node/src/main/kotlin/net/corda/node/services/identity/PersistentIdentityService.kt:117-119 | a confidential identity adds only a name binding, to its own key hash when the name was unbound; the key map is unchanged |
| `IdentityService.LoadAllWellKnownEffect` | node/src/main/kotlin/net/corda/node/services/identity/PersistentIdentityService.kt:112-116 | loading adds exactly the identities' key hashes and names |
| `IdentityService.LoadAllWellKnownKeeps` | node/src/main/kotlin/net/corda/node/services/identity/PersistentIdentityService.kt:112-116 | loading keeps every earlier entry of both maps unchanged |
| `IdentityService.LoadAllWellKnownEntries` | node/src/main/kotlin/net/corda/node/services/identity/PersistentIdentityService.kt:112-116 | each new key entry is a loaded identity stored under its own key hash; each new name is bound to the key hash of a loaded identity of that name |
| `IdentityService.LoadAllConfidentialEffect` | node/src/main/kotlin/net/corda/node/services/identity/PersistentIdentityService.kt:117-119 | loading confidential identities binds exactly their names, each new name to the key hash of a loaded identity of that name, keeps every entry, and adds no key entry |
| `IdentityService.LoadIdentities` | node/src/main/kotlin/net/corda/node/services/identity/PersistentIdentityService.kt:111-121 | key entries are added for exactly the well-known identities' key hashes, names for both lists; nothing stored changes |
| `IdentityService.LoadIdentitiesEffect` | node/src/main/kotlin/net/corda/node/services/identity/PersistentIdentityService.kt:111-121 | each new key entry is a loaded well-known identity under its own key hash, so a consistent registry stays consistent |
| `IdentityService.LoadIdentitiesBindsNames` | node/src/main/kotlin/net/corda/node/services/identity/PersistentIdentityService.kt:111-121 | each new name is bound to the key hash of a loaded identity of that name, well-known or confidential |
| `IdentityService.RegisterIdentity` | node/src/main/kotlin/net/corda/node/services/identity/PersistentIdentityService.kt:130-139 | both maps gain the identity's key hash and name, first entries kept; it throws iff the chain has fewer than two certificates; otherwise it returns the entry under the issuer key's hash, or none when absent |
| `IdentityService.RegisterKeepsKeysConsistent` | node/src/main/kotlin/net/corda/node/services/identity/PersistentIdentityService.kt:133-134 | registration keeps every key entry under the hash of its own key |
| `IdentityService.CertificateFromKey` | node/src/main/kotlin/net/corda/node/services/identity/PersistentIdentityService.kt:141 | found iff the key's hash is in the key map, and then it is that entry |
| `IdentityService.CertificateFromX500Name` | node/src/main/kotlin/net/corda/node/services/identity/PersistentIdentityService.kt:143-150 | none for an unbound name; otherwise the key-map entry of the bound hash, none if that hash has no entry |
| `IdentityService.WellKnownPartyFromX500Name` | node/src/main/kotlin/net/corda/node/services/identity/PersistentIdentityService.kt:155 | the party of the identity the name resolves to, none when it resolves to none |
| `IdentityService.GetAllIdentities` | node/src/main/kotlin/net/corda/node/services/identity/PersistentIdentityService.kt:153 | at most one identity per key-map entry |
| `IdentityService.AllIdentitiesAreKeyLookups` | node/src/main/kotlin/net/corda/node/services/identity/PersistentIdentityService.kt:141-153 | the listed identities are exactly the key map's values: each is what the key lookup of its own key finds, and every key-lookup hit is listed |
| `IdentityService.NameLookupAgreesWithKeyLookup` | node/src/main/kotlin/net/corda/node/services/identity/PersistentIdentityService.kt:141-150 | an identity found by name is the one found by its own key |
| `IdentityService.RegisterThenLookup` | node/src/main/kotlin/net/corda/node/services/identity/PersistentIdentityService.kt:130-155 | after first registration of a fresh name and key, the identity is found by key, by name (as its party) and in the list |
| `IdentityService.FirstRegistrationWins` | node/src/main/kotlin/net/corda/node/services/identity/PersistentIdentityService.kt:135-136 | a name that already resolves keeps resolving to the same identity after a further registration |
| `IdentityService.ConfidentialNameDoesNotResolve` | node/src/main/kotlin/net/corda/node/services/identity/PersistentIdentityService.kt:143-149 | a name bound only by a confidential identity whose key hash has no entry resolves to none |

## Left out

- Fiber suspension, `executeAsync`, `CompletableFuture.allOf` threading and `@Synchronized` are not modelled. Suspension is the `Parked` state of `Drive`; future completion is a sequence of consumption events.
- The vault query engine is an oracle `queryBy` from the query criteria to rows. `whenConsumed` is reduced to "completes when the ref is reported consumed". With an empty reference set, the rows the vault returns are whatever the oracle gives.
- The query criteria carry the reference set. The code converts it to a list; the order does not matter to the query.
- The notary protocol is not modelled. The notary's answer is the `FlowError` the oracle supplies.
- ReferencedStatesFlow.Call: a value returned by the wrapped flow is assumed not to be a `FlowException` object. The Kotlin `when` would throw such a value, or treat it as a conflict, because it tests the type of the caught-or-returned result.
- Database transactions, JPA entities, the caching of `AppendOnlyPersistentMap`/`PersistentMap` and `preload` are not modelled. Plain maps stand in for the stores.
- A stored draining-mode value of SQL `NULL` is not modelled. The code fails with `!!` when loading it.
- `NodeProperties.ToBoolean` models Java's case-insensitive comparison with ASCII folding. No other character folds to a letter of "true".
- IdentityService.RegisterIdentity: with a one-certificate chain, the two writes happen and then the issuer lookup throws. The model keeps the writes and returns `Err`. Whether a caller's transaction rolls them back is outside this code.
- X.509 parsing, `CertStore`/`TrustAnchor` in `start`, `verifyAndRegisterIdentity`, `partiesFromName`, `wellKnownPartyFromAnonymous` and `assertOwnership` are not modelled. They are certificate cryptography or delegate to a superclass that is not part of this model.
- IdentityService.GetAllIdentities: the result is a set. `allPersisted()` yields a sequence in database order, which the model does not fix.
- Logging and the Rx `PublishSubject` are not modelled. Published pairs are an appended list.
- `addWithDuplicatesAllowed` returns whether it inserted. Neither caller uses that result, so `AddIfAbsent` omits it.
