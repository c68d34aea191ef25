# Verification of signal-go

This project models the parts of signal-go, a Signal client library in Go, that hold state, follow
a protocol or do arithmetic, and proves properties of those models. `dafny verify dfyconfig.toml`
checks all of it.

Protocols are modelled twice: as a function from one state to the next, about which the lemmas
speak, and as a class whose methods change fields step by step in the source's order and are proved
to take the state where that function says. Loops over buffers are methods proved against a
specification. The server, libsignal, the file system and the network are parameters: oracles that
may give any answer, indexed by the number of the call or by what was handed to them so far.

| file | component |
|---|---|
| `WsClient.dfy` | the WebSocket request/response multiplexer: every interleaving of Send, the read loop and Close |
| `Delivery.dfy` | sending to one recipient: device discovery, sessions, the single retry after a 409 or 410 |
| `SendRace.dfy` | any number of sends to one recipient at once: every interleaving over the cached list and the sessions |
| `KeysCooldown.dfy` | the per-recipient cooldown on bundle fetches after a 429 |
| `PreKeys.dfy` | one-time prekey ids: generation, local inventory, publishing, top-up, linking |
| `SignalStores.dfy` | the in-memory and the SQL store, and when they are interchangeable |
| `GroupLogs.dfy` | paged group synchronisation and the revision cache |
| `PollBot.dfy` | the conversation store and the poll tally kept in it |
| `Frames.dfy` | varints, length-prefixed backup frames, and the import loop over them |
| `Pkcs7.dfy`, `Primitives.dfy` | PKCS#7 padding with its three unpadders; the cryptographic primitives as functions with laws |
| `Attachment.dfy`, `Envelope.dfy` | attachment formats v1 and v2; the provisioning envelope |
| `ContentPadding.dfy` | per-message content padding |
| `Bits.dfy`, `Decimal.dfy`, `Inventory.dfy`, `Wrappers.dfy` | bitwise operators, decimal numerals, counting prekeys, Option and Result |

## Main results

- **Multiplexer.** No interleaving sends on a closed channel or closes one twice. An answered Send
  has the first response with its id dispatched since it registered, and nobody else has it. Late,
  duplicate and unsolicited responses change nothing: taken out of a run, they leave every
  outcome; every other response can be returned by the Send it is filed under. Every outcome but an
  answer has its cause, and causes have their outcome. A waiting Send always
  has an exit once the read loop has ended, which it can from every state, and once the client is
  closed as long as at most 2^64 Sends were made; up to that bound no answer is lost either. Past it, runs that strand a Send and
  that lose an answer are constructed.
- **Delivery.** From any state, against any answers, a send on its own makes at most two PUTs and every
  address handed to request building has a session. If the recipient's device set is fixed, the
  retry targets exactly that set without duplicates and is accepted, the cached list becomes that
  set, and the next send needs no retry. After a 410 the same devices are sent to again, the stale
  ones over sessions made since. Other recipients, each with a set of their own, are not
  affected.
- **Sends at once.** However sends to one recipient interleave, retries are accepted, a repaired list
  that is cached is the server's set, and the cached list is always one from which a later send
  converges: left alone from its beginning it can always go on, and it ends delivered. What only an interleaving can do is shown by runs: a session can be missing at
  encryption, and a list discovered earlier can replace a repaired one.
- **Cooldown.** A fetch is refused exactly between a 429 for its recipient and the end of the
  cooldown; refusals
  are positive, at most five minutes, and never extend it; waiting as told is enough.
- **Prekeys.** Over every run the successful uploads tile `[2, counter)` in both namespaces, so the
  Kyber ids stay in range although their generator does not check them. While every top-up can save
  the account, a restart is safe at any time. Restarts from an unsaved
  account and lost replies are excluded, and shown to publish ids twice. A failed top-up is decided
  exactly, for the next top-up and over all later runs: it is never retried if the records it wrote
  reach the threshold by themselves, and otherwise some use of published keys leads to a retry.
- **Stores.** Every load returns the last write for that very address or id. Any sequence of
  operations gets the same replies from both stores as long as three conditions hold, and for each condition a continuation that tells the stores apart is given.
- **Backup import.** Over any stream, each counter returned is the number of frames of its kind.
- **Group sync.** Whatever the page sizes, the pages tile the log, the loop makes at most 256
  requests, and the snapshot is the one that reading that part of the log in one go selects: the
  whole log, when it ends within 256 pages.
- **Poll.** After any events the stored counters equal a recount of the votes, and the stored
  question is that of the poll last opened.
- **Codecs.** Varints, frames, PKCS#7, attachments, envelopes and content padding: each reader
  undoes its writer, an empty v2 attachment excepted. The unpadders, the decryptors of attachments
  and the envelope reader accept exactly what can be sealed or padded; that decrypting v2 accepts
  blobs sealed without logarithmic padding too is part of this. The varint and frame readers accept
  more than the encoder writes, and exactly what is stated.

## Where the code and its documentation differ

The models follow the code. What it does differently from its comments or from what a caller may
expect is stated as a lemma or a clause of a contract:

- `DecryptAuto` is documented as picking v2 or legacy decryption; its fallback to the legacy format
  never succeeds where v2 failed (`Attachment.FallbackNeverHelps`), and so an over-long plaintext
  length, an error in `Decrypt`, passes (`Attachment.OverlongLengthPasses`). An empty v2 plaintext
  comes back as 541 zero bytes (`Attachment.RoundTripV2`).
- A prekey upload that fails leaves the records written so far in the local store. The next top-up
  retries it exactly if they leave a count below the threshold (`PreKeys.RetryAfterFailedTopUp`).
  Nobody can use up keys that were never published, so after a refused PUT no later run whose
  thresholds are at most the batch publishes anything again (`PreKeys.RefusedForGood`); for any
  failure the exact condition is `PreKeys.RetriedEverOrNever`. A restart before the account was saved, and a PUT that
  succeeds but whose reply is lost, make the next publication repeat an id, whatever happens before
  it (`PreKeys.UnsavedRestartReissues`, `PreKeys.LostReplyReissues`).
- A group log that is still partial after 256 pages is not an error: the sync returns and caches the
  older state after the last page read (`GroupLogs.LongLogIsCutShort`).
- A cached device list that is empty is never rediscovered, and a 409 repair that fails after
  dropping a device wedges the recipient when no bundle is available for that device (the last
  three clauses of `Delivery.Client.SendContent`; `Delivery.EmptyListArises` and
  `Delivery.WedgeArises` show runs that end so).
- Sends that run at once can lose a session and put a stale device list back in the cache
  (`SendRace.SessionCanBeLost`, `SendRace.StaleListCanReturn`).
- A backup stream cut inside any frame but the first imports like a complete one
  (`Frames.TruncationIsSilent`, `Frames.CutInfoIsReported`).
- A ten-byte length is read modulo 2^64 before the overflow check: its last byte is dropped whenever
  it is even, so that 2^64 reads as 0. Needless zero groups are accepted as well
  (`Frames.AcceptedVarint`, `Frames.WrappedLengthIsRead`, `Frames.NeedlessZeroIsRead`).
- The memory store reports registration id 0 before an identity is set, where the SQL store reports
  that none is found; used Kyber ids differ when unknown ids are marked or used ids are stored
  again (`SignalStores.OtherwiseTheyDiffer`).

## Model

| member | source | states |
|---|---|---|
| WsClient.BeginKeepsInv | internal/ws/client.go:185-186 | allocating an id and a channel keeps the multiplexer's invariant, also when the 64-bit id wraps |
| WsClient.RegisterKeepsInv | internal/ws/client.go:187-193 | registering or being refused keeps the invariant: the channel in `pending` is open and filed under its own Send's id |
| WsClient.AdvanceKeepsInv | internal/ws/client.go:211-227 | writing, cancelling, seeing the closed channel or the end of the read loop keep the invariant |
| WsClient.ReceiveKeepsInv | internal/ws/client.go:214-219 | taking the buffered response moves it from the channel to the Send and to no other |
| WsClient.DeregisterKeepsInv | internal/ws/client.go:194-198 | the deferred delete keeps the invariant |
| WsClient.DispatchKeepsInv | internal/ws/client.go:334-350 | dispatching never panics, and only the Send registered under the id can come to hold the response |
| WsClient.CloseAllKeepsInv | internal/ws/client.go:159-163 | closing every pending channel never closes one twice and leaves `pending` empty |
| WsClient.StepKeepsInv | internal/ws/client.go:153-360 | no step from a state in the invariant panics, and every step that can happen keeps it |
| WsClient.RunKeepsInv | internal/ws/client.go:153-360 | the same for every finite run |
| WsClient.NoRunPanics | internal/ws/client.go:153-198 | no interleaving sends on a closed channel or closes one twice; in every reachable state each channel in `pending` is open and filed under its own id, and a closed client has an empty `pending` |
| WsClient.AnswersMatch | internal/ws/client.go:184-228 | a response a Send returns carries its id, is the first with that id dispatched since it registered, and is returned by no other Send |
| WsClient.NoAnswerIsLost | internal/ws/client.go:345-348 | with at most 2^64 Sends made, while a Send waits on an open channel, a response dispatched for it is in the channel |
| WsClient.InertResponse | internal/ws/client.go:340-348 | a response without an entry for its id (unsolicited, late, or after Close), or whose Send has its answer or has given up, changes no Send and no channel still to be read |
| WsClient.InertResponseLeavesNoTrace | internal/ws/client.go:334-350 | taking such a response out of a run leaves the rest of the run possible and every Send with the same outcome and, if answered, the same response |
| WsClient.OtherResponsesAnswer | internal/ws/client.go:211-219 | any other response has an effect: there is a continuation in which the Send it is filed under returns it |
| WsClient.OutcomesAreFinal | internal/ws/client.go:211-227 | no later step changes the outcome of a Send |
| WsClient.ClosedForEver | internal/ws/client.go:187-191 | in every continuation of a closed state no further Send registers and `pending` stays empty |
| WsClient.WaitingSendsCanReturn | internal/ws/client.go:153-228 | with the read loop ended, or the client closed and at most 2^64 Sends made, every waiting Send has an enabled exit |
| WsClient.CloseReleasesAll | internal/ws/client.go:153-163 | after Close in any reachable state the client is closed, `pending` is empty, the channels that were in it are closed, every waiting Send can return (with at most 2^64 Sends) and every Send that has not registered is refused |
| WsClient.ReadLoopCanEnd | internal/ws/client.go:352-360 | from every reachable state the read loop can end, which closes the client and gives every waiting Send an exit |
| WsClient.OutcomesHaveCauses | internal/ws/client.go:184-228 | over every run: a refused Send met a closed client, a failed write gives its error and nothing else does, a received answer or closed channel comes from a receive, a cancelled Send was cancelled, the end of the read loop is reported only once it has ended; no such step leaves its Send waiting |
| WsClient.WrapAroundStrandsASend | internal/ws/client.go:185-192 | for any larger number of Sends, a run to a closed state in which a waiting Send has no exit |
| WsClient.WrapAroundLosesAnAnswer | internal/ws/client.go:185-192 | and a run in which a waiting Send's answer has gone to a later Send with the same id |
| WsClient.Client.SendBegin | internal/ws/client.go:184-186 | the head of Send adds one Send with an open, empty channel, takes the state where the step says and keeps the invariant |
| WsClient.Client.SendRegister | internal/ws/client.go:187-193 | the first critical section of Send: refused exactly when closed, the step otherwise |
| WsClient.Client.SendDeregister | internal/ws/client.go:194-198 | the deferred critical section is the step |
| WsClient.Client.DispatchResponse | internal/ws/client.go:334-350 | handing a response over is the step; the non-blocking send drops a second one |
| WsClient.Client.CloseEveryPending | internal/ws/client.go:160-163 | the shared loop closes exactly the pending channels, each while open, in any order of the map |
| WsClient.Client.FailPendingSends | internal/ws/client.go:352-360 | closes the client and every pending channel, empties `pending`, changes no Send: the step |
| WsClient.Client.CloseClient | internal/ws/client.go:153-164 | closes the client and every pending channel, empties `pending`, changes no Send: the step; a second Close changes nothing |
| Delivery.MapSendError | internal/web/messages.go:229-247 | no error exactly for an accepted reply; a device error exactly for a 409 or 410 that lists devices, with those lists; without lists a plain error |
| Delivery.KeepMembers | pkg/signal/send.go:638-653 | filtering keeps exactly the addresses of devices not listed, and introduces no duplicate |
| Delivery.FixedServersExist | pkg/signal/send.go:352-401 | the assumption of a fixed device set can hold for every recipient at once, whatever their sets |
| Delivery.RepairHitsTheSet | pkg/signal/send.go:362-383 | dropping the extra and appending the missing devices gives exactly the server's set, each once |
| Delivery.RepairIsAccepted | pkg/signal/send.go:352-401 | when the recipient's device set is fixed, the repaired list is accepted whenever it is sent |
| Delivery.FilterOutDevices | pkg/signal/send.go:638-653 | the skip-set loop computes the addresses of the devices not listed, in order |
| Delivery.AddressDeviceIds | pkg/signal/send.go:656-662 | the device ids of the addresses, in order |
| Delivery.Client.FetchAndProcessBundle | pkg/signal/send.go:405-414 | success establishes exactly the one session, anew; a device without bundles always fails |
| Delivery.Client.EnsureListed | pkg/signal/send.go:305-316 | success adds sessions for exactly the devices discovered and renews none that was there |
| Delivery.Client.EnsureCached | pkg/signal/send.go:326-337 | success adds sessions for exactly the devices of the cached list and renews none that was there; a device without session and bundle makes it fail |
| Delivery.Client.DiscoverAndEnsureSessions | pkg/signal/send.go:290-344 | on success every address has a session, the list is the cached one, and only the first send discovers; an empty cached list succeeds; nothing is cached on failure |
| Delivery.Client.DropSessions | pkg/signal/send.go:362-368 | success removes exactly the sessions of the extra devices |
| Delivery.Client.AddMissing | pkg/signal/send.go:369-376 | success appends the missing devices in order with a new session each; failure removes no session |
| Delivery.Client.RefreshStale | pkg/signal/send.go:384-397 | success leaves a session for every stale device that was established since the call, also where there was one before |
| Delivery.Client.HandleSendError | pkg/signal/send.go:352-401 | after a 409: the new list and the cache agree, all have sessions, the missing devices new ones; after a 410 the list is unchanged and the stale devices have new sessions; any failure leaves the cache alone; other errors pass through |
| Delivery.Client.EncryptForDevice | pkg/signal/send.go:667-706 | encryption needs a session and fails with that error exactly without one; sealed envelopes are type 6, others libsignal's type with 2 replaced by 1 |
| Delivery.Client.BuildSendRequest | pkg/signal/send.go:589-635 | one envelope per address in order, only if every address has a session; type 6 on the sealed path, never libsignal's 2 on the other |
| Delivery.Client.SendMessage | internal/web/messages.go:168-190 | an empty message list is refused without a PUT; otherwise one PUT to the recipient, of the messages' devices and types, whose reply is mapped |
| Delivery.Client.SendAgain | pkg/signal/send.go:216-230 | after a 409 the second PUT goes to the repaired list, which is then cached; a bundle that is not handed out makes the repair fail with the old list cached; if all devices were extra nothing is sent; after a 410 the second PUT, which is made unless something around it fails, goes to the same devices, the stale ones with new sessions; it is of the path's envelopes, and its devices keep their sessions, the extra ones none |
| Delivery.Client.Deliver | pkg/signal/send.go:204-264 | at most two PUTs, the first to the given list; success means the last was accepted; what a 409 and a 410 leave, the retry after a 410 included; when the recipient's device set is fixed the retry converges on both paths, and with everything around it working the send fails only for an empty set |
| Delivery.Client.SendContent | pkg/signal/send.go:169-201 | the whole send from any state: at most two PUTs, each of the path's envelope types, no address without a session, convergence in one retry, one more PUT to the same devices over new sessions after a 410, stability afterwards, other recipients' lists and sessions untouched, and the two ways a recipient gets stuck |
| Delivery.EmptyListArises | pkg/signal/send.go:295-340 | a run in which a 409 that calls every device extra caches the empty list, and the next send makes no PUT |
| Delivery.WedgeArises | pkg/signal/send.go:362-376 | a run in which a repair that fails on a missing bundle leaves the cached device without session and bundle, and the next send fails |
| SendRace.StepKeepsInv | pkg/signal/send.go:204-401 | however sends interleave, each one's list stays free of duplicates and what it learnt from its 409 stays the difference between that list and the server's set |
| SendRace.RunKeepsInv | pkg/signal/send.go:204-401 | the same for every run |
| SendRace.RetriesAreAccepted | pkg/signal/send.go:216-230 | no interleaving makes a retry fail at the server, or leaves a send without devices |
| SendRace.CacheAfterStep | pkg/signal/send.go:290-344 | the last write wins: a repaired list is the server's set, a discovered one is what was discovered, and nothing else writes |
| SendRace.LaterSendConverges | pkg/signal/send.go:169-201 | from every reachable cached list a later send on its own converges |
| SendRace.LoneSendIsDelivered | pkg/signal/send.go:169-401 | a send begun in any reachable state and left alone can always go on and ends delivered, after at most two PUTs, with the server's set cached and a session for each of its devices |
| SendRace.SessionCanBeLost | pkg/signal/send.go:362-368 | a run in which one send's repair deletes a session another is about to use |
| SendRace.StaleListCanReturn | pkg/signal/send.go:318-323 | a run in which a list discovered before a repair is cached after it |
| KeysCooldown.Clamp | pkg/signal/send.go:454-463 | cooldowns are positive and at most five minutes, and in that range what the server asked for |
| KeysCooldown.CooldownEnd | pkg/signal/send.go:454-487 | a 429 sets the cooldown the server asked for, two seconds if it named none, five minutes at most |
| KeysCooldown.CooldownStands | pkg/signal/send.go:416-476 | no fetch in between changes the cooldown a 429 set before it ends |
| KeysCooldown.NoFetchDuringCooldown | pkg/signal/send.go:431-452 | after a 429 no fetch for that recipient reaches the network until the cooldown ends, and each refusal states the time left |
| KeysCooldown.CooldownsComeFrom429 | pkg/signal/send.go:416-429 | every cooldown in force was set by a 429 from the network for that recipient |
| KeysCooldown.RefusalsAreShort | pkg/signal/send.go:431-452 | a refusal's time is positive and at most five minutes |
| KeysCooldown.RefusedExactly | pkg/signal/send.go:416-452 | a fetch is refused if and only if it starts before the end of the cooldown of an earlier 429 from the network for its recipient; any other gets the network's reply |
| KeysCooldown.RefusalKeepsTable | pkg/signal/send.go:431-452 | refusals never extend a cooldown |
| KeysCooldown.WaitingIsEnough | pkg/signal/send.go:431-452 | the next fetch made after waiting the stated time reaches the network |
| KeysCooldown.Cooldowns.Gate | pkg/signal/send.go:431-452 | refuses exactly before the stored time; drops the entry otherwise, which no later fetch notices |
| KeysCooldown.Cooldowns.SetKeysRateLimit | pkg/signal/send.go:454-467 | from now on fetches are refused for the clamped backoff and no longer |
| KeysCooldown.Cooldowns.ClearKeysRateLimit | pkg/signal/send.go:469-476 | at no time is the recipient refused any more, and the others exactly as before |
| KeysCooldown.Cooldowns.FetchDefensively | pkg/signal/send.go:416-429 | gate, fetch and bookkeeping together are one step of the run the lemmas speak of |
| PreKeys.GenerateOneTimePreKeys | internal/prekeys/prekeys.go:137-166 | succeeds exactly if the batch is not empty and lies in [1, MaxID]; the ids are consecutive |
| PreKeys.GenerateOneTimeKyberWithPairs | internal/prekeymaint/upload.go:70-94 | the same without the range: ids are consecutive modulo 2^32 |
| PreKeys.UploadKeepsInv | internal/prekeymaint/upload.go:27-68 | uploading keeps the counters equal and the published ids tiled, unless the reply to a successful PUT is lost; a failed one moves no counter; a successful one puts its whole batch in the inventory |
| PreKeys.LinkEstablishesInv | pkg/signal/link.go:168-324 | linking succeeds exactly when generating, storing, publishing and saving all do; the account, on disk too, is then past the ids 2 to count + 1, which are the batch published, and the store holds that batch and the last-resort key 1 |
| PreKeys.EventKeepsInv | internal/prekeymaint/maintain.go:60-101 | top-ups, consumption and safe restarts keep the invariant |
| PreKeys.RunKeepsInv | internal/prekeymaint/maintain.go:60-101 | so does every run of them |
| PreKeys.SavedRunsAreSafe | internal/prekeymaint/maintain.go:92-99 | over every run in which each top-up can save: the account on disk stays the one in memory, so that restarts are safe throughout |
| PreKeys.UnsavedTopUp | internal/prekeymaint/maintain.go:95-99 | a needed top-up that cannot save fails and leaves the disk as it was; a restart is unsafe after it exactly if its upload succeeded |
| PreKeys.TileMembers | internal/prekeymaint/upload.go:64-65 | the published ids are exactly those from 2 up to the counter |
| PreKeys.AllocatorIsSound | internal/prekeymaint/upload.go:46-94 | over every run from linking on: counters equal and at most MaxID + 1, every published id in both namespaces in [2, MaxID] and published once, so the last-resort id never |
| PreKeys.TopUpFillsInventory | internal/prekeymaint/maintain.go:60-101 | a top-up that reports success leaves both counts at the smaller of threshold and batch, or more |
| PreKeys.TopUpUntilExhausted | internal/prekeys/prekeys.go:137-166 | with nothing failing, a needed top-up succeeds exactly while a whole batch fits below MaxID |
| PreKeys.FailedTopUpCounts | internal/prekeymaint/upload.go:54-67 | from a store that holds no id at or above the counters, a top-up that fails while writing or at the PUT leaves the inventory larger by exactly the records written, EC first |
| PreKeys.RetryAfterFailedTopUp | internal/prekeymaint/maintain.go:73-98 | from such a store, the top-up that follows directly retries exactly if those records leave a count below the threshold (after a failed PUT: one of the counts plus the batch is below it), and then uploads the same ids; otherwise it reports success and publishes nothing |
| PreKeys.StuckForGood | internal/prekeymaint/maintain.go:60-101 | from any state in which the unpublished keys alone reach the threshold in both namespaces, no run with thresholds up to it publishes anything, restarts and failures included |
| PreKeys.LeadsToTopUp | internal/prekeymaint/maintain.go:60-101 | from any other state, using up the published keys leads to a top-up that publishes |
| PreKeys.RetriedEverOrNever | internal/prekeymaint/upload.go:54-67 | after a failed top-up from such a store: if the records written reach the threshold in both namespaces by themselves no later run with thresholds up to it publishes anything, otherwise one publishes the very ids of the failed top-up |
| PreKeys.RefusedForGood | internal/prekeymaint/upload.go:54-67 | from any store, after a refused PUT with all records written, no later run with thresholds up to the batch publishes anything |
| PreKeys.FailingAgainChangesNothing | internal/prekeymaint/upload.go:54-67 | once a whole batch is stored, further failures leave the device as it is, so the same ids are tried until a PUT gets through |
| PreKeys.NextPublicationReissues | internal/prekeymaint/upload.go:54-67 | when both counters in memory and on disk point at published ids, the next publication repeats one, whatever happens before it |
| PreKeys.UnsavedRestartReissues | internal/prekeymaint/maintain.go:95-99 | so it does after a restart from any unsaved account |
| PreKeys.LostReplyReissues | internal/prekeymaint/upload.go:62-67 | and after a successful PUT whose reply is lost |
| PreKeys.Phone.PersistOneTimePreKeys | internal/prekeys/persist.go:14-53 | EC records first, then Kyber; a failure leaves exactly the records written before it |
| PreKeys.Phone.UploadOneTimeBatch | internal/prekeymaint/upload.go:27-68 | generate, persist, publish, advance: exactly the step, counters last |
| PreKeys.Phone.MaybeTopUp | internal/prekeymaint/maintain.go:60-101 | does nothing if both counts reach the threshold (10 by default); otherwise success means one batch (100 by default) published, the counters past it and the account saved, and failure leaves the saved account as it was; exactly the step |
| SignalStores.KeyIsInjective | internal/store/signal_stores.go:26-28 | no two addresses share a key, whatever the service id |
| SignalStores.LoadsReturnLastWrite | internal/store/memstore/signal_stores.go:53-241 | after any operations every load returns, from both stores, the last write for that very address or id; only the registration id before an identity is set differs |
| SignalStores.InventoriesFromHistory | internal/store/sqlstore/signal_stores.go:216-277 | which Kyber keys are counted, from the history: stored, not the last resort, and never marked used in memory, not marked since last stored in SQL |
| SignalStores.TrustOnFirstUse | internal/store/sqlstore/signal_stores.go:73-114 | a key is trusted exactly if none or the same one was saved last for the address; saving reports a replacement otherwise |
| SignalStores.OpSimulates | internal/store/sqlstore/signal_stores.go:73-277 | one agreeable operation gets the same reply from both stores and keeps them equal |
| SignalStores.StoresSimulate | internal/store/memstore/signal_stores.go:53-259 | so does every sequence, from any equal pair |
| SignalStores.EmptyStoresSimulate | internal/store/memstore/signal_stores.go:39-49 | and from two new stores |
| SignalStores.OtherwiseTheyDiffer | internal/store/sqlstore/signal_stores.go:216-234 | from any equal pair, an operation outside the conditions has a continuation with different replies |
| SignalStores.UsedAgainDiffers | internal/store/sqlstore/signal_stores.go:216-226 | storing a used Kyber id again makes the inventories differ |
| SignalStores.UnknownUsedDiffers | internal/store/memstore/signal_stores.go:208-213 | marking an unknown Kyber id used makes them differ once it is stored |
| SignalStores.CountsFromHistory | internal/store/sqlstore/signal_stores.go:264-277 | the counts both inventories report, from the history of operations |
| Inventory.CountUnused | internal/store/memstore/signal_stores.go:250-257 | the counting loop counts the unused ids other than the last resort |
| SignalStores.MemStores.SetLocalIdentity | internal/store/memstore/signal_stores.go:53-60 | the store holds what the history of operations, extended by this one, determines |
| SignalStores.MemStores.StoreSession | internal/store/memstore/signal_stores.go:127-132 | the store holds what the history of operations, extended by this one, determines |
| SignalStores.MemStores.DeleteSession | internal/store/memstore/signal_stores.go:135-140 | the store holds what the history of operations, extended by this one, determines |
| SignalStores.MemStores.StorePreKey | internal/store/memstore/signal_stores.go:154-159 | the store holds what the history of operations, extended by this one, determines |
| SignalStores.MemStores.RemovePreKey | internal/store/memstore/signal_stores.go:162-167 | the store holds what the history of operations, extended by this one, determines |
| SignalStores.MemStores.StoreSignedPreKey | internal/store/memstore/signal_stores.go:181-186 | the store holds what the history of operations, extended by this one, determines |
| SignalStores.MemStores.StoreKyberPreKey | internal/store/memstore/signal_stores.go:200-205 | the store holds what the history of operations, extended by this one, determines |
| SignalStores.MemStores.MarkKyberPreKeyUsed | internal/store/memstore/signal_stores.go:208-213 | the store holds what the history of operations, extended by this one, determines |
| SignalStores.MemStores.StoreSenderKey | internal/store/memstore/signal_stores.go:236-241 | the store holds what the history of operations, extended by this one, determines |
| SignalStores.MemStores.SaveIdentity | internal/store/memstore/signal_stores.go:91-101 | extends the history by the saved key; reports a replacement exactly if another key was saved last for the address |
| SignalStores.MemStores.IsTrustedIdentity | internal/store/memstore/signal_stores.go:105-113 | trusted exactly if no key or this one was saved last for the address |
| SignalStores.MemStores.LocalIdentityKey | internal/store/memstore/signal_stores.go:63-70 | the key pair set last, not found if none was |
| SignalStores.MemStores.LocalRegistrationId | internal/store/memstore/signal_stores.go:73-77 | the registration id set last, 0 if none was |
| SignalStores.MemStores.LoadIdentity | internal/store/memstore/signal_stores.go:80-88 | the key saved last for this very address |
| SignalStores.MemStores.LoadSession | internal/store/memstore/signal_stores.go:116-124 | the session stored last for this very address and not deleted since |
| SignalStores.MemStores.LoadPreKey | internal/store/memstore/signal_stores.go:143-151 | the record stored last under the id and not removed since |
| SignalStores.MemStores.LoadSignedPreKey | internal/store/memstore/signal_stores.go:170-178 | the record stored last under the id |
| SignalStores.MemStores.LoadKyberPreKey | internal/store/memstore/signal_stores.go:189-197 | the record stored last under the id, used or not |
| SignalStores.MemStores.LoadSenderKey | internal/store/memstore/signal_stores.go:225-233 | the record stored last for this very address and distribution id |
| SignalStores.MemStores.CountAvailableOneTimePreKeys | internal/store/memstore/signal_stores.go:244-259 | the EC keys stored and not removed since, and the Kyber keys without the last resort that were stored and never marked used |
| SignalStores.SqlStores.SetLocalIdentity | internal/store/sqlstore/signal_stores.go:23-35 | the store holds what the history of operations, extended by this one, determines |
| SignalStores.SqlStores.StoreSession | internal/store/sqlstore/signal_stores.go:128-138 | the store holds what the history of operations, extended by this one, determines |
| SignalStores.SqlStores.DeleteSession | internal/store/sqlstore/signal_stores.go:140-146 | the store holds what the history of operations, extended by this one, determines |
| SignalStores.SqlStores.StorePreKey | internal/store/sqlstore/signal_stores.go:160-170 | the store holds what the history of operations, extended by this one, determines |
| SignalStores.SqlStores.RemovePreKey | internal/store/sqlstore/signal_stores.go:172-178 | the store holds what the history of operations, extended by this one, determines |
| SignalStores.SqlStores.StoreSignedPreKey | internal/store/sqlstore/signal_stores.go:192-202 | the store holds what the history of operations, extended by this one, determines |
| SignalStores.SqlStores.StoreKyberPreKey | internal/store/sqlstore/signal_stores.go:216-226 | the store holds what the history of operations, extended by this one, determines |
| SignalStores.SqlStores.MarkKyberPreKeyUsed | internal/store/sqlstore/signal_stores.go:228-234 | the store holds what the history of operations, extended by this one, determines |
| SignalStores.SqlStores.StoreSenderKey | internal/store/sqlstore/signal_stores.go:251-261 | the store holds what the history of operations, extended by this one, determines |
| SignalStores.SqlStores.SaveIdentity | internal/store/sqlstore/signal_stores.go:73-103 | extends the history by the saved key; reports a replacement exactly if another key was saved last for the address |
| SignalStores.SqlStores.IsTrustedIdentity | internal/store/sqlstore/signal_stores.go:105-114 | trusted exactly if no key or this one was saved last for the address |
| SignalStores.SqlStores.LocalIdentityKey | internal/store/sqlstore/signal_stores.go:37-47 | the key pair set last, not found if none was |
| SignalStores.SqlStores.LocalRegistrationId | internal/store/sqlstore/signal_stores.go:49-59 | the registration id set last, not found if none was |
| SignalStores.SqlStores.LoadIdentity | internal/store/sqlstore/signal_stores.go:61-71 | the key saved last for this very address |
| SignalStores.SqlStores.LoadSession | internal/store/sqlstore/signal_stores.go:116-126 | the session stored last for this very address and not deleted since |
| SignalStores.SqlStores.LoadPreKey | internal/store/sqlstore/signal_stores.go:148-158 | the record stored last under the id and not removed since |
| SignalStores.SqlStores.LoadSignedPreKey | internal/store/sqlstore/signal_stores.go:180-190 | the record stored last under the id |
| SignalStores.SqlStores.LoadKyberPreKey | internal/store/sqlstore/signal_stores.go:204-214 | the record stored last under the id, used or not |
| SignalStores.SqlStores.LoadSenderKey | internal/store/sqlstore/signal_stores.go:236-249 | the record stored last for this very address and distribution id |
| SignalStores.SqlStores.CountAvailableOneTimePreKeys | internal/store/sqlstore/signal_stores.go:264-277 | the EC keys stored and not removed since, and the Kyber keys without the last resort that were not marked used since they were last stored |
| GroupLogs.HeaderRoundTrip | internal/web/groups_logs.go:97-118 | the parser reads from the header a server writes the revision after the page, or refuses a number beyond 32 bits |
| GroupLogs.Trimmed | internal/web/groups_logs.go:98 | white space is removed at both ends and nowhere else |
| GroupLogs.HeaderIsRead | internal/web/groups_logs.go:97-118 | and of a header of that form exactly the number after its second one is returned, if that is a uint32, wrapping after the largest |
| GroupLogs.AcceptedHeader | internal/web/groups_logs.go:97-118 | every header accepted has the form, white space at its ends aside |
| GroupLogs.PartialPageEnd | internal/web/groups_logs.go:97-118 | from the header of a partial page the parser reads where the page ended |
| GroupLogs.FetchGroupLogs | internal/web/groups_logs.go:38-93 | a partial page's next revision is where the page ended |
| GroupLogs.LastOf | pkg/signal/group_logs.go:119-128 | the loop over the entries keeps the last state among them, or the one from before |
| GroupLogs.PageKeepsLatest | pkg/signal/group_logs.go:119-128 | one more page keeps the choice equal to reading the log up to there |
| GroupLogs.PageProgress | pkg/signal/group_logs.go:108-140 | one more page keeps the tiling, the choice, the endorsements and the shape of the requests |
| GroupLogs.LastGse | pkg/signal/group_logs.go:132-134 | the endorsements of the last page that has any |
| GroupLogs.PagesAdvance | pkg/signal/group_logs.go:115-141 | reading stops for want of pages only after at least as many revisions as pages, so a rest of at most 256 revisions is read to its end |
| GroupLogs.ReadPage | pkg/signal/group_logs.go:109-139 | the loop body keeps the progress; it fails exactly on a failing request or a start beyond the log |
| GroupLogs.CollectPages | pkg/signal/group_logs.go:110-141 | whatever the page sizes: the pages tile the log up to the revision reached, at most 256 requests, the snapshot and endorsements are those of that whole part, and it fails exactly on a failing request or a start beyond the log |
| GroupLogs.SyncReadsWholeLog | pkg/signal/group_logs.go:92-158 | when the server ends the log within 256 pages of any size, or 256 revisions are left, a sync gives the last state of the whole log, what FetchGroup answers if none is carried, and nothing if it cannot be decrypted |
| GroupLogs.LongLogIsCutShort | pkg/signal/group_logs.go:115-157 | when the 256th page is still partial the sync returns, as a success, the last state carried up to that page (with a server that adds it, the one after the page), and asks FetchGroup only if there is none |
| GroupLogs.SyncSucceeds | pkg/signal/group_logs.go:96-158 | without failing requests and undecryptable states a sync from within the log succeeds |
| GroupLogs.CacheHoldsMaximum | pkg/signal/group_revision.go:12-33 | in any order of stores and deletes the cache holds the largest revision stored since the last delete |
| GroupLogs.GroupClient.CachedGroupRevision | pkg/signal/group_revision.go:12-16 | returns that largest revision, for the stores and deletes of this client |
| GroupLogs.GroupClient.StoreGroupRevision | pkg/signal/group_revision.go:18-27 | the cache holds the maxima of the history of stores and deletes, extended by this store |
| GroupLogs.GroupClient.DeleteGroupRevision | pkg/signal/group_revision.go:29-33 | the same, extended by this delete |
| GroupLogs.GroupClient.FetchGroup | pkg/signal/group.go:88-143 | on success stores the revision of what it returns, under the key and nowhere else its endorsements if there are any and that works, and a positive expire timer; on failure nothing |
| GroupLogs.GroupClient.SyncGroup | pkg/signal/group_logs.go:96-158 | succeeds and fails exactly as reading through the pages, decrypting the snapshot and falling back to FetchGroup do; stores the revision it returns and, under the key and nowhere else, the last endorsements seen if that works; what the fallback stores; nothing on failure |
| PollBot.WithFieldsLaws | pkg/bot/convo.go:51-113 | a write to one conversation is seen there and nowhere else, and empty ones are not kept |
| PollBot.MemoryConvoStore.Get | pkg/bot/convo.go:56-65 | the field if it is there |
| PollBot.MemoryConvoStore.Set | pkg/bot/convo.go:68-77 | one field of one conversation changes |
| PollBot.MemoryConvoStore.Delete | pkg/bot/convo.go:80-91 | one field goes, and the conversation with its last field |
| PollBot.MemoryConvoStore.Clear | pkg/bot/convo.go:94-98 | the conversation goes |
| PollBot.MemoryConvoStore.All | pkg/bot/convo.go:101-113 | the copying loop returns all fields, in any order of the map |
| PollBot.VotedCounts | examples/poll-bot/main.go:84-112 | a new vote adds one to its choice and takes one from the sender's previous choice |
| PollBot.RevoteCounts | examples/poll-bot/main.go:84-100 | so it does to the number of voters of each choice |
| PollBot.VotedFields | examples/poll-bot/main.go:84-100 | the vote fields stay those of the recount, for every sender |
| PollBot.OpenTallies | examples/poll-bot/main.go:24-33 | opening a poll leaves no vote of an earlier one and stores the question |
| PollBot.EventTallies | examples/poll-bot/main.go:24-41 | every event keeps counters and vote fields equal to the recount |
| PollBot.TallyEqualsRecount | examples/poll-bot/main.go:61-112 | after any events, in every group, the stored counters are the numbers of senders whose last vote while the poll was open is that choice |
| PollBot.QuestionIsLast | examples/poll-bot/main.go:24-33 | after any events the stored question is that of the poll last opened in the group, and there is none before |
| PollBot.DecrementIsNeverSkipped | examples/poll-bot/main.go:107-112 | the guard in decrement never suppresses a decrement that is due |
| PollBot.Bot.ParseInt | examples/poll-bot/main.go:114-118 | the number in a field, 0 if it holds none or is absent |
| PollBot.Bot.Increment | examples/poll-bot/main.go:102-105 | the counter grows by one |
| PollBot.Bot.Decrement | examples/poll-bot/main.go:107-112 | the counter shrinks by one if positive |
| PollBot.Bot.ClearVotes | examples/poll-bot/main.go:61-68 | the loop removes exactly the vote fields, in any order of the map |
| PollBot.Bot.OpenThePoll | examples/poll-bot/main.go:28-36 | the writes and the clearing together are the event |
| PollBot.Bot.CloseThePoll | examples/poll-bot/main.go:38-41 | closing is the event |
| PollBot.Bot.ApplyVote | examples/poll-bot/main.go:84-100 | voting, re-voting and repeating a vote are the event, in the group of the reaction only |
| Decimal.ItoaRoundTrip | examples/poll-bot/main.go:102-118 | the numerals written read back as the number |
| Bits.OrAddsHighBits | internal/backup/frames.go:50 | or-ing in a shifted group above the bits in use adds it |
| Bits.AndLowBits | internal/backup/frames.go:50 | masking the low bits is the remainder |
| Bits.AndOneBit | internal/backup/frames.go:51 | masking one bit tests it |
| Bits.OrIsZero | internal/backup/decrypt.go:134-136 | an or is zero exactly if both operands are |
| Bits.XorIsZero | internal/backup/decrypt.go:134-136 | an exclusive or is zero exactly for equal operands |
| Frames.AccumulateGroup | internal/backup/frames.go:50 | one turn of the varint loop adds the next base-128 digit, modulo 2^64 |
| Frames.VarintOutcome | internal/backup/frames.go:44-61 | what a number of continuation bytes means: too long after ten, end of input, or the value at the first other byte |
| Frames.VarintRoundTrip | internal/backup/frames.go:65-72 | reading undoes encoding for every non-negative int, whatever follows, in at most nine bytes |
| Frames.CanonicalVarint | internal/backup/frames.go:65-72 | a varint is the encoding of the number it denotes exactly if it does not end in a needless zero group |
| Frames.AcceptedVarint | internal/backup/frames.go:38-62 | what is accepted: up to nine bytes as the number they denote, ten bytes exactly with an even last byte, which is dropped; and which of these the encoder writes |
| Frames.NeedlessZeroIsRead | internal/backup/frames.go:38-62 | an accepted input with a needless zero group |
| Frames.WrappedLengthIsRead | internal/backup/frames.go:50-55 | 2^64 in ten bytes is read as 0, past the overflow check |
| Frames.ByteReader.ReadVarintCounted | internal/backup/frames.go:38-62 | the loop with shifts and masks returns the base-128 sum modulo 2^64 and the bytes read, at most ten; refuses overflow and long input |
| Frames.ByteReader.ReadVarintFrame | internal/backup/frames.go:11-31 | reads the length and then exactly that many bytes, or tells how the input ended |
| Frames.FrameRoundTrip | internal/backup/frames.go:11-31 | a printed frame reads back, whatever follows |
| Frames.ReadAfterFrames | internal/backup/frames.go:11-31 | printed frames read back and leave what follows |
| Frames.FramesRoundTrip | internal/backup/frames.go:11-31 | any list of frames, printed and read until the input ends, is returned |
| Frames.AcceptedFrame | internal/backup/frames.go:11-31 | a frame that is read is the printed form of the result exactly if its length is written without a needless zero in fewer than ten bytes |
| Frames.CutFrame | internal/backup/frames.go:24-27 | a frame cut off anywhere reads as an end of input |
| Frames.ImportCounts | internal/backup/import.go:83-105 | when the frame loop succeeds, and that it then has counted the non-empty frames by kind |
| Frames.TallyCounts | internal/backup/import.go:107-210 | each counter is the number of positions at which a frame of its kind stands |
| Frames.ImportCountsKinds | internal/backup/import.go:83-105 | whatever the stream, the counters of a successful import are the numbers of non-empty frames of each kind read |
| Frames.ImportIsExact | internal/backup/import.go:68-105 | over a well-formed stream: success exactly if the info frame is good, every non-empty frame after it is accepted and imports, and the validator finishes; contacts, groups, identities, chat items and frames are then the numbers of frames of each kind |
| Frames.TruncationIsSilent | internal/backup/import.go:83-87 | a stream cut inside any frame after the first imports like the frames before the cut |
| Frames.CutInfoIsReported | internal/backup/import.go:72-75 | a stream cut inside the first frame is an error |
| Frames.ImportContact | internal/backup/import.go:139-185 | fails exactly on a malformed identity that is looked at or a store that refuses it; moves the contact and the identity counter, each by one exactly where it applies, and no other |
| Frames.ImportsExactly | internal/backup/import.go:107-210 | a frame imports exactly if it decodes, holds no malformed identity that is looked at, and what it is handed to takes it |
| Frames.ImportFrame | internal/backup/import.go:107-137 | the same for every kind of frame: when it fails, and one more on exactly the counters the frame is about |
| Frames.ImportPlaintext | internal/backup/import.go:68-105 | the loop with its reader and counters computes the import, and its counters are the numbers of frames of each kind read |
| Pkcs7.PadLength | internal/attachment/cipher.go:184-187 | between 1 and the block size, and reaches a multiple of it |
| Pkcs7.PadLengthUnique | internal/attachment/cipher.go:184-187 | the only such length |
| Pkcs7.UnpadInvertsPad | internal/attachment/cipher.go:183-210 | unpadding returns a plaintext exactly if the input is its padding |
| Pkcs7.AlignmentCheckMatters | internal/provisioning/cipher.go:88-90 | without the alignment check the unpadder differs exactly on unaligned inputs that end like padding |
| Pkcs7.PadAttachment | internal/attachment/cipher.go:183-194 | the buffer loop writes the padding |
| Pkcs7.UnpadAttachment | internal/attachment/cipher.go:196-210 | the direct comparison is the unpadding |
| Pkcs7.UnpadBackup | internal/backup/decrypt.go:124-140 | the accumulator over the tail gives the same answer |
| Pkcs7.UnpadProvisioning | internal/provisioning/cipher.go:140-158 | the accumulator by index gives the same answer on aligned input |
| Envelope.UnpadsExactlyCarried | internal/provisioning/cipher.go:78-92 | an authentic body carries exactly the message its payload unpads to |
| Envelope.Decrypt | internal/provisioning/cipher.go:48-102 | returns a message exactly if a public key is given, the agreement works and the body is the message's envelope under the agreed keys; the first checks in their order |
| Attachment.OpensExactlySeals | internal/attachment/cipher.go:137-153 | an authentic blob decrypts to a plaintext exactly if it is its sealing |
| Attachment.RoundTrip | internal/attachment/cipher.go:72-162 | decrypting undoes encrypting for every plaintext, with or without digest, and truncates to the stated length or reports it as too long |
| Attachment.AcceptsExactlySealed | internal/attachment/cipher.go:110-162 | decrypting gives a result exactly if the blob seals a plaintext, the digest is right and the stated length is not beyond it; the result is the plaintext up to that length |
| Attachment.CiphertextLengthIsExact | internal/attachment/cipher.go:54-60 | the formula, 64-bit wrap-around included, is the blob's length exactly if that is an int64 |
| Attachment.Encrypt | internal/attachment/cipher.go:72-104 | IV, padded plaintext encrypted under the first 32 bytes of the key, tag under the last 32; digest over all; refuses keys that are not 64 bytes |
| Attachment.Decrypt | internal/attachment/cipher.go:110-162 | which check fails first gives the error, then the plaintext |
| Attachment.LeastExponent | internal/attachment/padding.go:11 | the least power of 1.05 that reaches the size |
| Attachment.LogPadBounds | internal/attachment/padding.go:7-12 | the padded size is at least the size, and the minimum or at most a twentieth more |
| Attachment.LogPadIsMonotone | internal/attachment/padding.go:7-12 | longer plaintexts are never padded shorter |
| Attachment.MinimumIsAPower | internal/attachment/padding.go:11 | the minimum 541 is 1.05 to the 129th, rounded down |
| Attachment.LogPadIsLeastPower | internal/attachment/padding.go:7-12 | the padded size is the least power of 1.05, rounded down, that is neither below the minimum nor below the size |
| Attachment.LogPadIsIdempotent | internal/attachment/padding.go:7-12 | a padded size is its own padded size |
| Attachment.LogPad | internal/attachment/padding.go:14-22 | the plaintext is a prefix of its padding, and zeros follow it |
| Attachment.TrimUndoesLogPad | internal/attachment/padding.go:24-29 | trimming to the true length recovers every non-empty plaintext and leaves 541 zeros for the empty one |
| Attachment.PadLogarithmically | internal/attachment/padding.go:14-22 | the copy into a zeroed buffer is the padding |
| Attachment.OpenV2AfterSealV2 | internal/attachment/v2.go:35-148 | decrypting with EncryptV2's own metadata always passes all checks |
| Attachment.RoundTripV2 | internal/attachment/v2.go:35-148 | given the true length, DecryptV2 undoes EncryptV2 exactly for non-empty plaintexts |
| Attachment.FallbackNeverHelps | internal/attachment/v2.go:152-160 | whatever DecryptV2 refuses without incremental metadata, Decrypt refuses too |
| Attachment.AutoRecoversBoth | internal/attachment/v2.go:152-160 | given the true length, DecryptAuto recovers every v1 plaintext and every non-empty v2 one |
| Attachment.V2AcceptsExactlySealed | internal/attachment/v2.go:88-148 | DecryptV2 gives a result exactly if the blob seals a plaintext, log-padded or not, and digest and incremental MAC are right; the result is that plaintext trimmed |
| Attachment.OverlongLengthPasses | internal/attachment/v2.go:152-160 | for every blob and metadata DecryptAuto does not report a stated length beyond the plaintext; where Decrypt does, DecryptAuto without incremental metadata returns the whole plaintext |
| Attachment.CiphertextLengthV2 | internal/attachment/v2.go:163-170 | both branches give IV, whole blocks with padding, and tag |
| Attachment.V2LengthIsExact | internal/attachment/v2.go:163-170 | that is the length of every real v2 blob, and how far it is from the plaintext's |
| Attachment.EncryptV2 | internal/attachment/v2.go:35-83 | IV, log-padded and padded plaintext encrypted under the first 32 bytes of the key, tag under the last 32, digest of the blob, hash of the plaintext; an incremental MAC with its chunk size for video/mp4 and for nothing else |
| Attachment.DecryptV2 | internal/attachment/v2.go:88-148 | which check fails first gives the error, the digest before the MACs, then the trimmed plaintext |
| Attachment.DecryptAuto | internal/attachment/v2.go:152-160 | v2 first, then legacy |
| ContentPadding.StrippedIsUnique | pkg/signal/content.go:32-47 | the specification of stripping leaves one answer |
| ContentPadding.StripUndoesPad | pkg/signal/content.go:32-47 | stripping undoes padding for every body, also one that ends in 0x80 or zeros |
| ContentPadding.UnchangedExactly | pkg/signal/content.go:29-31 | an input comes back unchanged exactly if it ends in no terminator and zeros |
| ContentPadding.PadContent | pkg/signal/send.go:847-854 | body, terminator, zeros; a multiple of 160, longer than the body by at most 160 |
| ContentPadding.StripContentPadding | pkg/signal/content.go:32-47 | the backwards loop strips |
| ContentPadding.SendAndReceive | pkg/signal/send.go:841-854 | what is stripped at the receiver is the body padded by the sender |

## Left out

- libsignal through cgo: encryption, ratchets, bundle processing, the backup validator and zero-knowledge groups are oracles; a processed bundle stores a session and encryption needs one.
- HTTP, TLS, JSON, base64 and protobuf encoding: a request is its target list, a reply its status and device lists.
- `WsClient` leaves out the keepalive and read-deadline timers, the inbound request handler, and what Close does after its critical section (closing the connection and waiting for the read loop): a context or a timeout is a step that may always fire, and fairness of select is not assumed.
- `Delivery` runs one send at a time; `SendRace` runs any number to one recipient at once, with a fixed device set, and leaves out 410 replies and what makes a step fail. The sealed and the basic path differ only in the envelope type, and the choice between them (sender certificate, access key) is a parameter.
- `Delivery` treats a failed delete of a session like any failed store access, and one bundle reply is the number of devices it lists.
- `PreKeys` covers one namespace with a store present; the top-up with missing dependencies does nothing and is left out, and linking's other identity uploads the same way.
- `SignalStores` leaves out empty records, whose reading back depends on the SQL driver, failing SQL statements, and KyberPreKeyUsed, which only the memory store has.
- `GroupLogs` leaves out group decryption, what endorsements say and when they expire (whether storing them works is a parameter), and the background sync started on a new revision; a partial page always reports the range it covers. `TrimSpace` covers the white space below U+0100.
- `PollBot` counters do not overflow; command parsing and the summary text are not modelled.
- `Frames` does not model running out of memory on a huge frame length, nor the header, the two MACs and the gzip layer of an archive.
- Attachment.LogPadSize: over exact rationals; how the float computation in the source rounds is not modelled, nor its conversion to an int beyond the range of one.
- `Attachment` takes the random IV as a parameter, hashes a concatenation where the source writes parts, and keeps the plaintext hash as bytes instead of hexadecimal.
- `Envelope` takes the outcome of the key agreement as a parameter and stops before parsing the message; the derived key and IV lengths are checked nowhere else and hold by construction.
- Account sealing, profile decryption, group change builders, the event dispatcher, bot matchers, the wizard and the crawler: straight-line code or easy claims.
- The chat reconnect loop: its claims depend on goroutine timing and on a float conversion outside the int64 range.
