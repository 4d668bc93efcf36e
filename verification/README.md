# A verified model of dynamo-cpp

dynamo-cpp serves language models from many processes. This project models its hard core in Dafny 4.11
and proves what the code promises about it:

1. **Discovery.** A key-value store with leases and prefix watches. A client that loses its connection
   resumes its watches, and the server answers with a replay of its event log or with a snapshot. Over every
   run of mutations, lease deaths, cuts and resubscriptions, what a consumer has folded together, followed by
   the frames still on their way, is the server's store under the prefix.
2. **The backend decoder.** Stop sequences are found while text streams, holding back ("jailing") text that may
   still become one. Streaming gives the answer that a search of the whole text would give, and the stream
   conserves text. Byte tokens are decoded to UTF-8 one at a time, exactly.
3. **KV block reuse.** Token blocks and their chained hashes, the pool of parked blocks with its eviction order,
   the registry of shared in-flight blocks, and prefill on top of them. No block is lost or owned twice, under
   every interleaving of handle and registry steps.
4. **The KV radix index.** Nodes are shared by reference. The score of a worker is the longest prefix it holds,
   and exactly which events keep that true.
5. **Tensor views, block copy and tensor-parallel scatter.** Strided views of any rank in 64-bit arithmetic,
   copies between block slabs, and the rescatter permutation.
6. **Codecs.** The two-part frame with its FNV-1a checksum, and the incremental server-sent-events codec.
7. **The bounded channel**, as a state machine over holds of its mutex and waits on its condition variables.

Value-level specifications and their lemmas come first in each part; the code that changes state follows as
classes and loops, each method proved against those specifications.

| files | subject |
|---|---|
| `History`, `Server`, `Watch`, `Protocol` | the store's history, the server, a watch, and both ends joined by connections |
| `DiscoveryServerImpl`, `DiscoveryClient`, `LeaseTokens`, `InProcess` | the server, the client with its instance source, and the in-process store as classes |
| `StopDecoder`, `Backend`, `Detokenizer` | stop detection, the backend stream, byte tokens to text |
| `Tokens`, `Pool`, `Eviction`, `AvailableBlocksImpl`, `Ledger`, `Reserved`, `Manager` | token blocks, the pool, block ownership, prefill |
| `Radix`, `RadixScores`, `RadixIndex` | the radix index |
| `Words`, `MixedRadix`, `Bytes`, `Tensor`, `TensorViews`, `BlockCopy`, `Scatter`, `ScatterLoops`, `CopyStreams`, `ScatterLayer` | tensors and copies |
| `Codec`, `Sse`, `SseLines`, `SseRoundTrip`, `SseDecoding` | codecs |
| `Channel` | the channel |
| `Options` | an optional value |

Properties that turned out false of the code, and exactly when they hold:

- A resubscribed watch always converges: false after a torn snapshot or a server restart. A torn first snapshot
  loses a key (`Watch.TornSnapshotLosesAKey`), a torn resync snapshot keeps a deleted one
  (`Watch.TornResyncKeepsADeletedKey`), a restart leaves the view wrong (`Watch.RestartLosesAKey`). Exact in
  `Watch.ResyncConvergesIff` for any client state and in `Watch.TornResyncConvergesIff` for any snapshot, first or
  later, cut at any frame.
- The live instance map equals the parsed store: a value that does not parse leaves the old one in place
  (`DiscoveryClient.BadValueKeepsStale`); exact in `DiscoveryClient.InstancesExact`, over whole runs in
  `DiscoveryClient.InstancesOverRuns`.
- Cancelling an in-process lease's token revokes it: not if the token was cancelled at the call, or its callback ran
  before the lease was recorded; exact in `LeaseTokens.LeaseOutlives`, and once all callbacks have run in
  `LeaseTokens.LeaseSettles`.
- An `unwatch` ends one client's watch: it ends every client's watch of that id
  (`Protocol.UnwatchHitsEveryClient`, an equivalence).
- Incremental decoding returns its input: a real U+FFFD is dropped; exact in `Detokenizer.JoinedIsInputIff`.
- Pushing tokens equals splitting them: the first block is hashed differently; exact in `Tokens.PushIsSplitIff`.
- Sequence hashes identify prefixes: blocks of four clash across depths (`Tokens.BlocksOfFourClash`); at equal depths,
  and at any depths for every other block size, they do (`Tokens.SeqHashIdentifiesPrefix`).
- Radix scores are right after every event: exact in `RadixScores.StoreScoresIff` and
  `RadixScores.RemoveScoresIff`; a second name for a path is fatal later (`RadixScores.SecondNameBreaks`).
- An accepted tensor view lies inside its storage: not `Tensor.WrappedView`; exact in `Tensor.AcceptedInStorageIff`.
- A scatter moves every head of the layer: exact in `ScatterLayer.HeadsSplitIff`.
- An accepted frame is an encoding: not for `Codec.WrappedAccepted`; exact in `Codec.AcceptedIsEncodingIff`.
- A server-sent event survives encoding: exact in `SseRoundTrip.RoundTripIff`.
- A blocked sender that could go on is woken: not always with awaiting receivers, at any capacity
  (`Channel.SenderCanBeStranded`). A state can strand one exactly when notifications are short
  (`Channel.CanStrandIff`), and a run meets such a state exactly when one of its steps parks a coroutine with none
  to spare (`Channel.StrandingIff`).

## Model

| member | source | states |
|---|---|---|
| `Server.PushLogOk` | src/discovery/server.cpp:69-87 | the log stays a contiguous run of at most 4096 revisions ending at the current one |
| `Server.MutateOk` | src/discovery/server.cpp:129-147 | every mutation keeps the store equal to the fold of its history, with entry revisions and log in step |
| `Server.RebindOk` | src/discovery/server.cpp:215-233 | writing a key keeps it bound to its own live lease only: a key carries lease L exactly when L is alive and lists it once |
| `Server.ExpireKeysEffect` | src/discovery/server.cpp:159-168 | expiring a lease's keys removes exactly them and records one delete each, in order |
| `Server.BoundAre` | src/discovery/server.cpp:159-170 | a live lease lists exactly the keys that carry it, and dropping both keeps every other binding right |
| `Server.LeaseDeath` | src/discovery/server.cpp:159-170 | lease death deletes exactly the keys bound to it, leaves every other entry as it was, and the lease's list was exactly those keys |
| `Server.PutBoundValid` | src/discovery/server.cpp:215-233 | a bound write keeps store, log and lease books valid |
| `Server.ExecValid` | src/discovery/server.cpp:184-251 | every lease and key operation, accepted or refused, keeps store, log and lease books valid |
| `Watch.StreamsMutation` | src/discovery/server.cpp:129-147 | a consistent stream stays consistent when a mutation is appended for it, or skipped because its prefix differs |
| `Watch.StreamsSettle` | src/discovery/tcp.cpp:233-302 | routing a consistent stream to its end leaves the consumer with the store's current view of the prefix |
| `Watch.ReplayIsComplete` | src/discovery/server.cpp:89-94 | when the server may replay from a revision, the logged events after it are all events after it |
| `Watch.ReplayStreams` | src/discovery/server.cpp:267-280 | a replay after the last seen revision is a consistent stream |
| `Watch.SnapshotStreams` | src/discovery/server.cpp:281-292 | a snapshot with its sync marker is a consistent stream for a resyncing watch, in any key order |
| `Watch.RepeatedSnapshotStreams` | src/discovery/tcp.cpp:246-249 | a second snapshot whose marker arrives outside a sync window does no harm |
| `Watch.WatchStreams` | src/discovery/server.cpp:262-296 | whatever the server answers to a watch request is a consistent stream |
| `Watch.ReplayRefinesSnapshot` | src/discovery/server.cpp:267-292 | where both are possible, replay and snapshot leave the watch in the same state: the store's view, its keys live, its revision the server's |
| `Watch.ResyncConvergesIff` | src/discovery/tcp.cpp:169-194 | from any client state a resync ends in the store's view if and only if the client resumes from nothing, the log does not reach, or every untouched key already agrees |
| `Watch.TornSnapshotLosesAKey` | src/discovery/tcp.cpp:186-190 | a cut in the middle of a first snapshot makes the resume skip a key |
| `Watch.CutFolds` | src/discovery/tcp.cpp:233-302 | what a client knows after the first frames of a snapshot, first or later, however many: what it knew and what was delivered |
| `Watch.CutMoves` | src/discovery/tcp.cpp:233-302 | and its last seen revision is the newest of those |
| `Watch.TornResyncConvergesIff` | src/discovery/tcp.cpp:169-194 | after any snapshot cut at any frame, and any mutations since, a resync ends in the store's view if and only if it resumes from nothing, the log does not reach, or every key that changed after the client's own revision and not after the newest one delivered was itself delivered |
| `Watch.TornSnapshotConvergesIff` | src/discovery/tcp.cpp:169-194 | for a first snapshot: if and only if nothing had arrived, the log does not reach, or every key no newer than the newest one delivered was itself delivered |
| `Watch.TornResyncKeepsADeletedKey` | src/discovery/tcp.cpp:186-190 | a watch away for so long that a delete has left the log, whose resync snapshot is cut after its first key, keeps the deleted key when it is up to date again |
| `Watch.RestartLosesAKey` | src/discovery/server.cpp:90-94 | a server whose revisions restarted answers a resume with an empty replay |
| `Protocol.FanoutFor` | src/discovery/server.cpp:129-147 | a mutation reaches each registration of a connection once, in order, and no other watch id |
| `Protocol.StepKeepsInv` | src/discovery/tcp.cpp:106-302 | every step of client, server and connection keeps the invariant that ties each watch to its requests and frames |
| `Protocol.RunKeepsInv` | src/discovery/tcp.cpp:106-302 | so does every run |
| `Protocol.AgreementOverRuns` | src/discovery/tcp.cpp:169-302 | in every reachable state, a registered watch with its undelivered frames gives the store's view, and gives it now when idle; live keys are the folded keys; outside a snapshot the fold is the store as of the last seen revision |
| `Protocol.StoreValidOverRuns` | src/discovery/server.cpp:150-251 | in every reachable state the server's store, log and lease books are valid |
| `Protocol.UnwatchHitsEveryClient` | src/discovery/server.cpp:297-299 | an unwatch ends a registration exactly when the ids are equal, whoever sent it |
| `DiscoveryServerImpl.DiscoveryServer.CanReplayFrom` | src/discovery/server.cpp:90-94 | the answer is yes exactly when every later event is still in the log |
| `DiscoveryServerImpl.DiscoveryServer.LogMutation` | src/discovery/server.cpp:81-87 | bumps the revision, appends to the log and drops the oldest entry over capacity |
| `DiscoveryServerImpl.DiscoveryServer.NotifyWatchers` | src/discovery/server.cpp:133-146 | the loop over watchers sends each match its frame and drops watchers whose connection is gone, as specified by the fan-out |
| `DiscoveryServerImpl.DiscoveryServer.MutateAndNotify` | src/discovery/server.cpp:129-147 | logs and fans out one mutation |
| `DiscoveryServerImpl.DiscoveryServer.UnbindLease` | src/discovery/server.cpp:150-156 | removes a key from its old lease's list |
| `DiscoveryServerImpl.DiscoveryServer.ExpireLease` | src/discovery/server.cpp:159-170 | the loop refines the specified lease death |
| `DiscoveryServerImpl.DiscoveryServer.CreateLease` | src/discovery/server.cpp:184-188 | a new lease with the next id |
| `DiscoveryServerImpl.DiscoveryServer.PutEntry` | src/discovery/server.cpp:211-213 | one logged, announced and stored write |
| `DiscoveryServerImpl.DiscoveryServer.KvCreate` | src/discovery/server.cpp:201-214 | refines the specified create, with both refusals |
| `DiscoveryServerImpl.DiscoveryServer.KvPut` | src/discovery/server.cpp:215-233 | refines the specified put, rebinding included |
| `DiscoveryServerImpl.DiscoveryServer.KvCreateOrValidate` | src/discovery/server.cpp:234-251 | refines the specified create-or-validate |
| `DiscoveryServerImpl.DiscoveryServer.KeysUnder` | src/discovery/server.cpp:284-285 | lists exactly the keys under the prefix, once each |
| `DiscoveryServerImpl.DiscoveryServer.ReplayLog` | src/discovery/server.cpp:270-278 | the replay loop gives exactly the logged matching events after the revision |
| `DiscoveryServerImpl.DiscoveryServer.SnapshotKeys` | src/discovery/server.cpp:284-289 | the snapshot loop gives one put per listed key |
| `DiscoveryServerImpl.DiscoveryServer.Watch` | src/discovery/server.cpp:262-296 | serves a watch as specified and replaces an earlier registration of the same id and connection |
| `DiscoveryServerImpl.DiscoveryServer.Remaining` | src/discovery/server.cpp:294-295 | keeps every other registration |
| `DiscoveryServerImpl.DiscoveryServer.Unwatch` | src/discovery/server.cpp:297-299 | removes every registration with the id |
| `DiscoveryClient.TcpDiscovery.OpenWatch` | src/discovery/tcp.cpp:473-486 | a new watch waits for its first snapshot under a fresh id |
| `DiscoveryClient.TcpDiscovery.VanishedDeletes` | src/discovery/tcp.cpp:254-258 | the deletes sent at the end of a snapshot remove exactly the live keys that the snapshot lacked |
| `DiscoveryClient.TcpDiscovery.RouteRecord` | src/discovery/tcp.cpp:233-302 | what a frame does to a record refines the specified routing, events sent to the consumer included |
| `DiscoveryClient.TcpDiscovery.RouteWatchFrame` | src/discovery/tcp.cpp:233-302 | a frame changes its own record so, and no other; one for an unknown id changes nothing |
| `DiscoveryClient.TcpDiscovery.ResubscribeAll` | src/discovery/tcp.cpp:169-194 | every watch enters resync and one request per watch resumes from its last seen revision |
| `DiscoveryClient.ResubscriptionsSnoc` | src/discovery/tcp.cpp:186-190 | the requests follow the list of watches one by one |
| `DiscoveryClient.FoldAppend` | src/component/distributed_runtime.cpp:93-114 | folding one more event applies it to the fold so far |
| `DiscoveryClient.InstanceSource.HandleEvent` | src/component/distributed_runtime.cpp:97-113 | a put that parses replaces, one that does not is skipped, a delete erases |
| `DiscoveryClient.InstanceSource.Consume` | src/component/distributed_runtime.cpp:93-114 | the loop folds every event into the instance map |
| `DiscoveryClient.InstanceSource.WatchClosed` | src/component/distributed_runtime.cpp:115-123 | a closed watch closes the source and empties it |
| `DiscoveryClient.InstancesFollow` | src/component/distributed_runtime.cpp:90-124 | no instance outlives its key |
| `DiscoveryClient.ShownIff` | src/component/distributed_runtime.cpp:97-113 | a key is listed if and only if one of its values since its last delete parsed |
| `DiscoveryClient.ShownIsLatest` | src/component/distributed_runtime.cpp:97-113 | and it is listed with the latest of its values that parsed |
| `DiscoveryClient.InstancesExact` | src/component/distributed_runtime.cpp:100-110 | the instance map is the parsed store if and only if every key of which some value since its last delete parsed has a current value that parses |
| `DiscoveryClient.InstancesOverRuns` | src/component/distributed_runtime.cpp:90-124 | in every reachable state, for an idle watch, the same of the server's own store under the prefix |
| `DiscoveryClient.BadValueKeepsStale` | src/component/distributed_runtime.cpp:101-107 | a bad value after a good one leaves the good one listed |
| `InProcess.NotifyOneCurrent` | src/discovery/in_process.cpp:57-67 | notifying one watcher keeps its fold equal to the store under its prefix, or drops it |
| `InProcess.NotifyKeepsCurrent` | src/discovery/in_process.cpp:53-68 | notifying all watchers does |
| `InProcess.DeletedAre` | src/discovery/in_process.cpp:76-83 | a dead lease's list names exactly its keys, and dropping both keeps the books balanced |
| `InProcess.InProcessStore.Notify` | src/discovery/in_process.cpp:53-68 | the loop refines the specified notification |
| `InProcess.InProcessStore.MakeLease` | src/discovery/in_process.cpp:120-131 | a fresh lease with no keys, whose token can still revoke it if and only if it was not cancelled at the call |
| `InProcess.InProcessStore.ReserveLease` | src/discovery/in_process.cpp:121-125 | the revocation is registered, or fires at once, before there is a lease to revoke |
| `InProcess.InProcessStore.RecordLease` | src/discovery/in_process.cpp:127-130 | the lease is recorded, registered or not |
| `InProcess.InProcessStore.TakeCallbacks` | src/runtime/cancellation.cpp:15-22 | under the token's lock the token is marked and its callbacks are taken; nothing is revoked yet |
| `InProcess.InProcessStore.FireCallback` | src/runtime/cancellation.cpp:23-23 | later each one revokes its lease, if that is recorded by then, with exactly its keys |
| `InProcess.InProcessStore.CancelToken` | src/runtime/cancellation.cpp:15-25 | without interruption, exactly the leases registered with the token die, with exactly their keys |
| `LeaseTokens.StepKeepsInv` | src/runtime/cancellation.cpp:15-50 | a lease has at most one callback, registered with a token that is not cancelled, or taken and not yet run |
| `LeaseTokens.RunRegistered` | src/runtime/cancellation.cpp:15-25 | a registered lease is revoked by a run exactly when the run cancels its token and, after that, runs its callback |
| `LeaseTokens.RunFiring` | src/runtime/cancellation.cpp:23-23 | a callback that was taken revokes its lease exactly when it runs |
| `LeaseTokens.LeaseOutlives` | src/discovery/in_process.cpp:120-131 | whatever happens between the two steps of making a lease and after them, it is there in the end if and only if its token was cancelled at the call, its callback ran before the recording, or its callback has not run; in the first two cases, and only then, nothing can revoke it any more |
| `LeaseTokens.LeaseSettles` | src/discovery/in_process.cpp:120-131 | once every callback taken has run, it is there if and only if its token was cancelled at the call, its callback ran before the recording, or its token was never cancelled since |
| `InProcess.InProcessStore.KvCreate` | src/discovery/in_process.cpp:133-150 | creates or refuses; a refusal for the lease has already spent a revision; every open watcher stays current |
| `InProcess.InProcessStore.KvPut` | src/discovery/in_process.cpp:152-172 | writes and rebinds, or refuses; every open watcher stays current |
| `InProcess.InProcessStore.DeleteKeys` | src/discovery/in_process.cpp:76-82 | deletes the listed keys with one event each |
| `InProcess.InProcessStore.NotifyDeletes` | src/discovery/in_process.cpp:84-84 | after all delete events every open watcher is current again |
| `InProcess.InProcessStore.RevokeLease` | src/discovery/in_process.cpp:70-86 | exactly the keys bound to the lease go, one delete each, so a rebound key survives; an unknown lease changes nothing |
| `InProcess.InProcessStore.SnapshotEvents` | src/discovery/in_process.cpp:200-213 | one put event per key under the prefix, which fold to the store under the prefix |
| `InProcess.InProcessStore.GetAndWatchPrefix` | src/discovery/in_process.cpp:197-216 | the new watcher starts current, with one event per key under the prefix |
| `StopDecoder.OccurrenceInCandidate` | src/llm/backend.cpp:58-71 | an occurrence of a stop sequence in the whole text is one in the held text plus the new piece, at the shifted place, and conversely |
| `StopDecoder.JailedStep` | src/llm/backend.cpp:62-93 | holding the longest possible prefix of a stop keeps the held text the longest such suffix of all text since the gate |
| `StopDecoder.StepAgrees` | src/llm/backend.cpp:34-93 | a quiet step keeps the decoder in agreement with batch search, and batch search does not fire |
| `StopDecoder.StepTriggers` | src/llm/backend.cpp:34-93 | a triggering step fires when batch search does, and releases the text up to the first occurrence |
| `StopDecoder.QuietRunAgrees` | src/llm/backend.cpp:34-93 | every quiet run agrees with batch search at every length |
| `StopDecoder.StreamingEqualsBatch` | src/llm/backend.cpp:34-93 | for every run: no earlier prefix fires, a step triggers if and only if batch search fires, and what was released is the text up to the cut of the triggering sequence |
| `Backend.Find` | src/llm/backend.cpp:66-67 | the first occurrence, or none |
| `Backend.FindStop` | src/llm/backend.cpp:65-71 | the first listed stop sequence that occurs, at its first occurrence |
| `Backend.LongestHold` | src/llm/backend.cpp:73-87 | the longest suffix that is a proper prefix of some stop sequence |
| `Backend.StepConserves` | src/llm/backend.cpp:34-93 | released plus held text is all text |
| `Backend.BackendDecoder.Flush` | src/llm/backend.cpp:28-32 | returns the held text once |
| `Backend.BackendDecoder.StepCore` | src/llm/backend.cpp:34-93 | one token as specified: gate, hidden stop tokens, stop sequences, hold |
| `Backend.BackendDecoder.Step` | src/llm/backend.cpp:34-93 | a trigger is the first point at which batch search fires, cut where it says |
| `Backend.BackendDecoder.ProcessTokenIds` | src/llm/backend.cpp:95-112 | the loop stops at the first trigger and takes everything otherwise |
| `Backend.HandleDelta` | src/llm/backend.cpp:156-199 | one delta: its text, its finish reason, and a stop request exactly when a trigger comes without an engine finish reason |
| `Backend.ConsumeItem` | src/llm/backend.cpp:132-203 | one stream item, pass-through or decoded, with the account of text kept |
| `Backend.EndStream` | src/llm/backend.cpp:205-215 | the end of the stream releases what is still held, unless a finishing delta came before |
| `Backend.DecodeStream` | src/llm/backend.cpp:128-216 | text is conserved: all of it without a trigger, the cut text with one; nothing is consumed after a trigger; a trigger without a finish reason always asks the engine to stop |
| `Detokenizer.AllContinuations` | src/llm/tokenizers.cpp:42-75 | true exactly when all bytes after the lead are continuation bytes |
| `Detokenizer.NextPiece` | src/llm/tokenizers.cpp:42-75 | the next character, or a replacement for an invalid byte or a cut-off tail |
| `Detokenizer.Utf8Lossy` | src/llm/tokenizers.cpp:42-75 | the loop refines the specified lossy decoding |
| `Detokenizer.LossyKeepsChars` | src/llm/tokenizers.cpp:42-75 | valid characters in front come through unchanged whatever follows |
| `Detokenizer.Decode` | src/llm/tokenizers.cpp:95-120 | refines the specified decoding of ids, unknown ids and special tokens included |
| `Detokenizer.RemoveReplacementChars` | src/llm/tokenizers.cpp:23-29 | the result holds no U+FFFD |
| `Detokenizer.Sequence.AppendTokenId` | src/llm/tokenizers.cpp:130-154 | refines the specified incremental step and keeps its offsets in order |
| `Detokenizer.PartialByte` | src/llm/tokenizers.cpp:130-154 | a byte that does not complete its character emits nothing and moves no offset |
| `Detokenizer.FinalByteEmits` | src/llm/tokenizers.cpp:130-154 | the byte that completes a character other than U+FFFD emits exactly it |
| `Detokenizer.FinalByteMoves` | src/llm/tokenizers.cpp:130-154 | and both offsets move to character boundaries |
| `Detokenizer.FinalByteOfReplacement` | src/llm/tokenizers.cpp:130-154 | the byte that completes a real U+FFFD emits nothing and holds it |
| `Detokenizer.IncrementalIsExact` | src/llm/tokenizers.cpp:130-154 | for every stream of structurally valid characters the emissions are, byte by byte, nothing or the completed character |
| `Detokenizer.JoinedIsInputIff` | src/llm/tokenizers.cpp:130-154 | the emissions join to the input if and only if it holds no U+FFFD |
| `Tokens.SplitTokens` | src/llm/tokens.cpp:56-83 | the loop over full blocks refines the specified split |
| `Tokens.PushIsSplit` | src/llm/tokens.cpp:27-54 | with a full block to start from, pushing tokens equals splitting them all |
| `Tokens.PushIsSplitIff` | src/llm/tokens.cpp:27-83 | they are equal if and only if there is a full block to start from or none in the end |
| `Tokens.SplitAt` | src/llm/tokens.cpp:62-75 | block i holds its slice and chains onto block i-1 |
| `Tokens.KeyBytesHashed` | src/llm/tokens.cpp:20-23 | every sequence hash is the hash of bytes that fix the prefix before it |
| `Tokens.SeqHashIdentifiesPrefix` | src/llm/tokens.cpp:20-83 | without collisions among the hashed inputs, equal sequence hashes mean equal token prefixes at the same place: at equal depths for every block size, and at any depths for block sizes other than four |
| `Tokens.BlocksOfFourClash` | src/llm/tokens.cpp:20-23 | with blocks of four, sixteen bytes of tokens can be another block's pair of hashes: a first block has a later block's sequence hash |
| `Pool.MinExists` | src/llm/kv/reuse.cpp:25-29 | the eviction order has a least key |
| `Pool.MinUnique` | src/llm/kv/reuse.cpp:25-29 | and only one |
| `Pool.InsertedShape` | src/llm/kv/reuse.cpp:51-59 | parking a block keeps lookup map and priority set in bijection, hash 0 and duplicates out of them, and adds exactly that block |
| `Pool.RemovedShape` | src/llm/kv/reuse.cpp:61-68 | taking a block by hash keeps the bijection and removes exactly that block |
| `Pool.PoppedShape` | src/llm/kv/reuse.cpp:73-77 | taking the oldest uninitialized block does |
| `Pool.ReturnedValid` | src/llm/kv/reuse.cpp:93-98 | returning a block counts it available and gives it a tick later than all others |
| `Pool.MatchedEffect` | src/llm/kv/reuse.cpp:136-146 | matching takes the parked blocks of the longest prefix of the hashes, each with its hash, and nothing else |
| `Pool.ReprioritizedEffect` | src/llm/kv/reuse.cpp:180-189 | new priorities change nothing but priorities |
| `Pool.WipedEffect` | src/llm/kv/reuse.cpp:191-199 | a reset removes exactly the named hashes from matching and loses no block |
| `Eviction.WipedAllEffect` | src/llm/kv/reuse.cpp:201-216 | resetting all, in eviction order, leaves nothing matchable and every block parked |
| `Eviction.TakeOneEffect` | src/llm/kv/reuse.cpp:70-91 | takes a block exactly when one is parked, and the index never misses it |
| `Eviction.TakeManyCounts` | src/llm/kv/reuse.cpp:156-166 | takes exactly the smaller of the request and what is parked, all different blocks |
| `Eviction.TakeManyEvicts` | src/llm/kv/reuse.cpp:156-166 | matchable blocks go in strictly increasing order of priority and tick, none while a smaller one stays |
| `Eviction.TakeManySplits` | src/llm/kv/reuse.cpp:73-77 | uninitialized blocks go first |
| `Eviction.TakeBlocksOrder` | src/llm/kv/reuse.cpp:156-166 | uninitialized blocks first in their order, then matchable ones in eviction order, in the right number |
| `AvailableBlocksImpl.AvailableBlocks.InsertLocked` | src/llm/kv/reuse.cpp:51-59 | refines parking a block |
| `AvailableBlocksImpl.AvailableBlocks.TakeWithHashLocked` | src/llm/kv/reuse.cpp:61-68 | refines taking by hash, or leaves all as it was |
| `AvailableBlocksImpl.AvailableBlocks.FirstKey` | src/llm/kv/reuse.cpp:78-80 | the least key of the priority set |
| `AvailableBlocksImpl.AvailableBlocks.TakeAnyLocked` | src/llm/kv/reuse.cpp:70-91 | refines taking one block; the missing-entry error cannot occur |
| `AvailableBlocksImpl.AvailableBlocks.ReturnBlock` | src/llm/kv/reuse.cpp:93-98 | refines returning a block and keeps the pool valid |
| `AvailableBlocksImpl.AvailableBlocks.Insert` | src/llm/kv/reuse.cpp:168-174 | also counts a new block |
| `AvailableBlocksImpl.AvailableBlocks.MatchLocked` | src/llm/kv/reuse.cpp:139-143 | the loop refines matching |
| `AvailableBlocksImpl.AvailableBlocks.MatchBlocks` | src/llm/kv/reuse.cpp:136-146 | refines matching and the available count |
| `AvailableBlocksImpl.AvailableBlocks.TakeBlocks` | src/llm/kv/reuse.cpp:156-166 | refines taking and the available count |
| `AvailableBlocksImpl.AvailableBlocks.UpdatePriority` | src/llm/kv/reuse.cpp:183-188 | one new priority, tick kept |
| `AvailableBlocksImpl.AvailableBlocks.UpdatePriorities` | src/llm/kv/reuse.cpp:180-189 | refines the specified updates and keeps the pool valid |
| `AvailableBlocksImpl.AvailableBlocks.ResetOne` | src/llm/kv/reuse.cpp:193-198 | one block forgets its tokens |
| `AvailableBlocksImpl.AvailableBlocks.Reset` | src/llm/kv/reuse.cpp:191-199 | refines the specified resets and keeps the pool valid |
| `AvailableBlocksImpl.AvailableBlocks.WipeFirst` | src/llm/kv/reuse.cpp:204-214 | one step of resetting all wipes the first matchable block in eviction order |
| `AvailableBlocksImpl.AvailableBlocks.ResetAll` | src/llm/kv/reuse.cpp:201-216 | refines resetting all: nothing stays matchable and no block is lost |
| `Ledger.PoolToHandle` | src/llm/kv/reuse.h:51-78 | handing a block out keeps the books: every issued block is in exactly one place |
| `Ledger.HandleToPool` | src/llm/kv/reuse.cpp:114-118 | so does a release |
| `Ledger.HandleToHandle` | src/llm/kv/reuse.cpp:104-112 | so does a move |
| `Ledger.HandleToInner` | src/llm/kv/reserved.cpp:77-81 | so does registering |
| `Ledger.HandleToNobody` | src/llm/kv/reuse.cpp:120-124 | detaching takes the block out of the books |
| `Ledger.InnerToPool` | src/llm/kv/reserved.cpp:16-29 | the end of an in-flight block returns its block |
| `Reserved.ValidLowered` | src/llm/kv/reuse.cpp:143-164 | lowering the available count by the blocks taken never wraps, and keeps it the number of parked blocks |
| `Reserved.RegisterInv` | src/llm/kv/reserved.cpp:61-83 | registering shares a live block of the same hash, replaces a dead entry, or adds one, and keeps the registry and the books right |
| `Reserved.MatchRefsInv` | src/llm/kv/reserved.cpp:36-51 | matching gives live in-flight blocks with exactly the hashes asked for, and stops at the first hash without one |
| `Reserved.MoveAssignBalanced` | src/llm/kv/reuse.cpp:104-112 | move assignment returns the old block, takes over the new one and empties its source |
| `Reserved.StepKeepsInv` | src/llm/kv/reserved.cpp:16-83 | every step of pool, handles, registry, copied and dropped references and destructor keeps the invariant |
| `Reserved.RunKeepsInv` | src/llm/kv/reserved.cpp:16-83 | so does every interleaving of them |
| `Reserved.OneLivePerHash` | src/llm/kv/reserved.cpp:61-83 | in every reachable state at most one live in-flight block exists per hash, and it is the registered one |
| `Reserved.DestructorKeepsLive` | src/llm/kv/reserved.cpp:21-28 | a destructor changes no live registration, its own hash's newer one included, and erases the expired entry |
| `Reserved.EveryBlockComesBack` | src/llm/kv/reuse.h:51-78 | in every reachable state every issued block is in exactly one of pool, handle, in-flight block or detached, the available count is right, and when all holders are gone everything not detached is back |
| `Reserved.MovedFromOwnsNothing` | src/llm/kv/reuse.h:54-54 | a moved-from handle still looks engaged, owns nothing, and returns nothing when destroyed |
| `Manager.KvStorageManager.Do` | src/llm/kv/reserved.cpp:16-83 | performs one step of the block system |
| `Manager.KvStorageManager.ShareInflight` | src/llm/kv/manager.cpp:20-22 | takes exactly one reference to each block of the longest in-flight prefix |
| `Manager.KvStorageManager.TakeMatching` | src/llm/kv/manager.cpp:26-29 | takes the longest parked prefix of the rest into handles |
| `Manager.KvStorageManager.RegisterOne` | src/llm/kv/manager.cpp:30-32 | one matched block becomes a live in-flight block of its hash with one reference more, or is refused for its token count; its handle is gone |
| `Manager.KvStorageManager.RegisterAll` | src/llm/kv/manager.cpp:30-32 | all of them do, in order, leaving no handle behind; a refused one stops it; exactly the returned references were taken |
| `Manager.DroppedUndoes` | src/llm/kv/manager.cpp:30-32 | dropping the references that were taken restores every in-flight block as it was |
| `Manager.DroppedSnoc` | src/llm/kv/reserved.cpp:16-29 | dropping a list of references is dropping them one by one: the last one to a block ends it |
| `Manager.KvStorageManager.DropOne` | src/llm/kv/reserved.cpp:16-29 | one reference less, or with the last one the block leaves the in-flight ones |
| `Manager.KvStorageManager.DropAll` | src/llm/kv/reserved.cpp:16-29 | a list of references goes out of scope |
| `Manager.FreedReturn` | src/llm/kv/reserved.cpp:16-29 | the pool then holds what it held and the blocks that nobody refers to any more |
| `Manager.KvStorageManager.Discard` | src/llm/kv/reuse.cpp:114-118 | dropping a handle |
| `Manager.KvStorageManager.PreparePrefillSequence` | src/llm/kv/manager.cpp:14-38 | the in-flight result is the longest shared prefix of the split followed by the longest parked prefix of the rest, each live with its hash; the remaining blocks and tail are exactly the rest; it fails exactly for a parked block of another size, and then drops every reference it took: handles, in-flight blocks with their counts, and the blocks in the pool are as before |
| `Manager.KvStorageManager.TakeFresh` | src/llm/kv/manager.cpp:41-42 | takes as many blocks as asked for and available |
| `Manager.KvStorageManager.StampAll` | src/llm/kv/manager.cpp:53-58 | stamps each remaining token block onto its own handle, pairing back to front |
| `Manager.KvStorageManager.DiscardAll` | src/llm/kv/manager.cpp:43-47 | returns every block taken when there were too few |
| `Manager.KvStorageManager.PreparePrefillOffload` | src/llm/kv/manager.cpp:40-65 | succeeds exactly when one block more than the rest is parked and the count fits 32 bits; then every remaining block is stamped in order with one left for the tail; otherwise every block it took is back, its argument's references are dropped, and the pool has gained exactly the blocks whose last references those were |
| `Radix.AncestorHeld` | src/llm/kv_router/indexer.cpp:93-96 | whoever holds a path holds every prefix of it |
| `Radix.WalkRoot` | src/llm/kv_router/indexer.cpp:15-18 | only one path leads to a node of the tree |
| `Radix.WithEdgeOk` | src/llm/kv_router/indexer.cpp:69-76 | hanging a fresh node below another keeps the index right |
| `Radix.JoinOk` | src/llm/kv_router/indexer.cpp:78-79 | adding a worker to a node, and the node to its table, is holding that path |
| `Radix.PartOk` | src/llm/kv_router/indexer.cpp:92-97 | removing a worker from a node with nothing of its own below is no longer holding that path |
| `Radix.ClearOk` | src/llm/kv_router/indexer.cpp:93-96 | a node without workers may drop its children: nobody holds anything below |
| `Radix.WithoutWorkerOk` | src/llm/kv_router/indexer.cpp:101-108 | removing a worker everywhere keeps the index right for the others |
| `RadixScores.OkScores` | src/llm/kv_router/indexer.cpp:9-39 | a right index gives every worker, for every sequence, the length of its longest held prefix |
| `RadixScores.StoreOk` | src/llm/kv_router/indexer.cpp:61-81 | a block stored under a consistent name keeps the index right |
| `RadixScores.StoreScoresIff` | src/llm/kv_router/indexer.cpp:61-81 | the scores stay right after a stored block if and only if its name does not already mean another path |
| `RadixScores.LeaveOk` | src/llm/kv_router/indexer.cpp:86-98 | removing a block with nothing below it keeps the index right |
| `RadixScores.RemoveScoresIff` | src/llm/kv_router/indexer.cpp:86-98 | the scores stay right after a removal if and only if the worker holds nothing below the removed block |
| `RadixScores.SecondNameBreaks` | src/llm/kv_router/indexer.cpp:86-98 | after a path has two names, removing one makes the scores wrong |
| `RadixScores.WithoutWorkerScores` | src/llm/kv_router/indexer.cpp:101-108 | after removing a worker its score is zero for every sequence and the others' are right |
| `RadixIndex.StoredPrefixes` | src/llm/kv_router/indexer.cpp:61-81 | a stored event adds exactly the prefixes of the new path below its parent |
| `RadixIndex.RemovedNames` | src/llm/kv_router/indexer.cpp:86-98 | a removed event forgets exactly the named blocks |
| `RadixIndex.RadixTree.constructor` | src/llm/kv_router/indexer.h:39-63 | an empty tree is a right index of nothing |
| `RadixIndex.RadixTree.CountAll` | src/llm/kv_router/indexer.cpp:20-22 | adds one to the score of each listed worker |
| `RadixIndex.RadixTree.FindMatches` | src/llm/kv_router/indexer.cpp:9-39 | the loop computes the specified scores on any tree; on a right index they are the longest held prefixes; with early exit it stops only at a block of a single worker |
| `RadixIndex.RadixTree.Enroll` | src/llm/kv_router/indexer.cpp:43-43 | an event of an unknown worker gives it an empty table |
| `RadixIndex.RadixTree.Link` | src/llm/kv_router/indexer.cpp:62-77 | finds the child, reuses the worker's node of that name, or makes one, for any event |
| `RadixIndex.RadixTree.Join` | src/llm/kv_router/indexer.cpp:78-78 | lists the worker on the node |
| `RadixIndex.RadixTree.Record` | src/llm/kv_router/indexer.cpp:79-79 | enters the node in the worker's table |
| `RadixIndex.RadixTree.StoreBlock` | src/llm/kv_router/indexer.cpp:61-81 | one stored block, exactly, for any event; under a consistent name the index stays right |
| `RadixIndex.RadixTree.StoreBlocks` | src/llm/kv_router/indexer.cpp:61-81 | the loop over an event's blocks |
| `RadixIndex.RadixTree.ApplyStored` | src/llm/kv_router/indexer.cpp:41-82 | a stored event: below its parent, below the root, or dropped for an unknown parent; consistent names keep the index right |
| `RadixIndex.RadixTree.Part` | src/llm/kv_router/indexer.cpp:91-96 | removes a worker from a node and clears a node nobody holds |
| `RadixIndex.RadixTree.RemoveBlock` | src/llm/kv_router/indexer.cpp:86-98 | one removed block, exactly, or nothing for an unknown name |
| `RadixIndex.RadixTree.ApplyRemoved` | src/llm/kv_router/indexer.cpp:85-98 | a removed event; leaves first keeps the index right |
| `RadixIndex.RadixTree.Forget` | src/llm/kv_router/indexer.cpp:104-106 | the loop over a worker's table |
| `RadixIndex.RadixTree.RemoveWorker` | src/llm/kv_router/indexer.cpp:101-108 | forgets the worker: score zero everywhere, index right |
| `MixedRadix.UnflattenFlat` | src/llm/kv/storage.h:132-137 | on an unsliced view of any rank, unflattening an element's number gives its index back |
| `MixedRadix.FlatUnflatten` | src/llm/kv/storage.h:205-213 | and numbering an unflattened index gives the number back, in bounds |
| `MixedRadix.FlatBound` | src/llm/kv/storage.h:132-137 | every element's number is below the element count |
| `Tensor.Product` | src/llm/kv/storage.h:104-105 | the element count, as 64-bit arithmetic gives it |
| `Tensor.StridesOf` | src/llm/kv/storage.h:102-103 | the strides, as 64-bit arithmetic gives them |
| `Tensor.MakeView` | src/llm/kv/storage.h:99-111 | a view is accepted exactly when its byte count, wrapped to 64 bits, fits the storage |
| `Tensor.AcceptedInStorageIff` | src/llm/kv/storage.h:106-110 | an accepted view of any shape and element size keeps every element inside the storage if and only if its byte count does not wrap |
| `Tensor.WrappedView` | src/llm/kv/storage.h:106-110 | a square of 2^32 rows is accepted over an empty storage and is not inside it |
| `TensorViews.FreshWithin` | src/llm/kv/storage.h:99-111 | an accepted, unwrapped view shows all of its tensor |
| `TensorViews.Slice` | src/llm/kv/storage.h:191-203 | refines the specified slice, with its range errors |
| `TensorViews.SliceWithin` | src/llm/kv/storage.h:191-203 | a slice shows the same tensor from further on |
| `TensorViews.SlicesWithin` | src/llm/kv/storage.h:191-203 | so does any chain of slices |
| `TensorViews.OffsetIs` | src/llm/kv/storage.h:139-142 | an element's byte offset is that of its place in the whole tensor, inside the storage |
| `TensorViews.ElementsApart` | src/llm/kv/storage.h:139-142 | after any chain of slices distinct elements lie in disjoint byte ranges inside the storage |
| `TensorViews.CheckBounds` | src/llm/kv/storage.h:125-130 | true exactly for indices in bounds |
| `TensorViews.IndexOf` | src/llm/kv/storage.h:132-137 | the element's number, or an error out of bounds |
| `TensorViews.Address` | src/llm/kv/storage.h:139-142 | the element's byte offset, or an error out of bounds |
| `TensorViews.IsContiguous` | src/llm/kv/storage.h:148-155 | true exactly when the strides are those of the view's own shape |
| `TensorViews.Unflattened` | src/llm/kv/storage.h:205-213 | the loop refines the specified unflattening |
| `TensorViews.ContiguousOffset` | src/llm/kv/storage.h:179-183 | in a contiguous view the elements follow one another |
| `TensorViews.FillWritesApart` | src/llm/kv/storage.h:175-188 | the writes of a fill are disjoint and inside the storage |
| `TensorViews.FillIsExact` | src/llm/kv/storage.h:175-188 | a fill sets every element of the view and no other byte |
| `TensorViews.Fill` | src/llm/kv/storage.h:175-188 | both branches make exactly those writes; a device tensor or a wrong element size changes nothing |
| `Bytes.Memcpy` | src/llm/kv/kernels/block_copy_cpu.cpp:35-36 | replaces exactly the given range |
| `Bytes.BlitAllAt` | src/llm/kv/kernels/block_copy_cpu.cpp:33-38 | writes that do not overlap all survive and touch nothing else |
| `BlockCopy.AllocatedBytes` | src/llm/kv/layer.h:61-77 | with tp dividing the heads, the allocated bytes are prefix times blocks times suffix times element size, and the size of the five-dimensional tensor, in both layouts |
| `BlockCopy.AllocatedReady` | src/llm/kv/layer.cpp:138-150 | slabs so allocated hold every block of a copy, in both layouts |
| `BlockCopy.CopyWritesApart` | src/llm/kv/kernels/block_copy_cpu.cpp:33-38 | with distinct target ids the copies of a call do not overlap |
| `BlockCopy.CopiedBlock` | src/llm/kv/kernels/block_copy_cpu.cpp:21-40 | every listed block arrives whole under every prefix |
| `BlockCopy.CopyLeaves` | src/llm/kv/kernels/block_copy_cpu.cpp:21-40 | every other byte of the target keeps its value |
| `BlockCopy.RoundTrip` | src/llm/kv/kernels/block_copy_cpu.cpp:21-40 | copying out and back leaves the source slab as it was |
| `BlockCopy.CopyPair` | src/llm/kv/kernels/block_copy_cpu.cpp:35-36 | one block of one prefix |
| `BlockCopy.CopyPrefix` | src/llm/kv/kernels/block_copy_cpu.cpp:34-37 | the inner loop makes the next copies of the list |
| `BlockCopy.CopyBlocks` | src/llm/kv/kernels/block_copy_cpu.cpp:21-40 | refuses empty work and otherwise makes exactly the listed copies |
| `Scatter.DstApart` | src/llm/kv/kernels/block_copy_cpu.cpp:139-161 | two different iterations write to different units |
| `Scatter.ScatterWritesApart` | src/llm/kv/kernels/block_copy_cpu.cpp:139-161 | all iterations write disjoint ranges inside the target |
| `Scatter.SrcByteIs` | src/llm/kv/kernels/block_copy_cpu.cpp:105-114 | the collapsed source shape addresses the layer's five-dimensional tensor |
| `Scatter.DstByteIs` | src/llm/kv/kernels/block_copy_cpu.cpp:116-121 | the collapsed target shape addresses the six-dimensional target |
| `Scatter.ScatterPermutes` | src/llm/kv/kernels/block_copy_cpu.cpp:94-163 | every byte of src[k][b][p][r*heads+h][e] of a staged block lands at dst[r][k][b][p][h][e], for both orders of the block and kv axes |
| `Scatter.ScatterLeaves` | src/llm/kv/kernels/block_copy_cpu.cpp:94-163 | every other target byte keeps its value |
| `ScatterLoops.ByteStrides` | src/llm/kv/kernels/block_copy_cpu.cpp:123-130 | the byte strides of a shape |
| `ScatterLoops.Offset` | src/llm/kv/kernels/block_copy_cpu.cpp:151-156 | the sum of indices times strides |
| `ScatterLoops.CopyUnit` | src/llm/kv/kernels/block_copy_cpu.cpp:148-158 | one innermost iteration makes one specified write |
| `ScatterLoops.ScatterRanks` | src/llm/kv/kernels/block_copy_cpu.cpp:148-158 | the loop over ranks makes the next writes of the list |
| `ScatterLoops.ScatterBlock` | src/llm/kv/kernels/block_copy_cpu.cpp:142-160 | the loops over kv and positions do |
| `ScatterLoops.ScatterAll` | src/llm/kv/kernels/block_copy_cpu.cpp:94-163 | each error code for its own condition, in order, without a write; otherwise exactly the specified writes |
| `ScatterLayer.DividedArrives` | src/llm/kv/layer.cpp:330-343 | where ranks times heads are all heads, every byte of head g of the layer's own tensor lands at rank g/heads, head g%heads, whatever the slabs held |
| `ScatterLayer.BeyondLost` | src/llm/kv/layer.cpp:330-343 | otherwise the first head beyond them is, at its block, position and element, no head of any rank |
| `ScatterLayer.HeadsSplitIff` | src/llm/kv/layer.cpp:330-343 | every head of every staged block of the layer is in the target after the scatter if and only if the scatter factor divides the heads, or there is nothing to scatter |
| `CopyStreams.CopyStream.PrepareBlockMap` | src/llm/kv/layer.cpp:231-244 | stages a map and arms every doorbell, or refuses it |
| `CopyStreams.CopyStream.AllUnique` | src/llm/kv/layer.cpp:257-262 | true exactly for distinct ids |
| `CopyStreams.CopyStream.PrepareBlockIds` | src/llm/kv/layer.cpp:246-274 | stages distinct ids once per cycle, or refuses them, in the order of the checks |
| `CopyStreams.CopyStream.TriggerLayer` | src/llm/kv/layer.cpp:276-295 | copies a layer unless its doorbell has rung, and rings it |
| `CopyStreams.CopyStream.TriggerFrom` | src/llm/kv/layer.cpp:301-303 | the loop copies exactly the layers of a staged map not yet copied this cycle |
| `CopyStreams.CopyStream.TriggerAllLayers` | src/llm/kv/layer.cpp:301-303 | copies exactly the layers not yet copied this cycle and leaves the others alone, or is refused before anything is staged |
| `CopyStreams.CopyStream.ScatterCopyLayer` | src/llm/kv/layer.cpp:311-349 | scatters a staged layer as specified, or refuses in the order of the checks |
| `CopyStreams.CopyStream.Reset` | src/llm/kv/layer.cpp:351-354 | ends the cycle |
| `Codec.ValueOfDigits` | src/transports/codec.cpp:12-20 | eight bytes, most significant first, give the word back |
| `Codec.DigitsOfValue` | src/transports/codec.cpp:12-20 | and the word gives the bytes back |
| `Codec.PrimeUndo` | src/transports/codec.cpp:30-30 | multiplying by the FNV prime can be undone among 64-bit words |
| `Codec.MixInjective` | src/transports/codec.cpp:28-31 | one FNV-1a step tells apart two hashes, and two bytes |
| `Codec.FnvDetects` | src/transports/codec.cpp:24-36 | changing one byte always changes the checksum |
| `Codec.DecodeShort` | src/transports/codec.cpp:53-69 | what decoding does when the lengths do not wrap |
| `Codec.RoundTrip` | src/transports/codec.cpp:38-69 | decoding an encoding gives the message back; encoding fails exactly over the limit |
| `Codec.WrongLength` | src/transports/codec.cpp:59-61 | one wrong length is noticed however the 64-bit sum wraps |
| `Codec.CorruptionDetected` | src/transports/codec.cpp:53-69 | changing any one byte of a frame, in lengths, checksum, header or body, makes decoding fail |
| `Codec.WrappedAccepted` | src/transports/codec.cpp:59-67 | a frame whose length sum wraps is accepted, and is not the encoding of the message it gives |
| `Codec.AcceptedIsEncodingIff` | src/transports/codec.cpp:59-64 | an accepted frame is the encoding of its message if and only if its length sum does not wrap |
| `Codec.PutU64` | src/transports/codec.cpp:12-14 | the loop appends the word's bytes |
| `Codec.GetU64` | src/transports/codec.cpp:16-20 | the loop reads them back |
| `Codec.Sum` | src/transports/codec.cpp:24-36 | the loops refine the specified checksum |
| `Codec.EncodeMessage` | src/transports/codec.cpp:38-51 | refines the specified encoding |
| `Codec.DecodeBuffer` | src/transports/codec.cpp:53-69 | refines the specified decoding, clamped and out-of-range substrings included |
| `Sse.AfterAppend` | src/llm/protocols/sse.cpp:75-94 | decoding two pieces in turn is decoding them joined |
| `Sse.ChunkInvariant` | src/llm/protocols/sse.cpp:75-94 | any two ways of cutting a stream give the same messages and leave the same state |
| `SseLines.AnyField` | src/llm/protocols/sse.cpp:52-71 | what a field line sets, for any value |
| `SseLines.AnyComments` | src/llm/protocols/sse.cpp:47-50 | what comment lines add, trimmed |
| `SseLines.AnyData` | src/llm/protocols/sse.cpp:62-66 | what data lines add up to |
| `SseLines.MessageFed` | src/llm/protocols/sse.cpp:107-139 | one encoded message leaves the decoder as it was and gives at most one message, exactly what its lines settle to |
| `SseRoundTrip.CanonicalSurvives` | src/llm/protocols/sse.cpp:17-36 | a canonical message settles to itself |
| `SseRoundTrip.DoneFed` | src/llm/protocols/sse.cpp:141-143 | the done marker gives no message and leaves no trace |
| `SseRoundTrip.RoundTrip` | src/llm/protocols/sse.cpp:107-143 | feeding the encodings of any canonical messages and the done marker returns exactly those messages |
| `SseRoundTrip.RoundTripInChunks` | src/llm/protocols/sse.cpp:75-143 | however the stream is cut |
| `SseRoundTrip.AccumulateShort` | src/llm/protocols/sse.cpp:62-66 | data lines add up to no more than was encoded, and to as much only if each survives |
| `SseRoundTrip.OutputUnbroken` | src/llm/protocols/sse.cpp:38-73 | no emitted id, event or comment holds a newline |
| `SseRoundTrip.RoundTripIff` | src/llm/protocols/sse.cpp:17-139 | a message comes back from its own encoding if and only if it is canonical |
| `SseDecoding.FinishBlank` | src/llm/protocols/sse.cpp:96-105 | finishing after a complete line ends the event |
| `SseDecoding.FinishLine` | src/llm/protocols/sse.cpp:96-105 | finishing in a line ends the line and the event |
| `SseDecoding.SseDecoder.TakePending` | src/llm/protocols/sse.cpp:17-36 | the pending message, if it has a field, and empty fields |
| `SseDecoding.SseDecoder.ProcessLine` | src/llm/protocols/sse.cpp:38-73 | refines the specified line |
| `SseDecoding.SseDecoder.SetFieldOf` | src/llm/protocols/sse.cpp:60-71 | refines the specified field |
| `SseDecoding.SseDecoder.Feed` | src/llm/protocols/sse.cpp:75-94 | the loop over newlines equals decoding byte by byte |
| `SseDecoding.SseDecoder.Finish` | src/llm/protocols/sse.cpp:96-105 | the end of the stream is the end of the line and of the event |
| `SseDecoding.EncodeComments` | src/llm/protocols/sse.cpp:109-115 | one line per comment |
| `SseDecoding.EncodeField` | src/llm/protocols/sse.cpp:116-125 | one line for a field that is set |
| `SseDecoding.EncodeData` | src/llm/protocols/sse.cpp:126-136 | one line per line of data |
| `SseDecoding.EncodeMessage` | src/llm/protocols/sse.cpp:107-139 | refines the specified encoding |
| `Channel.PushInv` | src/runtime/coro/channel.h:79-92 | a send, first or after a wait, keeps the invariant: refused, handed over, queued or waiting |
| `Channel.PopInv` | src/runtime/coro/channel.h:172-177 | taking a queued value does |
| `Channel.AwaitInv` | src/runtime/coro/channel.h:170-181 | an awaiting receive does |
| `Channel.RetakeInv` | src/runtime/coro/channel.h:188-197 | a blocking receive that looks again does |
| `Channel.StepKeepsInv` | src/runtime/coro/channel.h:58-218 | every step of senders, receivers, closing and handle counting keeps it |
| `Channel.RunKeepsInv` | src/runtime/coro/channel.h:58-218 | so does every interleaving |
| `Channel.LosslessFifo` | src/runtime/coro/channel.h:79-92 | in every reachable state the delivered values followed by the queue are the accepted values in order, and the queue is within capacity |
| `Channel.EndMeansDrained` | src/runtime/coro/channel.h:163-197 | an end of stream is reported only when closed and drained, a refusal only when closed; a parked coroutine means an empty open queue; with all senders or all receivers gone the channel is closed or being closed |
| `Channel.NoReceiverStranded` | src/runtime/coro/channel.h:188-197 | while a receiver waits unnotified the channel is open and every queued value has a notified receiver |
| `Channel.StepServesIff` | src/runtime/coro/channel.h:79-92 | while senders wait, every free slot and parked coroutine keeps a notified sender after a step, if and only if the step does not park a coroutine with no notification to spare |
| `Channel.UnservedStrands` | src/runtime/coro/channel.h:79-92 | once notifications are short, the notified senders going on leaves another waiting unnotified although it could go on |
| `Channel.CanStrandIff` | src/runtime/coro/channel.h:79-92 | a reachable state can come to that by notified senders alone if and only if notifications are short |
| `Channel.StrandingIff` | src/runtime/coro/channel.h:58-218 | a run passes no such state if and only if none of its steps parks a coroutine with no notification to spare |
| `Channel.WithoutAwaitsNeverStarve` | src/runtime/coro/channel.h:186-197 | runs without awaiting receivers have no such step |
| `Channel.NoSenderStranded` | src/runtime/coro/channel.h:79-92 | so in no run without such a step does a sender wait unnotified although it could go on |
| `Channel.SenderCanBeStranded` | src/runtime/coro/channel.h:79-92 | with awaiting receivers, for every capacity, some run leaves a sender so |

## Left out

- Sockets, TLS, authentication and the reader threads: a connection is a queue of frames that a cut discards.
- Replies, publish and subscribe, queue dispatch and `get_prefix` of discovery: easy next to watches.
- Wall-clock time: a lease may expire at any step; keep-alive and sweeper timing are not modelled.
- The etcd client, and JSON itself: headers are records, and endpoint information is any parser.
- Server restarts and cuts inside a snapshot, first or later, are outside the runs of `Protocol`; `Watch.ResyncConvergesIff` and `Watch.TornResyncConvergesIff` say exactly what happens there.
- Full channels between client and consumer: a watch's sink takes every event, and a gone consumer is a step of its own.
- Protocol.AgreementOverRuns: another client may unwatch any id but this client's own; `Protocol.UnwatchHitsEveryClient` says what an unwatch of those does.
- Parent and child cancellation tokens: cancelling a parent is cancelling each of its children.
- Key order: a snapshot and the vanished-key deletes come in any order, where the code uses the keys' own order.
- Widths of revisions, lease ids, ticks, priorities and generated-token counts: unbounded.
- Backend.BackendDecoder.Step: takes the decoded text of each token as given; `Detokenizer` models where it comes from.
- Backend.LongestHold: asks for non-empty stop sequences, because an empty one has always matched before it is reached.
- Byte tokenizer encoding, the Hugging Face tokenizers and `StopSequenceDecoder`: the first is a map over bytes, the others are outside the decoding path.
- The hash of tokens is any function; collision-freedom is assumed only for the inputs that a lemma names.
- Pool lifetime: the pool outlives its handles, so a return always finds it.
- Reserved.EveryBlockComesBack: follows blocks by an identity that the code does not store.
- Manager.KvStorageManager.PreparePrefillOffload: takes a match whose in-flight references are counted, as holding the code's reserved blocks implies.
- The radix tree's recent-use frequencies and its lock; the scheduler's floating-point costs.
- Radix trees built by inconsistent names: `RadixIndex.RadixTree.StoreBlock` gives each step exactly, and no more is claimed of their shape.
- BlockCopy.CopyBlocks: source and target are different slabs where it says what the target holds; ids and dimensions are not narrowed to 32 bits.
- CopyStreams.CopyStream.TriggerAllLayers: the targets are different slabs from each other and from the sources.
- CopyStreams.CopyStream.ScatterCopyLayer: a power of two is repeated doubling, where the code uses a bit test.
- TensorViews.Fill: takes a view that a checked tensor and slices of it gave; a view whose byte count wrapped is covered by `Tensor.AcceptedInStorageIff` alone.
- TensorViews.Unflattened: asks for non-zero dimensions, because the code divides by each of them.
- Codec.RoundTrip: messages shorter than 2^64 bytes, as any in memory are.
- ScatterLayer.HeadsSplitIff: dimensions and tensor-parallel sizes below 2^32, to which the code narrows them.
- CUDA, pinned and device memory, `KvLayer::copy_blocks_to` and `KvBlockStorage::from_layers` argument checks, `copy_to_view_blocking`.
- Frame size limits on reading, JSON payloads of server-sent events and their conversion to annotations.
- Channel resume hooks and coroutine frames; a parked receiver is a name in the channel's list.
- The OpenAI protocol types, model cards, prompts, HTTP, configuration, logging, signals and the coroutine runtime.
