# Neuralis in Dafny

A model of the parts of a Neuralis node that carry state machines, codecs or arithmetic, and proofs of what they promise.

- **Task protocol** (`Messages`, `CapabilityTable`, `Router`, `RouterObjects`, `RouterNet`, `RouterOutcomes`, `RouterRuns`,
  `RouterSlots`, `RouterQueries`).
  `Router` describes one router between two awaits; `RouterObjects` has the code as classes with mutable tables and futures
  and proves each stretch of code equal to its step in `Router`; `RouterNet` puts any number of routers on a network that
  loses, repeats, delays and reorders messages and proves safety of every run; `RouterOutcomes` says how each event ends a
  waiting call, and `RouterRuns` what becomes of calls in whole runs. `RouterSlots` gives, for every step of a run, what
  becomes of each single call, and `RouterQueries` follows a capability query to the table of the node that asked. Starting a send and learning its outcome are two
  steps, so that answers, sweeps, `stop` and cancellation may fall between them. `asyncio.wait_for` is modelled both as it
  was up to Python 3.11, where a result that is there wins over the timer and over a cancellation, and as rewritten in
  3.12, where it does not (`WaitFor`). Message ids of requests are new; everything else, including clocks, is arbitrary.
- **Content store** (`Digits`, `Bits`, `Varint`, `Base32`, `Cid`, `BlockStore`, `Pins`, `IpfsStore`, `IpfsProperties`,
  `IpfsContents`).
  The hash is any function into 32 bytes. Properties that need different contents to have different hashes say so for the
  contents they are about (`CollisionFree`). The manifest encoding is any function; where a file is to read back, its own
  manifest must survive encoding and parsing (`Faithful`). Base 32 is that of section 6 of RFC 4648.
- **Transport and node ids** (`Transport`, `Link`, `Base58`). The cipher is any function pair that satisfies the
  equations of authenticated encryption (`Correct`); that nobody else can make a body that opens is a condition on runs
  (`Unforged`). The network of a link may otherwise bring any bytes to either end.
- **Key store** (`KeyStore`, `KeyRotation`, `KeyCurrent`). Runs consist of starts, stops, crashes and rotations with a clock that does not
  go back and new key ids; what an HMAC rotation does to a stopped store is `RotateHmacSafeIffRunning`.
- **Local bus and peers** (`AgentBus`, `BusRuns`, `PeerStore`).

Each class comes with functions on plain values; the methods are proved equal to the functions, and the laws are proved
about the functions and about whole runs. Where history is needed that the code does not keep (how an entry left the
pending table, which replies were built), a ghost field records it.

Where code and comments disagree, the model follows the code:

- The comment at `ipfs-store/neuralis/store/ipfs_store.py:276` says chunks are retained through the manifest.
  `AddedFileAfterCollect` and `FreshFileLost` show that a collection right after `add_file` makes a file unreadable unless
  each chunk happens to be pinned for itself.
- `add_file` with a chunk size of zero stores an empty file; `FileRoundTrip` has the exact condition and
  `ZeroChunkSizeLosesFile` the input.
- A failed send deletes its entry without a default and raises when the entry is already gone; `FailedSendRaises` says
  exactly when. The sweep uses the router's timeout and not the one given to the call; see `SweepIgnoresCallTimeout`.
- `rotate_hmac_key` does not check that the store is running; `RotateHmacSafeIffRunning` says what follows.
- The two base-58 encoders differ; `EncodersAgree` and `NodeIdsDiffer` say when.
- "Both indices are kept in sync on every mutation" of `PeerStore` holds exactly under the condition of
  `AddKeepsInverse`, and `SharedPeerIdBreaksIndices` shows it fail; a ban is undone by an ordinary update (`MergeMeaning`).
- A generated subscription label may already be in use; `LabelAfterRemoval` and `GeneratedLabelTaken` say exactly when.
- A message whose send raised can have been written and can arrive; see `AcceptedExceptLast` and `RaisedSendArrives`.
- Both directions of a connection share a key and count from zero, so an end accepts its own frame if the network carries
  it back at the right time; `PrefixIffNotReflected` has the exact condition.
- The two characters after the prefix that name a block's directory are not spread: they are af or ag for every CID, so the
  directories do not keep a large repository from having one huge directory; see `FirstThree` and `BlocksInTwoShards`.
- Keys missing from a file are generated beside the old records, and the new private key is saved under the id of the old
  active one; see `RegeneratedUnderOldId`.
- A key retired at time zero does not count as retired when the file is loaded; see `HeldAfterStart` and
  `ZeroTimeKeyOutlives`.

`dafny verify dfyconfig.toml` checks the whole project.

## Model

| member | source | states |
|---|---|---|
| RouterNet.AnswersAreTraced | neuralis-node/neuralis/protocol/router.py:261-351 | In every run of any number of routers, a call returns only a TASK_RESPONSE, and raises RemoteError only for a TASK_ERROR, that the addressed node built while handling exactly the call's request: same session and task, reply_to its id, sent by the addressed node |
| RouterRuns.RunsAreSafe | neuralis-node/neuralis/protocol/router.py:234-351 | In every state of every run each router keeps its invariant and at most 256 entries, the counts of waiting, answered, failed, timed out, evicted and stopped requests add up, and it finds a node for a task exactly when the messages delivered to it and the sweeps of the run say so |
| RouterRuns.EventsAreTold | neuralis-node/neuralis/protocol/router.py:583-611 | The log behind the capability table is, in every run, exactly the announces, replies, withdrawals and heartbeats delivered in time and meant for the node, and the sweeps while it was running |
| RouterNet.NothingSettlesTwice | neuralis-node/neuralis/protocol/router.py:559-569 | In every run a settled future, a finished call and the way an entry left the table never change later |
| RouterRuns.DeliveredAnswerStays | neuralis-node/neuralis/protocol/router.py:339-351 | A reply delivered in time to a waiting call is, in every later state of every run, what the call holds or has ended with, whatever other steps come in between; only the wait_for of Python 3.12 and later can lose it, and only if the call's timer or a cancellation comes before the resumption |
| RouterRuns.CallsEndAsSettled | neuralis-node/neuralis/protocol/router.py:339-351 | In every run a call ends with a timeout only if its future was cancelled or timed out, or the newer timer overtook its answer, and an answered call ends with that answer unless it was cancelled, its send failed or that timer came first |
| RouterRuns.ExchangeReturns | neuralis-node/neuralis/protocol/router.py:461-569 | In every run, when the request of a waiting call is delivered, answered, the answer delivered and the caller resumed, the call returns that answer |
| RouterRuns.CallCanReturn | neuralis-node/neuralis/protocol/router.py:261-351 | A run of two new routers in which a call returns the data the other node produced, for any data |
| RouterSlots.CallsAreAutomatic | neuralis-node/neuralis/protocol/router.py:203-351 | Each step of every run moves the entry, future, call and fate under every id of every router exactly as an automaton of that one call says, and which of its moves is made depends only on the step; whether the router runs and which requests it handles change exactly as the step says |
| RouterSlots.AskRegisters | neuralis-node/neuralis/protocol/router.py:261-324 | In every run, route_task under a new id registers a call exactly if the router runs, has fewer than 256 entries, and a node is named or some node offers the task by the messages and sweeps so far; the request, the entry and the timeout are then those of the caller, and the node is the one named or one that offers the task |
| RouterQueries.QueryAnswered | neuralis-node/neuralis/protocol/router.py:571-581 | In every run a delivered message takes itself from the network and adds exactly one message when it is a capability query that arrives in time and is meant for the node, and none otherwise; that one is a reply to the asker, naming the query |
| RouterQueries.QueryExchange | neuralis-node/neuralis/protocol/router.py:571-595 | In every run, when a query and later its answer arrive, the asker finds the answering node for a task exactly if, in the list of agents that node had when it answered, the last agent of some name has the task |
| RouterQueries.AnnounceExchange | neuralis-node/neuralis/protocol/router.py:583-595 | In every run, when the announcement of a list of agents arrives in time, the receiver finds the announcing node for a task exactly if the last agent of some name in the list has the task |
| RouterQueries.WithdrawExchange | neuralis-node/neuralis/protocol/router.py:597-605 | In every run, when a withdrawal arrives in time, the receiver still finds the node for a task exactly if it knew an agent of that node with the task that the withdrawal does not name |
| RouterNet.NextKeepsInv | neuralis-node/neuralis/protocol/router.py:461-569 | Every step of every router and of the network keeps: requests on the network are those of their senders' calls or broadcasts, replies were built for the request being handled, answers in futures belong to their calls |
| RouterNet.ReplyAnswers | neuralis-node/neuralis/protocol/router.py:514-557 | Whatever the agent runtime does, the reply names the request, keeps its session and task and goes back to its sender, with the data produced or the error as its payload |
| RouterOutcomes.ExchangeSucceeds | neuralis-node/neuralis/protocol/router.py:461-569 | A request taken up by the addressed node and answered in time ends the waiting call with exactly that node's response, or raises its error |
| RouterOutcomes.AnswerEndsCall | neuralis-node/neuralis/protocol/router.py:339-351 | A response to a waiting call that is then resumed is what the caller gets, and no later response changes anything |
| RouterOutcomes.AnswerCanBeLost | neuralis-node/neuralis/protocol/router.py:339-351 | Between the answer and the resumption the timer can end the call exactly with the wait_for of Python 3.12 and later, and a cancellation of the caller wins over the answer exactly there |
| RouterOutcomes.TimerEndsCall | neuralis-node/neuralis/protocol/router.py:339-345 | Once the timer fired the caller gets a timeout and the entry is gone, also when a response still arrives before the call resumes |
| RouterOutcomes.SweepEndsCall | neuralis-node/neuralis/protocol/router.py:680-701 | A sweep ends exactly the waiting calls whose entry is past the timeout and leaves the others waiting |
| RouterOutcomes.RegisteredRequest | neuralis-node/neuralis/protocol/router.py:287-324 | It goes to the node named, or else to one that offers the task with the least latency, and takes one new entry |
| RouterOutcomes.RefusedFor | neuralis-node/neuralis/protocol/router.py:287-318 | Each refusal of route_task is given exactly when its reason holds, in the order stopped, no capable node, table full, and changes nothing |
| Router.SendDoneKeepsInv | neuralis-node/neuralis/protocol/router.py:325-332 | The end of a send, successful or not, with the entry still there or not, keeps the invariant and changes nothing settled |
| Router.ResumeKeepsInv | neuralis-node/neuralis/protocol/router.py:339-351 | What a call does after wait_for keeps the invariant and changes nothing settled |
| Router.ResponseKeepsInv | neuralis-node/neuralis/protocol/router.py:559-569 | A response, late or repeated or not, keeps the invariant; no future is settled twice |
| Router.EvictKeepsInv | neuralis-node/neuralis/protocol/router.py:680-710 | A sweep keeps the invariant; exactly the entries past the timeout leave, exactly their open futures time out, and nothing else under any id changes |
| Router.StopKeepsInv | neuralis-node/neuralis/protocol/router.py:234-255 | Stopping keeps the invariant; every entry leaves, exactly their open futures are cancelled, and nothing else under any id changes |
| Router.Accounting | neuralis-node/neuralis/protocol/router.py:261-351 | Each registered request is either pending or left the table in exactly one of five ways, and the numbers add up |
| Router.PendingUnsettled | neuralis-node/neuralis/protocol/router.py:559-569 | A pending entry's future never holds a result or an exception |
| Router.FailedSendRaises | neuralis-node/neuralis/protocol/router.py:325-332 | After a failed send the delete raises exactly when the entry was answered, evicted or stopped meanwhile |
| Router.LostEntryReachable | neuralis-node/neuralis/protocol/router.py:325-332 | Any request that is stopped while it is being sent ends with that exception when the send fails |
| Router.SweepIgnoresCallTimeout | neuralis-node/neuralis/protocol/router.py:680-701 | A sweep times a waiting call out by the router's timeout counted from registration; some sweep in time for the call's own deadline, counted from the end of the send, ends it exactly if the router's timeout is up before that deadline |
| RouterObjects.PendingCalls.AfterSendTo | neuralis-node/neuralis/protocol/router.py:325-332 | The new state of the tables after a send |
| RouterObjects.ProtocolRouter.RouteTask | neuralis-node/neuralis/protocol/router.py:261-327 | Selects a node of least latency when none is named, and registers entry, call and a new open future, or refuses when stopped, without a capable node or at 256 entries |
| RouterObjects.PendingCalls.ResumeCall | neuralis-node/neuralis/protocol/router.py:339-351 | The call's outcome and the new state of the tables |
| RouterObjects.PendingCalls.HandleTaskResponse | neuralis-node/neuralis/protocol/router.py:559-569 | Takes the entry out and settles its future if it is open |
| RouterObjects.PendingCalls.StopRouter | neuralis-node/neuralis/protocol/router.py:234-255 | Empties the table and cancels the open futures of its entries |
| RouterObjects.ProtocolRouter.OnMeshAgentMsg | neuralis-node/neuralis/protocol/router.py:461-512 | The new state and the messages sent for every dictionary received: malformed, expired, for someone else, or of each type |
| RouterObjects.ProtocolRouter.EvictionPass | neuralis-node/neuralis/protocol/router.py:680-710 | One pass of the eviction loop over both tables |
| RouterObjects.ProtocolRouter.SelectNode | neuralis-node/neuralis/protocol/router.py:617-640 | Picks a node that offers the task and has the least latency, or none exactly if none offers it |
| CapabilityTable.TableRefinesLog | neuralis-node/neuralis/protocol/router.py:394-399 | A node is found for a task exactly when its latest announce not followed by its eviction lists, as the last of its name, an agent with the task that was not withdrawn since |
| CapabilityTable.ReplayMatches | neuralis-node/neuralis/protocol/router.py:583-611 | For every message log the table holds exactly the nodes with a current announce, with exactly those agents and the time last heard |
| CapabilityTable.HeartbeatsOnlyKeep | neuralis-node/neuralis/protocol/router.py:607-611 | With a clock that does not go back, the heartbeats of a log only keep nodes from being evicted: without them every offer is one there was with them, and without sweeps the offers are the same |
| CapabilityTable.RemoteNodeInfo.Tasks | neuralis-node/neuralis/protocol/router.py:97-105 | Collects exactly the tasks some agent of the node offers |
| CapabilityTable.RemoteNodes.UpsertNode | neuralis-node/neuralis/protocol/router.py:642-650 | A record for the node holds the listed agents by name, the last one winning, and other records are untouched |
| CapabilityTable.RemoteNodes.EvictStale | neuralis-node/neuralis/protocol/router.py:703-710 | Keeps exactly the records not stale |
| Messages.DictRoundTrip | neuralis-node/neuralis/protocol/messages.py:315-359 | Every message survives its dictionary form, whatever the defaults for missing fields |
| Messages.CapabilitiesRoundTrip | neuralis-node/neuralis/protocol/messages.py:102-117 | Every list of capabilities survives its dictionary form |
| Messages.ParsesWhatItSays | neuralis-node/neuralis/protocol/messages.py:333-359 | A dictionary parses as a message exactly if it has a type and the message, written out again, is the dictionary with the missing fields filled in; this fixes every key and default |
| Messages.CapabilitiesExact | neuralis-node/neuralis/protocol/messages.py:110-117 | A payload parses as a list of capabilities exactly if each item of its list describes the capability at its place, missing fields by their defaults |
| Router.WithdrawnExact | neuralis-node/neuralis/protocol/router.py:597-605 | The names withdrawn are exactly the listed strings, none when the list is missing |
| Cid.StrRoundTrip | ipfs-store/neuralis/store/cid.py:137-236 | Parsing a printed CID gives it back for every digest and codec |
| Cid.BinaryRoundTrip | ipfs-store/neuralis/store/cid.py:160-225 | Parsing the binary form gives the CID back, whatever bytes follow |
| Cid.PaddedStrRoundTrip | ipfs-store/neuralis/store/cid.py:137-158 | White space around a printed CID is ignored |
| Cid.ToStrInjective | ipfs-store/neuralis/store/cid.py:227-236 | Different CIDs print differently |
| Cid.EncodeBinary | ipfs-store/neuralis/store/cid.py:217-225 | Builds the four varints and the digest |
| Cid.BinaryLayout | ipfs-store/neuralis/store/cid.py:217-225 | The bytes of the binary form: version 1, the varint of the codec, 0x12, 32 and the digest |
| Cid.BinaryMeaning | ipfs-store/neuralis/store/cid.py:160-197 | Four varints of any length, minimal or not, and a rest parse by their values: the first wrong one decides the error, a rest under 32 bytes is truncated, and longer ones are cut |
| Cid.PrefixRequired | ipfs-store/neuralis/store/cid.py:144-148 | The prefix error is given exactly when the stripped text does not start with b |
| Cid.BodyRefused | ipfs-store/neuralis/store/cid.py:150-156 | With the prefix, the base 32 error is given exactly when a character before trailing equal signs is neither a letter of either case nor a digit from 2 to 7, or when the padding it takes is one no encoding has |
| Cid.FirstThree | ipfs-store/neuralis/store/cid.py:227-236 | Every printed CID starts with baf, or with bag for the JSON codec |
| Base32.DecodeEncode | ipfs-store/neuralis/store/cid.py:137-158 | Base 32 decoding inverts encoding on every byte string (section 6 of RFC 4648) |
| Base32.UnpaddedRecovers | ipfs-store/neuralis/store/cid.py:137-158 | Stripping the padding and recomputing it from the length loses nothing |
| Base32.Vectors | ipfs-store/neuralis/store/cid.py:150-156 | Two of the test vectors of section 10 of RFC 4648, which together use both ends of the alphabet |
| Varint.EncodeVarint | ipfs-store/neuralis/store/cid.py:65-76 | The masking and shifting loop writes the base-128 groups, low first, with the continuation bit on all but the last |
| Varint.DecodeVarint | ipfs-store/neuralis/store/cid.py:79-90 | The shift-or loop computes the base-128 sum and the offset past it, for every input |
| Varint.DecodeEncode | ipfs-store/neuralis/store/cid.py:65-90 | Decoding finds n and its end after any prefix and before any suffix |
| Varint.DecodeIsSum | ipfs-store/neuralis/store/cid.py:79-90 | Any bytes of which exactly the last lacks the continuation bit decode, wherever they stand, to the base-128 sum of their low seven bits and to their end |
| Varint.VarintMinimal | ipfs-store/neuralis/store/cid.py:65-76 | No byte string that decodes to n is shorter than the encoding of n |
| BlockStore.TotalsExact | ipfs-store/neuralis/store/blockstore.py:171-364 | After any puts, deletes and collections from an empty repository the totals are the number and the summed sizes of the blocks |
| BlockStore.BlocksInTwoShards | ipfs-store/neuralis/store/blockstore.py:370-379 | All blocks of a repository, however many, stand in the two directories af and ag |
| BlockStore.DeleteKeepsInv | ipfs-store/neuralis/store/blockstore.py:257-279 | Deleting a block takes away that block and no other, keeps the invariant, and lowers the totals by one and its size: the clamps at zero never act |
| BlockStore.GetAfterPut | ipfs-store/neuralis/store/blockstore.py:171-250 | A block is read back under the CID put returned; other bytes only with the same hash |
| BlockStore.SweepCollects | ipfs-store/neuralis/store/blockstore.py:345-364 | In any repository the walk over the files in any order removes the same blocks and reduces each total by the same amount |
| BlockStore.SweepKeeps | ipfs-store/neuralis/store/blockstore.py:345-364 | The walk over a listing in any order leaves exactly the pinned blocks |
| BlockStore.Store.PutBlock | ipfs-store/neuralis/store/blockstore.py:171-224 | Stores the bytes under their hash once and counts them, or fails closed or oversize |
| BlockStore.Store.GetBlock | ipfs-store/neuralis/store/blockstore.py:226-250 | The bytes if present and matching the digest, else the error |
| BlockStore.Store.DeleteBlock | ipfs-store/neuralis/store/blockstore.py:257-279 | Removes the block and its size from the totals |
| BlockStore.Store.ListCids | ipfs-store/neuralis/store/blockstore.py:281-301 | Lists the CID of every file whose name parses, each file once, in any repository; other files are skipped |
| BlockStore.Store.Recount | ipfs-store/neuralis/store/blockstore.py:326-343 | Sets the totals, whatever they were and whatever files there are, to the number and the summed sizes of the blocks found for the names that parse |
| BlockStore.MeasuredExact | ipfs-store/neuralis/store/blockstore.py:326-343 | When the files whose names parse stand at their places, that is exactly those files with their sizes; exact totals of a repository without stray files stay as they are |
| BlockStore.Store.GcOrphans | ipfs-store/neuralis/store/blockstore.py:345-364 | In any repository, the block of every CID found by parsing file names that is not pinned goes, the number removed is returned, and each total drops by what was removed, clamped at zero |
| BlockStore.CollectedExact | ipfs-store/neuralis/store/blockstore.py:345-364 | In a repository without stray files and with exact totals, exactly the pinned blocks remain and the totals are exact |
| Pins.PinnedSetExact | ipfs-store/neuralis/store/pins.py:257-266 | The set given to the collector holds a CID exactly when it is pinned |
| Pins.PinManager.PinCid | ipfs-store/neuralis/store/pins.py:161-204 | Adds a record unless there is one |
| IpfsProperties.FileRoundTrip | ipfs-store/neuralis/store/ipfs_store.py:202-358 | get_file of add_file returns the bytes, for any chunk size, exactly unless the chunk size is zero and the file not empty |
| IpfsProperties.ZeroChunkSizeLosesFile | ipfs-store/neuralis/store/ipfs_store.py:202-358 | With a chunk size of zero every non-empty file of legal size can be added and reads back empty |
| IpfsProperties.AddFileSucceeds | ipfs-store/neuralis/store/ipfs_store.py:202-295 | With a chunk size from 1 to the block limit add_file succeeds exactly within the size limit, the capacity, and when its manifest fits a block |
| IpfsProperties.ChunkCountCeil | ipfs-store/neuralis/store/ipfs_store.py:248-262 | A file has ceil(size / chunk size) chunks |
| IpfsProperties.ChunkCount | ipfs-store/neuralis/store/ipfs_store.py:248-262 | Chunks are non-empty and within the chunk size, all but the last full |
| IpfsProperties.AddFileStores | ipfs-store/neuralis/store/ipfs_store.py:236-295 | After add_file the manifest and every chunk are stored, nothing else changed, and only the manifest got a pin |
| IpfsProperties.ChunksShareBlocks | ipfs-store/neuralis/store/ipfs_store.py:248-262 | Two chunks share a block and a listed name exactly when they are equal |
| IpfsProperties.FileSurvives | ipfs-store/neuralis/store/ipfs_store.py:324-358 | A readable file reads the same after any adds, pins and unpins |
| IpfsProperties.CollectExact | ipfs-store/neuralis/store/ipfs_store.py:436-454 | gc leaves exactly the stored pinned blocks, returns the number removed, and finds nothing the second time |
| IpfsProperties.FileAfterCollect | ipfs-store/neuralis/store/ipfs_store.py:436-454 | A file with a pinned manifest reads the same after gc if each chunk is itself pinned, and is not found otherwise |
| IpfsProperties.AddedFileAfterCollect | ipfs-store/neuralis/store/ipfs_store.py:273-295 | In any repository a file just added reads as before after gc if each of its chunks was pinned for itself, and is not found otherwise |
| IpfsProperties.FreshFileLost | ipfs-store/neuralis/store/ipfs_store.py:273-295 | In a new repository a file just added is lost by gc exactly when it has any chunk |
| IpfsProperties.AddWithinLimit | ipfs-store/neuralis/store/ipfs_store.py:184-200 | add stays within the limit and refuses everything above it |
| IpfsProperties.AddFileOvershoot | ipfs-store/neuralis/store/ipfs_store.py:236-274 | add_file overshoots by at most one block and changes nothing once the limit is passed |
| IpfsProperties.LimitHolds | ipfs-store/neuralis/store/ipfs_store.py:541-554 | In every sequential run from an empty repository the total stays within the limit and one block |
| IpfsStore.Ipfs.StoreChunks | ipfs-store/neuralis/store/ipfs_store.py:248-262 | The read loop stores the chunks in order and lists their CIDs, or stops at the first that fails |
| IpfsStore.Ipfs.AddFileFrom | ipfs-store/neuralis/store/ipfs_store.py:202-295 | The new repository and result of add_file, errors included |
| IpfsStore.Ipfs.GetWholeFile | ipfs-store/neuralis/store/ipfs_store.py:324-358 | The concatenated chunks, or the error for a missing, corrupt or malformed part |
| IpfsStore.Ipfs.Gc | ipfs-store/neuralis/store/ipfs_store.py:436-454 | The repository after collection and the number removed, for any repository |
| IpfsContents.AddedContentReads | ipfs-store/neuralis/store/ipfs_store.py:157-200 | add succeeds exactly within the capacity and the block limit, and changes nothing otherwise; its CID then reads as the bytes given, is pinned exactly if it was, the caller asked or auto-pin is on, with no other pin changed, and reads the same after gc exactly if it is pinned |
| IpfsContents.AddedContentStays | ipfs-store/neuralis/store/ipfs_store.py:157-200 | What add stored reads the same after any adds, pins and unpins |
| IpfsContents.GetNeverLies | ipfs-store/neuralis/store/ipfs_store.py:301-322 | Whatever the files of the store hold, get of the CID of some bytes returns these bytes if they are intact in their place, an integrity error if another block is there, and not found if none is |
| IpfsContents.FileNeverLies | ipfs-store/neuralis/store/ipfs_store.py:324-358 | Whatever the files of the store hold, get_file of an added file returns its bytes exactly if the manifest and every chunk are intact, and never anything else |
| IpfsContents.AnyManifest | ipfs-store/neuralis/store/ipfs_store.py:324-358 | For any block and any manifest: get_file returns the contents of the listed names in order, or the error of the block, of the manifest, or of the first name that does not parse or read |
| IpfsContents.PinnedInRun | ipfs-store/neuralis/store/pins.py:161-220 | In every run from an empty repository a CID is pinned exactly if some successful operation pinned it and nothing unpinned it later, and the record is the one the first such operation made |
| Base58.DecodeIdentity | neuralis-node/neuralis/identity.py:475-488 | A decoder inverts identity's encoder on every byte string |
| Base58.IdentityInjective | neuralis-node/neuralis/identity.py:475-488 | Different byte strings have different encodings |
| Base58.DigestLength | neuralis-node/neuralis/identity.py:475-488 | A 32-byte digest takes at most 44 characters |
| Base58.EncodersAgree | neuralis-node/neuralis/mesh/transport.py:357-364 | The two encoders return the same string exactly when all zero bytes are leading ones |
| Base58.TransportInjective | neuralis-node/neuralis/mesh/transport.py:357-364 | Transport's encoder gives different strings to different byte strings |
| Base58.NodeIdsAgree | neuralis-node/neuralis/mesh/transport.py:366-370 | Both sides derive one node id from a digest exactly when its zero bytes all lead |
| Base58.NodeIdsDiffer | neuralis-node/neuralis/mesh/transport.py:366-370 | A digest for which they do not |
| Base58.IdentityEncode | neuralis-node/neuralis/identity.py:475-488 | The counting and division loops compute the leading ones and the base-58 numeral |
| Base58.TransportEncode | neuralis-node/neuralis/mesh/transport.py:357-364 | The same loop with one '1' for every zero byte |
| Transport.StreamRoundTrip | neuralis-node/neuralis/mesh/transport.py:375-410 | Repeated recv_frame parses the concatenated frames of any accepted messages into the same list and leaves exactly what follows |
| Transport.SendAllSucceeds | neuralis-node/neuralis/mesh/transport.py:375-387 | A list of messages is accepted exactly when each is in bounds and the nonces last |
| Transport.SentFrameFits | neuralis-node/neuralis/mesh/transport.py:375-410 | A frame the sender makes passes the receiver's length check and its length fits four bytes |
| Transport.SessionKeySymmetric | neuralis-node/neuralis/mesh/transport.py:330-355 | Both sides derive one session key |
| Transport.SaltSeparates | neuralis-node/neuralis/mesh/transport.py:342-344 | With one side fixed, different public keys of the other give different salts |
| Transport.SessionKeySeparates | neuralis-node/neuralis/mesh/transport.py:330-352 | Under a derivation without collisions, sessions with different secrets or different keys of the other side have different session keys |
| Transport.TruncatedFrame | neuralis-node/neuralis/mesh/transport.py:389-410 | A frame cut anywhere is refused as cut in its header or in its body, and the session does not move |
| Transport.NonceSpent | neuralis-node/neuralis/mesh/transport.py:126-147 | A body uses up the next nonce exactly if it carries it, and is returned exactly if it also opens; the bytes received count what was returned and nothing else of the session changes |
| Transport.Session.EncryptMessage | neuralis-node/neuralis/mesh/transport.py:118-124 | Seals under the next nonce and counts it |
| Transport.Session.DecryptMessage | neuralis-node/neuralis/mesh/transport.py:126-147 | Opens only the expected nonce; the counter moves also when opening fails |
| Transport.PeerConnection.Send | neuralis-node/neuralis/mesh/transport.py:447-455 | What is written, how the session moves and when the connection closes |
| Transport.PeerConnection.Recv | neuralis-node/neuralis/mesh/transport.py:457-468 | What is consumed, how the session moves and when the connection closes |
| Link.PrefixIffNotReflected | neuralis-node/neuralis/mesh/transport.py:118-147 | In every run of both directions over a network that may bring any bytes to either end, in any pieces, as long as no body opens that neither end sealed: what an end received is a prefix of what the other sealed exactly if it accepted no frame of its own, other than one equal to the other's |
| Link.HistoriesAreLogs | neuralis-node/neuralis/mesh/transport.py:375-410 | What an end sealed, accepted and received are the data of its sends that write, of those that do not raise, and of its successful reads in the run; send_nonce counts the first; a send that is closed, oversize or out of nonces changes nothing, and no other |
| Link.BytesAreSizes | neuralis-node/neuralis/mesh/transport.py:118-147 | In every run the byte counters of a session are the summed sizes of what its end sealed and what it read |
| Link.DirectIsPrefix | neuralis-node/neuralis/mesh/transport.py:118-147 | It is a prefix whenever the end never comes to read a body that it sealed itself and the other did not |
| Link.ReflectedFrameAccepted | neuralis-node/neuralis/mesh/transport.py:118-147 | A run in which an end reads its own first frame as the other's first message |
| Link.AcceptedExceptLast | neuralis-node/neuralis/mesh/transport.py:447-468 | Of such a prefix all was accepted by send, exactly unless one of the sends raised after writing its frame and as many messages were received as sealed |
| Link.AcceptedUnlessRaised | neuralis-node/neuralis/mesh/transport.py:447-468 | All that was sealed was accepted, exactly unless a send raised after writing; that was then the last |
| Link.ReadIsPrefixOfAccepted | neuralis-node/neuralis/mesh/transport.py:447-468 | While neither happens in the run, what recv returns is a prefix of what send accepted |
| Link.RaisedSendArrives | neuralis-node/neuralis/mesh/transport.py:447-468 | A run in which a message whose send raised arrives |
| Link.ClosedStaysClosed | neuralis-node/neuralis/mesh/transport.py:447-468 | After a failed read or write an end receives and seals nothing more |
| KeyRotation.RetiredKeyAvailable | crypto-layer/neuralis/crypto/keystore.py:242-297 | In every run a retired key is returned under its id with the same bytes for the whole retention time, across rotations, stops, crashes and restarts |
| KeyRotation.HeldAfterRotation | crypto-layer/neuralis/crypto/keystore.py:242-297 | Right after a rotation a key ever retired is returned exactly if that was no more than the retention time ago |
| KeyRotation.HeldAfterStart | crypto-layer/neuralis/crypto/keystore.py:460-517 | Right after a start the same holds, except that a key retired at time zero is returned as long as the file holds it |
| KeyRotation.ZeroTimeKeyOutlives | crypto-layer/neuralis/crypto/keystore.py:460-517 | A run in which a key retired at time zero is returned after the retention time |
| KeyRotation.ActiveKeys | crypto-layer/neuralis/crypto/keystore.py:184-215 | In every running state each type has exactly one active record, the private key in memory belongs to it, and a retired key is only ever returned under the id it was retired under |
| KeyRotation.RestartRestores | crypto-layer/neuralis/crypto/keystore.py:407-517 | Stopping or crashing and starting again restores records and both active keys without generating anything |
| KeyRotation.RotateHmacSafeIffRunning | crypto-layer/neuralis/crypto/keystore.py:309-330 | From every reachable state, rotating the HMAC key leaves one active record of each type after the next start exactly when the store was running; otherwise the static key is lost |
| KeyRotation.StepKeepsInv | crypto-layer/neuralis/crypto/keystore.py:242-330 | Every start, stop, crash and rotation keeps memory, file and records consistent |
| KeyCurrent.KeysAreLatest | crypto-layer/neuralis/crypto/keystore.py:184-330 | In every state of every run in which the store is running, the private key and the HMAC key are the latest made by a rotation or a first start, and the one active record of each type has the id, time and public half of that making |
| KeyCurrent.RotatedKeyInUse | crypto-layer/neuralis/crypto/keystore.py:242-290 | After a static rotation, whenever the store runs before the next one, across stops, crashes and restarts, the new key is the private key and the one active record of the type has its id and public half |
| KeyCurrent.RotatedHmacInUse | crypto-layer/neuralis/crypto/keystore.py:309-330 | The same of the HMAC key after a rotation of it, the record having no public half |
| KeyCurrent.StartFails | crypto-layer/neuralis/crypto/keystore.py:184-205 | A start fails exactly when the store is stopped and its file cannot be read, and then changes nothing; otherwise the store runs |
| KeyCurrent.StartFromAnyFile | crypto-layer/neuralis/crypto/keystore.py:460-517 | A new store on any readable file takes over its records and both active keys, without writing, if the file holds both, and otherwise has two new keys |
| KeyCurrent.RegeneratedUnderOldId | crypto-layer/neuralis/crypto/keystore.py:460-517 | If a file that lacks a key shows an active static record, the new private key is saved under the id of that old record and nothing under its own |
| KeyStore.CryptoKeyStore.RotateStaticKey | crypto-layer/neuralis/crypto/keystore.py:242-290 | The records, keys and file after a rotation, or the error of a stopped store |
| KeyStore.CryptoKeyStore.SaveFile | crypto-layer/neuralis/crypto/keystore.py:407-458 | Which key bytes are written for which records |
| KeyStore.CryptoKeyStore.LoadFile | crypto-layer/neuralis/crypto/keystore.py:460-517 | Which keys are restored from a file and when everything is generated anew |
| KeyStore.CryptoKeyStore.GetRetiredPriv | crypto-layer/neuralis/crypto/keystore.py:292-297 | The first retired key of the id |
| BusRuns.QueueIsLatest | neuralis-node/neuralis/agents/bus.py:138-249 | In every run the queue holds the latest 256 of the messages that found nobody subscribed since it was last emptied |
| BusRuns.DeliveriesAreExact | neuralis-node/neuralis/agents/bus.py:138-181 | Each delivery calls exactly those subscribed when it began, once each and in order, and collects their responses in order, whatever happens in between |
| BusRuns.DeliveryBegins | neuralis-node/neuralis/agents/bus.py:138-228 | Each step of a run starts exactly one delivery when a message that is not expired finds somebody, moves exactly one on by one handler, or leaves all deliveries as they are |
| BusRuns.CountersAreTallies | neuralis-node/neuralis/agents/bus.py:138-228 | In every run the counters are the numbers, since the last reset, of messages published, of messages that found nobody, and of handlers that returned |
| BusRuns.SubscribersAreActive | neuralis-node/neuralis/agents/bus.py:87-136 | The bus holds exactly the subscriptions not cancelled since they were made, in order |
| BusRuns.GeneratedLabelTaken | neuralis-node/neuralis/agents/bus.py:87-100 | In every run in which nobody chooses a label of the generated form, the next generated label of a topic is in use exactly if an unlabelled active subscription was made when as many were active as now |
| BusRuns.GeneratedLabelsDistinct | neuralis-node/neuralis/agents/bus.py:87-100 | In such a run a generated label differs from that of an earlier subscription of the topic if nothing was taken away from it in between |
| AgentBus.LabelAfterRemoval | neuralis-node/neuralis/agents/bus.py:87-116 | After one of n numbered subscriptions was removed, the next generated label is in use exactly if that one was not the last |
| BusRuns.GeneratedLabelClash | neuralis-node/neuralis/agents/bus.py:87-100 | A run in which it is: two unlabelled subscriptions, the first removed, and a third |
| AgentBus.RecipientsOnce | neuralis-node/neuralis/agents/bus.py:272-283 | Subscriptions of target, "broadcast" and "*" are called as often as registered, also when the target is one of the two |
| AgentBus.WithoutExact | neuralis-node/neuralis/agents/bus.py:102-116 | Unsubscribing removes every subscription with the label and no other |
| AgentBus.EventBus.Publish | neuralis-node/neuralis/agents/bus.py:138-181 | Who is called in which order, the responses returned, the counters and the dead-letter queue |
| AgentBus.EventBus.Request | neuralis-node/neuralis/agents/bus.py:183-228 | The first subscriber of the target, or else of "broadcast", is called; without one the message is dead-lettered |
| AgentBus.EventBus.UnsubscribeAll | neuralis-node/neuralis/agents/bus.py:118-132 | Removes the label from every topic and returns how many subscriptions had it |
| PeerStore.RunInverse | neuralis-node/neuralis/mesh/peers.py:186-240 | With distinct non-empty ids the two indices undo each other after every run of adds, removals and status changes |
| PeerStore.AddKeepsInverse | neuralis-node/neuralis/mesh/peers.py:186-232 | An add keeps them inverse exactly when the node is known or its peer id is not |
| PeerStore.SharedPeerIdBreaksIndices | neuralis-node/neuralis/mesh/peers.py:186-249 | Two nodes with one peer id break them: the look-up finds the second only, and after its removal nothing |
| PeerStore.LookupsAgree | neuralis-node/neuralis/mesh/peers.py:251-260 | Looking up by peer id finds a peer exactly when it is stored under its node id |
| PeerStore.MergeMeaning | neuralis-node/neuralis/mesh/peers.py:202-232 | An update unites the addresses, takes the higher status rank, keeps the ids, and keeps a ban only if it is itself a ban |
| PeerStore.PeersAreAccounted | neuralis-node/neuralis/mesh/peers.py:186-240 | In every run a node is stored exactly if it was added since its last removal; its addresses are those of all these adds, its ids and key those of the first, it was last seen at the latest, and its status and alias are what the log of adds and marks says |
| PeerStore.StatusMoves | neuralis-node/neuralis/mesh/peers.py:202-236 | In every run an add never lowers the status of a stored peer, an add of that peer brings it at least to the status added, and a mark sets exactly the status marked |
| PeerStore.PeerInfo.MergeFrom | neuralis-node/neuralis/mesh/peers.py:202-232 | The merged fields, also when a peer is merged with itself |
| PeerStore.Store.AddPeer | neuralis-node/neuralis/mesh/peers.py:186-232 | The registry after an add or update and which object is stored |

## Left out

- Cryptography (SHA-256, HKDF, AES-GCM, Fernet, X25519, Ed25519) is represented by functions with equations; no claim is made about its strength.
- JSON text, TOML, file formats and the file system: values are kept in memory, and a block file or key file is a map entry; atomic renames and swallowed write errors are not modelled.
- The statistics file of the block store and opening an existing repository without one: runs start from an empty repository; `Recount` covers wrong totals.
- Handshakes, sockets, discovery, heartbeat timers and `MeshHost`: the network and the steps of each party are nondeterministic instead.
- Messages with fields of JSON types other than the ones the sender writes are refused when parsed, where the code would carry the foreign value along.
- Messages forged under another node's id: the sender of a message on the network is the node it names.
- External handlers added by `on_protocol_message`, and the time the agent runtime takes: a request is being handled until a reply is built.
- Which of several nodes with equal latency is selected: any of them.
- Concurrent `add` and `add_file` on one store: the storage limit is proved for sequential runs.
- White space and case of CID strings beyond ASCII, and the cached string of a CID.
- Key records shared between the rotation's result and the store, and the session key type, which nothing creates.
- RouterObjects.ProtocolRouter.OnMeshAgentMsg: refuses payloads with foreign JSON types and does not call external handlers, which do not touch the router's state.
- RouterOutcomes.ExchangeSucceeds: has no other steps between those of the exchange; `RouterRuns.DeliveredAnswerStays` and `RouterNet.AnswersAreTraced` allow them.
- AgentBus.EventBus.Publish: handlers that use the bus while they are awaited are not part of the method; `BusRuns` has them as steps between two handlers.
- IpfsProperties.FileRoundTrip: negative chunk sizes, which Python's read takes as "everything", are included; a file that changes while it is read is not.
- The agent loader, the inference engine, the web interface, configuration and logging.
