# Verified model of the browser driver's core

This project models, in Dafny, the parts of the driver whose correctness rests on state, arithmetic or arbitrary
schedules, and proves what they keep. The rest of the driver reaches these parts through values: what sockets, clocks,
decoders, pages and channels do is an arbitrary choice at every step.

- **Content streaming** (`Unicode`, `ZeroBytes`, `Utf16Len`, `ContentStream`, `ContentDelivery`). A document of UTF-16
  units is read in slices that keep surrogate pairs whole; each slice comes back as UTF-8, and the reader advances by a
  unit count computed from the bytes with a word-at-a-time bit trick. The proofs run from the bit trick over the
  counting identity and the slice function to what the reader and the chunk stream deliver.
- **Frames** (`FrameModel`, `FrameForest`, `FrameManagers`, `FrameContexts`, `Navigation`, `NavigationHistory`,
  `FrameRecords`, `FrameRuns`). The frame manager is a class changed in place, one method per event, proved against
  transition functions; removal of a subtree is specified by set, not by recursion. The theorems are about every
  sequence of events: what a poll answers, and what each frame holds, is fixed by the history. `FrameRuns` holds the
  event sequences in which the manager does not do what is promised.
- **The WebSocket connection** (`WebSocketReader`, `BudgetedPoll`, `WritePath`, `Connections`). The pipelined reader
  refines a serial loop under every completion order, up to a panic; the polled reader agrees with it; the write
  path accounts for every submitted command, and what each poll does is fixed by what the sink does.
- **URLs and hosts** (`Strings`, `UrlParser`, `Hosts`, `HostLabels`). The host parser is the inverse of a printer; the
  fast scans meet the same specifications as the slow ones; the base domain is specified by labels.
- **The DOM scope walk** (`ScopeWalk`), **event listeners** (`ListenerModel`, `Listeners`) and **the futures**
  (`FutureModel`, `Futures`).

`dafny verify dfyconfig.toml` checks the whole project.

## Where the code does not do what it says

For each of these there is an input or a run on which the promise fails, and the exact condition under which it holds.

- The comment on `count_zero_bytes_u64` (`src/content_stream.rs:694-708`) promises the number of zero bytes of any
  word. The word 0x0100 gets one too many (`ZeroBytes.CountZeroBytesOvercounts`). The count is exact if and only if no
  byte 1 stands directly above a zero byte (`ZeroBytes.CountZeroBytesExactness`); both callers mask such bytes away.
- At the smallest chunk size the chunk stream ends silently before the end of some admitted documents. It delivers a
  document whole if and only if its partition fits the round limit (`ContentDelivery.PumpDeliversWholeIff`), and every
  admitted one if and only if the requested chunk size is above the minimum, or none is requested
  (`ContentDelivery.PumpDeliversEveryAdmittedDocumentIff`, `ContentDelivery.PumpDeliversAtDefaultSize`).
- When the main frame changes its id, its contexts stay indexed under the old one, and a later destroy event misses
  them (`FrameContexts.DestroyMissesRenamedMain`; the run is `FrameRuns.DestroyedContextStays`). The index stays right
  if and only if the main frame keeps its id or holds no context (`FrameContexts.MainNavigationKeepsTrackIff`).
- A queued navigation is not carried along when the main frame changes its id (the run is
  `FrameRuns.QueuedNavigationFails`). It is started on the main frame if and only if the main frame still has the id it
  had at the request (`NavigationHistory.QueuedWatcherIsNotRetargeted`); within cap and deadline it then fails if and
  only if no live frame has that id (`NavigationHistory.FrameIsMissingIff`).
- A navigation is reported as done with a new document although none was announced to the requested frame: on another
  frame that took its id (`FrameRuns.OtherFrameFinishes`), or on a frame without a loader
  (`FrameRuns.FrameWithoutLoaderFinishes`). It is a new document of the very frame requested if and only if the frame
  that finishes has a loader and the requested id, followed since the request, leads to it, always to a live frame, and
  is never taken over by the main frame (`NavigationHistory.EveryFinishedNavigationIsJustified`,
  `NavigationHistory.IsFrameIff`).
- The comment on `ws_read_loop` (`src/conn.rs:510-512`) promises that a frame that does not decode is dropped. A text
  that does not parse and has a character across byte 512 panics the reader, which cuts its log preview there
  (`WebSocketReader.MalformedFrameIsNotDropped`); the background reader panics only if the text is below 256 KiB.
  A loop that ends by itself with the channel open finishes, having sent the whole serial output, if no such text comes
  before the first close, failure or end, and panics otherwise (`WebSocketReader.WsReadLoop`).
- A serialisation or send error loses the command it strikes, and leaves commands handed over in the same poll without
  an owed flush (`WritePath.FailureStrandsBuffered`; the run is `WritePath.StrandedRun`). Nothing is lost if and only
  if no poll fails on a command (`WritePath.NothingIsLostIff`), and throughout a run a flush is owed exactly when
  something is buffered if and only if no poll fails after handing something over (`WritePath.AlwaysTidyIff`).
- A protocol-relative URL whose first colon opens a "://" is read from there (`UrlParser.NestedUrlIsMisread`), and is
  read as meant if and only if it does not (`UrlParser.ProtocolRelativeIff`).
- The two forms of the parser differ (`UrlParser.FormsDiffer`); `UrlParser.FormsAgreeIff` says on which texts they
  agree.
- `base_domain_from_host` reduces "m.com" and "www.com" to "com", and "api.co.uk" to "co.uk": exactly which hosts of two
  and three labels are kept is `Hosts.TwoLabelsKeptIff` and `HostLabels.ThreeLabelsKeptIff`.

## Model

| member | source | states |
|---|---|---|
| `Unicode.DecodeUtf8OfUtf8` | src/content_stream.rs:634-644 | the UTF-8 encoder and the decoder written from section 4 of RFC 3629 are inverse: decoding an encoded text gives the text |
| `Unicode.Utf8OfDecodeUtf8` | src/content_stream.rs:634-644 | every valid byte string is the encoding of what it decodes to, so "valid UTF-8" means exactly "encoding of some text" |
| `Unicode.DecodeUtf16OfUtf16` | src/content_stream.rs:89-100 | the UTF-16 encoder and the decoder of section 2.2 of RFC 2781 are inverse on texts |
| `Unicode.Utf16OfDecodeUtf16` | src/content_stream.rs:89-100 | every well-formed unit string is the encoding of what it decodes to |
| `ZeroBytes.CountZeroBytesExactness` | src/content_stream.rs:700-708 | the bit trick never counts too few zero bytes, and is exact if and only if no byte 1 stands directly above a zero byte; the comment claims exactness for every word |
| `ZeroBytes.CountZeroBytesOvercounts` | src/content_stream.rs:700-708 | the word 0x0100 has seven zero bytes and is given eight |
| `ZeroBytes.ContinuationMaskCounts` | src/content_stream.rs:664-668 | after the first mask the trick counts exactly the continuation bytes of any word |
| `ZeroBytes.FourByteLeadMaskCounts` | src/content_stream.rs:669-673 | after the second mask it counts exactly the four-byte leads of any word |
| `ZeroBytes.WordCountsAreExact` | src/content_stream.rs:655-675 | both counts are those of the eight bytes loaded, in either byte order |
| `Utf16Len.Utf16LenOfUtf8` | src/content_stream.rs:651-692 | the word-at-a-time loop with its tail returns bytes minus continuation bytes plus four-byte leads, clamped to 32 bits, for every byte string and byte order |
| `Utf16Len.ScalarUtf16LenOfUtf8` | benches/content_stream_simd.rs:16-36 | the lead-byte walk returns the clamped number of units that walking from lead to lead adds up to |
| `Utf16Len.WalkedUnitsOfUtf8` | benches/content_stream_simd.rs:16-36 | on the encoding of any text the walk adds up to the length of its UTF-16 form |
| `Utf16Len.CountedUnitsOfValidUtf8` | src/content_stream.rs:634-649 | on every valid UTF-8 string the counting formula equals the number of UTF-16 units of the decoded text, clamped |
| `ContentStream.ReadChunks` | src/content_stream.rs:550-620 | the accumulating loop, for any page at all and either byte order, returns what the recursive reader returns, error for error, after the same number of rounds |
| `ContentStream.ReaderEnds` | src/content_stream.rs:550-620 | how the reading of any page ends that has taken some slices, by what the page answers next: it returns what it has taken at the total or at an empty answer, and otherwise the error of the page, of the round limit or of the byte cap |
| `ContentStream.OkMetNoError` | src/content_stream.rs:550-620 | a reading of any page that returns a document has met no error: the document is all the slices the page answered, up to the total or an empty answer |
| `ContentStream.PumpEnds` | src/content_stream.rs:396-427 | how the chunk stream goes on behind the slices it has yielded, on any page: it ends at the total, the round limit or an empty answer, and fails with the error of the page |
| `ContentDelivery.SliceIsWholeCodePoints` | src/content_stream.rs:89-100 | from a code-point boundary the page cuts off exactly the code points that fit into the request, never half a pair |
| `ContentDelivery.BoundaryKeepsPairs` | src/content_stream.rs:89-100 | an offset that is a code-point boundary is never inside a surrogate pair |
| `ContentDelivery.PartitionIsExact` | src/content_stream.rs:89-100 | the greedy cutting of a text loses nothing, and every chunk but the last fills its request up to at most one unit |
| `ContentDelivery.PartitionLength` | src/content_stream.rs:33-44 | a text of at most rounds times (chunk - 1) plus one units is cut into at most that many chunks |
| `ContentDelivery.ReadSliceAdvances` | src/content_stream.rs:396-427 | at a boundary a slice is the next chunk of the partition, is not empty, and the advance computed from its bytes is the number of units the page cut off |
| `ContentDelivery.ReaderDelivers` | src/content_stream.rs:550-620 | from any boundary with rounds to spare the reader returns the whole text, or the byte-cap error exactly when the text is larger than the cap; its round counter grows by at most the chunks that are left, and by exactly that many when it returns the text |
| `ContentDelivery.PumpDelivers` | src/content_stream.rs:396-427 | the pump yields the encoded chunks of the partition in order, cut off after 262144 rounds without an error |
| `ContentStream.ClampIsNearest` | src/content_stream.rs:59-61 | the chunk size used is the one between 1024 and 4194304 units that is nearest to the requested one |
| `ContentDelivery.ThresholdFallsWithPressure` | src/content_stream.rs:248-260 | the adaptive threshold falls monotonically with the number of pages, from 1048576 units to 262144 at 128 pages |
| `ContentDelivery.ChunksOfAdmittedDocument` | src/content_stream.rs:482-499 | an admitted document is cut into between 1 and 4097 chunks of at least the default size, and into one below the adaptive threshold |
| `ContentDelivery.RoundsOfAdmittedDocument` | src/content_stream.rs:550-620 | reading an admitted document, the counter of the reader ends between 1 and 4097, at exactly 1 below the adaptive threshold, and at the number of chunks whenever the text is returned |
| `ContentDelivery.ContentBytesDelivers` | src/content_stream.rs:281-286 | for every well-formed document: too many units are refused, everything else is returned whole or refused for its size in bytes; the round limit never strikes |
| `ContentDelivery.ContentChunksAreThePartition` | src/content_stream.rs:321-355 | the chunk stream yields the partition at the clamped chunk size, every chunk valid UTF-8 on its own, and never fails |
| `ContentDelivery.PumpDeliversWholeIff` | src/content_stream.rs:396-404 | the pump delivers a document whole if and only if its partition has at most 262144 chunks |
| `ContentDelivery.PumpReach` | src/content_stream.rs:396-404 | at chunk size c every document of u units is delivered whole if and only if u <= 262144 * (c - 1) + 1 |
| `ContentDelivery.PumpDeliversAtDefaultSize` | src/content_stream.rs:321-355 | with no chunk size requested, the stream delivers every admitted document whole |
| `ContentDelivery.PumpDeliversEveryAdmittedDocumentIff` | src/content_stream.rs:33-68 | every admitted document is delivered whole if and only if the requested chunk size is above the minimum of 1024; at 1024 the stream silently ends before the end of some document |
| `FrameManagers.FrameManager.RemoveFramesRecursively` | src/handler/frame.rs:655-669 | in-place recursive removal terminates and leaves exactly the frames that do not descend from the removed one, unlinked from its parent and otherwise unchanged; it returns the removed frame without its parent |
| `FrameManagers.FrameManager.RemoveChildren` | src/handler/frame.rs:655-662 | the loop over the children of a frame already taken out removes exactly their subtrees, in any order |
| `FrameManagers.FrameManager.OnFrameAttached` | src/handler/frame.rs:477-487 | attaching links parent and child both ways, or does nothing for a known id or an unknown parent; the shape is kept |
| `FrameManagers.FrameManager.OnFrameDetached` | src/handler/frame.rs:489-491 | detaching removes exactly the subtree; the shape is kept |
| `FrameManagers.FrameManager.OnFrameNavigated` | src/handler/frame.rs:493-541 | a child navigation removes exactly the strict descendants, a parentless one replaces the main frame; the shape is kept |
| `FrameManagers.FrameManager.ChildFrameNavigated` | src/handler/frame.rs:494-501 | the frames left are those outside the subtree, and the navigated child without children |
| `FrameManagers.FrameManager.TakeMainFrame` | src/handler/frame.rs:502-522 | takes the main frame and its subtree out and gives it the new id, or makes a new frame |
| `FrameManagers.FrameManager.MainFrameNavigated` | src/handler/frame.rs:502-540 | counts the navigation (saturating), stores the main frame under its new id and moves an active watcher with it |
| `FrameManagers.FrameManager.OnFrameTree` | src/handler/frame.rs:464-475 | attaches and navigates every node of a nested tree, parents first, and keeps the shape |
| `FrameManagers.FrameManager.OnNavigatedWithinDocument` | src/handler/frame.rs:543-550 | sets the url and marks the active watcher if it is on that frame |
| `FrameManagers.FrameManager.OnFrameStartedLoading` | src/handler/frame.rs:559-563 | forgets the received lifecycle events and the request of the frame |
| `FrameManagers.FrameManager.OnFrameStoppedLoading` | src/handler/frame.rs:552-556 | adds DOMContentLoaded and load |
| `FrameManagers.FrameManager.OnPageLifecycleEvent` | src/handler/frame.rs:644-652 | records the event; init announces a loader and starts the record afresh |
| `FrameManagers.FrameManager.OnHttpRequestFinished` | src/handler/frame.rs:375-381 | stores the request on the live frame it names |
| `FrameManagers.FrameManager.OnFrameExecutionContextCreated` | src/handler/frame.rs:569-607 | gives the context to the main or the still empty isolated world, or to neither, and indexes it in every case |
| `FrameManagers.FrameManager.OnFrameExecutionContextDestroyed` | src/handler/frame.rs:610-616 | removes the index entry and takes the context from the frame it pointed to |
| `FrameManagers.FrameManager.OnExecutionContextsCleared` | src/handler/frame.rs:619-631 | clears the contexts of every frame in the index, then the index |
| `FrameManagers.FrameManager.EvictStaleContexts` | src/handler/frame.rs:636-642 | keeps exactly the index entries of live frames |
| `FrameManagers.FrameManager.SetMaxMainFrameNavigations` | src/handler/frame.rs:277-279 | sets or lifts the cap that polls compare the navigation counter with, and changes nothing else |
| `FrameManagers.FrameManager.NavigateFrame` | src/handler/frame.rs:446-457 | queues the request with a watcher that remembers the present loader, and resets the counter |
| `FrameManagers.FrameManager.Goto` | src/handler/frame.rs:439-443 | navigates the main frame, or drops the request if there is none |
| `FrameManagers.FrameManager.Poll` | src/handler/frame.rs:383-436 | ends, keeps or starts a navigation: cap before deadline before missing frame before completion |
| `FrameForest.StepKeepsShape` | src/handler/frame.rs:464-541 | every event keeps the shape: keys are ids, links agree both ways, none dangles, one root |
| `FrameForest.EveryRunIsWellShaped` | src/handler/frame.rs:464-541 | after any event sequence the frame map is empty or a tree rooted at the main frame, from which every frame descends |
| `FrameRecords.LiveAfterIff` | src/handler/frame.rs:464-541 | which frames are live after an event: those before it, plus one attached below a live parent, minus a detached subtree or the strict descendants of a navigated child; after a parentless navigation only the new main frame |
| `FrameRecords.StepRecords` | src/handler/frame.rs:375-381 | for every frame live after an event, its id, url, name, request and isolated-world name: set by the event if it is about that frame, otherwise those of the same frame before it |
| `FrameForest.MainNavigatedLeavesOnlyMain` | src/handler/frame.rs:502-540 | a parentless navigation leaves exactly one frame, the new main frame, even if its id was a child before |
| `FrameForest.RemoveNextChild` | src/handler/frame.rs:655-662 | removing one more child subtree from what is left removes exactly that subtree |
| `FrameForest.RemoveLastChild` | src/handler/frame.rs:655-669 | once all child subtrees are gone, unlinking from the parent leaves exactly the frames outside the subtree |
| `FrameContexts.AnnounceKeepsTrackIff` | src/handler/frame.rs:569-599 | a created context keeps the index right if and only if no other frame holds it and the two worlds of its frame stay apart |
| `FrameContexts.MainNavigationKeepsTrackIff` | src/handler/frame.rs:502-530 | a parentless navigation keeps the index right if and only if the main frame keeps its id or holds no context |
| `FrameContexts.DestroyMissesRenamedMain` | src/handler/frame.rs:610-616 | after the main frame changes its id, destroying a context it holds no longer reaches it |
| `FrameRuns.DestroyedContextStays` | src/handler/frame.rs:502-541 | the run in which the main frame gets a context, changes its id, the context is destroyed, and the frame still holds it |
| `FrameContexts.DestroyedIsHeldByNone` | src/handler/frame.rs:610-616 | with the index right, a destroyed context is held by no live frame |
| `FrameContexts.ClearedHoldsNothing` | src/handler/frame.rs:619-631 | with the index right, a clear leaves no live frame holding any context |
| `FrameContexts.FreshRunIsAdmissible` | src/handler/frame.rs:569-641 | over any run in which context ids are fresh and a main frame that holds contexts keeps its id, the index is right |
| `FrameRecords.StepWorlds` | src/handler/frame.rs:569-631 | which context each world of a frame holds after an event: a new default one in the main world, a new one of its own name in an empty isolated world, none after its destruction or a clear, and otherwise the one it held |
| `FrameRecords.WorldsHaveAHistory` | src/handler/frame.rs:569-631 | over every run in which the index is right, a world of a live frame holds exactly the context that some event gave to it under the names the frame has had, and that no event since has replaced, destroyed or cleared |
| `FrameRecords.StepIndexes` | src/handler/frame.rs:569-642 | the frame the index gives for a context after an event: a created context is indexed even if no world takes it; entries go only with destruction, clear and eviction |
| `FrameContexts.EvictDropsStaleIff` | src/handler/frame.rs:636-642 | evicting drops an entry if and only if its frame is gone, and changes nothing else |
| `FrameContexts.StepSimulates` | src/handler/frame.rs:633-641 | two managers that differ only by evicted entries stay so under every event |
| `FrameContexts.EvictionIsInvisible` | src/handler/frame.rs:633-641 | evictions inserted anywhere, any number of times, change nothing but the index: frames and navigations are those of the run without them |
| `Navigation.TraceAlternates` | src/handler/frame.rs:383-457 | over every interleaving the emitted events are a prefix of request, result, request, result of the accepted navigations in order, and how long a prefix is fixed by the queue |
| `Navigation.RunIsInOrder` | src/handler/frame.rs:383-457 | after every run queue, active navigation and trace account for all accepted navigations in order |
| `NavigationHistory.LifecycleWasDelivered` | src/handler/frame.rs:644-652 | a recorded lifecycle event of a live frame was delivered to it, under the names it has had, and not forgotten since |
| `NavigationHistory.DeliveredIsRecorded` | src/handler/frame.rs:644-652 | conversely, an event delivered to a frame that has been live since and not cleared is on its record |
| `NavigationHistory.LoaderWasTaken` | src/handler/frame.rs:644-648 | the loader of a live frame was announced by an init event to it |
| `NavigationHistory.RecordedUnderPresentLoader` | src/handler/frame.rs:644-652 | what a frame has on record it received since it took its present loader |
| `NavigationHistory.ReceivedIff` | src/handler/frame.rs:644-652 | what a live frame has on record is exactly what it has received under its present loader |
| `NavigationHistory.NavigationsHaveAHistory` | src/handler/frame.rs:383-457 | every active navigation was asked for by one event and started by a later poll, has been active since, and is marked as same-document if and only if a same-document event has hit its watcher since |
| `NavigationHistory.CounterCountsNavigations` | src/handler/frame.rs:504-506 | the counter is the number of parentless navigations since the last navigation request, saturating |
| `NavigationHistory.NewLoaderWasAnnounced` | src/handler/frame.rs:644-648 | if the loader of a live frame differs from the one it had at some earlier point, an init to it since then announced a loader if and only if it has one |
| `NavigationHistory.IsFrameIff` | src/handler/frame.rs:502-540 | over every run, the frame now called k is the very frame that had a given id at some earlier point if and only if that id, followed through the renames of the main frame, leads to k, is at every moment that of a live frame, and is never taken over by the main frame |
| `NavigationHistory.FollowedKeepsName` | src/handler/frame.rs:531-539 | the id a watcher follows stays that of the frame it started on as long as the main frame neither takes a watched id over nor is replaced by a new frame while watched and gone |
| `NavigationHistory.EveryFinishedNavigationIsJustified` | src/handler/frame.rs:347-436 | a navigation reported as done was asked for and started by events of the run, has passed neither its deadline nor the cap, and the frame that finishes has the requested id followed through the renames since the start; that frame received load under its present loader (or DOMContentLoaded without a url); done without a new document means a same-document event hit the active watcher; done with one means the loader differs from the remembered one and, if the frame had the requested id at the request, a loader was announced to it since then if and only if it has one; it is a new document of the very frame requested if and only if the frame has a loader and the requested id, followed since the request, leads to it, always to a live frame, and is never taken over |
| `FrameRuns.OtherFrameFinishes` | src/handler/frame.rs:502-540 | a run in which a navigation of a child is reported as done on the old main frame, which took the id of the child, with no loader announced since the request |
| `FrameRuns.FrameWithoutLoaderFinishes` | src/handler/frame.rs:354-373 | a run in which a navigation is reported as done on a frame that was detached and attached again and has no loader |
| `NavigationHistory.EveryPollAnswers` | src/handler/frame.rs:347-436 | what a poll answers to an active navigation is fixed by the history of the run: too many navigations if more than the last cap set were counted since the request; else a timeout past the deadline of its start; else a missing frame; else, if load was received under the present loader (or DOMContentLoaded without a url), done without a new document if a same-document event hit the watcher since the start, and otherwise done with one if the loader is not the one at the request; in every other case it stays active and nothing is answered |
| `NavigationHistory.CapIsTheLastSet` | src/handler/frame.rs:277-279 | the cap in force is the one set last |
| `NavigationHistory.IdlePollAnswers` | src/handler/frame.rs:428-435 | without an active navigation a poll starts the one that has waited longest, under its timeout from then on, or answers nothing if none waits |
| `NavigationHistory.PollPastDeadlineEnds` | src/handler/frame.rs:403-411 | a poll past the deadline ends the active navigation with an error that carries its id |
| `NavigationHistory.ActiveWatcherStaysOnMain` | src/handler/frame.rs:531-539 | as long as it is active, a watcher on the main frame follows it through every id change, whatever the events, frame trees included |
| `NavigationHistory.QueuedWatcherIsNotRetargeted` | src/handler/frame.rs:531-539 | over every run, a navigation asked for on the main frame is started on the main frame if and only if the main frame has the same id when it is started as when it was asked for |
| `NavigationHistory.FrameIsMissingIff` | src/handler/frame.rs:383-427 | a poll ends the active navigation because its frame is missing if and only if cap and deadline are kept and the watched id is not that of a live frame |
| `FrameRuns.QueuedNavigationFails` | src/handler/frame.rs:531-539 | the run in which the main frame is asked to navigate, changes its id, and the navigation is started and reported as frame not found |
| `WebSocketReader.SerialUpToTerminator` | src/conn.rs:497-519 | the serial loop sends the successful decodes before the first close, failure or end, then the error if and only if a failure came first |
| `WebSocketReader.AudibleIsSerial` | src/conn.rs:784-805 | what a reader sends that panics at a text whose log preview would cut a character is a prefix of the serial output, and all of it if no such text comes before the first close, failure or end |
| `WebSocketReader.MalformedFrameIsNotDropped` | src/conn.rs:510-512 | a text of 513 bytes that does not parse and has a character across byte 512: the serial loop drops it and sends the frame behind it, both readers panic before that |
| `WebSocketReader.WsReadLoop` | src/conn.rs:524-648 | for every completion order and schedule: at most 32 decodes in flight, a prefix of the serial output sent, and a loop still running has been held up at all but 2 * (frames + 1) turns; a loop that finishes has met no panic and, with the channel open, sent exactly the serial output; one that panics has met one, and loses of what comes before it exactly the decodes in flight, a large frame at their head |
| `WebSocketReader.StartDecode` | src/conn.rs:583-618 | frames of 256 KiB and more go to the blocking pool, smaller ones are decoded at once, with the same result |
| `WebSocketReader.EmitRefines` | src/conn.rs:478-495 | emitting the head of the pipeline keeps sent, in flight and still to come equal to the serial output |
| `BudgetedPoll.PollsConserve` | src/conn.rs:730-775 | over any polls and arrivals nothing wanted is lost, repeated or reordered |
| `BudgetedPoll.ArrivesOnTime` | src/conn.rs:730-775 | a wanted item behind n unwanted ones comes out of poll n / budget, whatever arrives in the meantime |
| `Connections.Connection.SubmitCommand` | src/conn.rs:251-273 | queues the command under the next id and advances the wrapping counter |
| `Connections.Connection.BufferPending` | src/conn.rs:290-305 | hands over commands until the sink is not ready or one fails, which is taken and lost |
| `Connections.Connection.StartSendNext` | src/conn.rs:280-317 | finishes an owed flush first, then hands over, then flushes the batch, with every error exit; what that does is fixed by WritePath.SendAnswers |
| `Connections.Connection.PollNext` | src/conn.rs:714-777 | one poll writes; then, by the first of at most 16 items that is not skipped: it returns a message if and only if that decodes to it, a transport error if and only if that is one, and unwinds if and only if that panics; it returns the end if and only if that is a close or the items ran out and the stream has ended; it wakes itself if and only if 16 were skipped; what it leaves is what comes behind |
| `Connections.Connection.IntoAsync` | src/conn.rs:398-429 | moves the first 2048 pending commands into the channel and hands on the counter |
| `Connections.ReadsConserve` | src/conn.rs:714-777 | what the polls have read followed by what is still wanted of the rest is what is wanted of everything that arrived; a poll whose write part fails reads nothing and loses nothing |
| `Connections.PolledReaderAgrees` | src/conn.rs:714-777 | over every interleaving of submissions, polls and arrivals, failing writes included, the polled reader reads a prefix of the serial output; it panics only if the items meet a panic, having read all that comes before; if it meets the end or an error, or has only skipped items left, no item met a panic and it has read the whole serial output |
| `Connections.ReturnedIsSerial` | src/conn.rs:714-777 | what a caller is returned over any run is a prefix of the serial output for what has arrived, and all of it once the end or a transport error has been returned; a poll unwinds only if the items meet a panic |
| `Connections.MessageArrivesOnTime` | src/conn.rs:721-732 | a message behind n skipped items comes out of poll n / 16, counted from zero |
| `WritePath.EveryRunIsAccounted` | src/conn.rs:251-317 | whatever the sink does, every submitted command is handed over, lost or pending, each once and in order |
| `WritePath.LostNothingIff` | src/conn.rs:290-305 | a command is lost exactly by a poll whose sink is ready for it and fails on it |
| `WritePath.NothingIsLostIff` | src/conn.rs:290-305 | handed over plus pending is exactly what was submitted if and only if no poll was made in a state and turn in which the next command fails to serialise or send |
| `WritePath.IdsCountUp` | src/conn.rs:251-255 | ids count up from zero and wrap at 64 bits |
| `WritePath.CommandsAreAsSubmitted` | src/conn.rs:251-273 | every command carries the method, session and parameters of its own submission |
| `WritePath.IdsAreDistinctIff` | src/conn.rs:251-255 | all ids are distinct if and only if at most 2^64 commands were submitted |
| `WritePath.SendKeepsTidyIff` | src/conn.rs:280-317 | a poll keeps "a flush is owed exactly when something is buffered" if and only if it does not fail after handing something over |
| `WritePath.OwedFlushComesFirst` | src/conn.rs:280-288 | an owed flush that does not complete is all a poll does; its failure is the error |
| `WritePath.SendAnswers` | src/conn.rs:280-317 | any other poll, by the number of commands the sink accepts: it writes out what was owed, hands those over, loses one more if that fails and returns that error, and otherwise flushes the batch in the same poll; a flush is owed afterwards exactly if that flush is pending |
| `WritePath.AllIsWritten` | src/conn.rs:280-317 | a sink that takes and flushes everything gets everything in one poll, behind what it had |
| `WritePath.EverythingIsWritten` | src/conn.rs:251-317 | after any run and such a poll, what has been written out is everything submitted and not lost, in order |
| `WritePath.BufferedOwesFlush` | src/conn.rs:280-317 | in runs without such a failure buffered data always owes a flush |
| `WritePath.AlwaysTidyIff` | src/conn.rs:280-317 | over a run, a flush is owed at every moment exactly when something is buffered if and only if no poll fails after handing something over |
| `WritePath.FailureStrandsBuffered` | src/conn.rs:299-303 | when the last pending command fails after others were handed over, those stay unflushed through any number of further polls |
| `WritePath.StrandedRun` | src/conn.rs:290-305 | two commands and one poll that fails on the second: the first stays buffered through any number of further polls, the second is lost |
| `WritePath.SplitLosesNothingIff` | src/conn.rs:398-429 | splitting after any run loses nothing if and only if no poll failed on a command and at most 2048 commands are pending; numbering continues |
| `UrlParser.ParsePrinted` | src/handler/network_utils.rs:14-64 | parsing a URL printed from well-formed components (section 3.2 of RFC 3986) returns its host and what follows the authority |
| `UrlParser.PrintParsed` | src/handler/network_utils.rs:14-64 | whatever the parser accepts is the print of well-formed components with that host and rest |
| `UrlParser.ParserInvertsPrinter` | src/handler/network_utils.rs:14-64 | for every string, the parser returns (host, rest) if and only if some well-formed URL with that host and rest prints as the string |
| `UrlParser.ProtocolRelativeIff` | src/handler/network_utils.rs:18-32 | a protocol-relative URL is read as meant if and only if its first colon does not open a "://" |
| `UrlParser.NestedUrlIsMisread` | src/handler/network_utils.rs:18-32 | the protocol-relative URL "//a/x://b" of host "a" is read as host "b" with nothing behind it |
| `UrlParser.ParseFromAcceptsIff` | src/handler/network_utils.rs:34-64 | from a given start the parser accepts if and only if the text there has a non-empty authority with a non-empty host part that is closed if it opens with a bracket and does not start with a colon otherwise |
| `UrlParser.HostAndRestByFind` | benches/simd_comparison.rs:17-59 | the find-based form, with its three searches and minimum, computes the same split from its own start |
| `UrlParser.FindRestStart` | benches/simd_comparison.rs:28-38 | the minimum of the three searches is the end of the authority |
| `UrlParser.StartsAgreeIff` | benches/simd_comparison.rs:20-26 | the two forms start the authority at the same place if and only if "://" is absent or the first colon opens it |
| `UrlParser.FormsAgreeIff` | benches/simd_comparison.rs:195-241 | the two forms return the same if and only if there is no "://", or the first colon opens it, or no host stands behind the first "://" nor behind a leading "//" |
| `UrlParser.FormsDiffer` | benches/simd_comparison.rs:20-26 | the forms differ on "x:y://h/": one rejects it, the other reads host "h" |
| `Hosts.HostContainsLabelIcase` | src/handler/network_utils.rs:98-132 | true if and only if some maximal dot-free run of the host equals the trimmed label ignoring ASCII case |
| `Hosts.HostContainsLabelByScan` | benches/simd_comparison.rs:62-94 | the character-by-character form meets the same specification |
| `Hosts.FirstLabelIsLabel` | src/handler/network_utils.rs:89-95 | the first label is the label at the front of the host, empty only where there is none |
| `Hosts.SubdomainIff` | src/handler/network_utils.rs:137-155 | subdomain means: equal to the non-empty trimmed base, or ending in it behind a dot, ignoring ASCII case |
| `Hosts.SubdomainIsTransitive` | src/handler/network_utils.rs:137-155 | a subdomain of a subdomain is a subdomain |
| `Hosts.BaseDomainFromHost` | src/handler/network_utils.rs:268-318 | the in-place computation equals the specification function |
| `Hosts.BaseDomainIsSuffix` | src/handler/network_utils.rs:268-318 | the base domain is a suffix of the host at a label boundary that ends in no dot, non-empty if and only if the host has a character other than a dot |
| `HostLabels.BaseDomainByLabels` | src/handler/network_utils.rs:260-318 | split at the dots, the base domain is the last labels of the host, in a number that depends only on the labels |
| `HostLabels.LabelsAreInjective` | src/handler/network_utils.rs:260-318 | a host is determined by its labels, so the label specification fixes the result |
| `HostLabels.ThreeLabelsKeptIff` | src/handler/network_utils.rs:291-316 | of three labels all are kept if and only if the first is neither empty nor common nor "www" nor "m", whatever the second is; otherwise the first goes, and "www.m." goes whole |
| `Hosts.TwoLabelsKeptIff` | src/handler/network_utils.rs:269-275 | a host of two labels is its own base domain unless the first is "www" or "m", which leaves the bare last label |
| `Hosts.SubdomainOfBaseIff` | src/handler/network_utils.rs:137-155 | a host is a subdomain of itself, and of its base domain, if and only if it has a character other than a dot |
| `Hosts.OwnUrlBecomesPath` | src/handler/network_utils.rs:188-211 | on a page of its own host, any well-formed URL that does not start with a slash and whose host is not all dots becomes its path or "/" |
| `Hosts.OwnHostBecomesPath` | src/handler/network_utils.rs:188-211 | a URL that does not start with a slash, on the host of the page or a subdomain of it, becomes its path or "/" |
| `Hosts.RelOfPrinted` | src/handler/network_utils.rs:188-211 | a URL given by its components becomes its path or "/" if its host is under the base domain or has its first label as a label, and is left alone otherwise |
| `Hosts.RelIsIdempotent` | src/handler/network_utils.rs:188-211 | the result is the URL itself or starts with a slash, and mapping it again changes nothing |
| `ScopeWalk.CollectScopesIterative` | src/page.rs:93-126 | the stack walk returns the deduplication of the recursive preorder: node, children, content document, shadow roots; it terminates by the total size of the trees on the stack |
| `ScopeWalk.DedupKeepsFirsts` | src/page.rs:97-106 | deduplication keeps every id once, in the order of first occurrences |
| `ScopeWalk.InScopeIff` | src/page.rs:93-126 | the scopes are exactly the ids of the nodes of the tree |
| `ScopeWalk.ScopeOrder` | src/page.rs:103-123 | a node comes before its children, these before its content document, and that before its shadow roots |
| `ScopeWalk.PopAndPush` | src/page.rs:103-123 | popping a node and pushing what it leads to leaves the rest of the preorder on the stack, and less of it |
| `Listeners.FlushListener` | src/listeners.rs:223-228 | a flush sends the whole queue, and fails exactly when there is something to send and the receiver is dropped |
| `Listeners.EventListeners.AddListener` | src/listeners.rs:38-57 | appends a listener with the next id and an empty queue |
| `Listeners.EventListeners.RemoveListener` | src/listeners.rs:60-77 | removes the listener and an emptied list, and tells whether anything was removed |
| `Listeners.EventListeners.RemoveAllForMethod` | src/listeners.rs:80-82 | removes the list and returns its length |
| `Listeners.EventListeners.StartSend` | src/listeners.rs:85-92 | queues the event for every subscriber of the method |
| `Listeners.EventListeners.TrySendCustom` | src/listeners.rs:95-122 | queues the event converted by the first custom subscriber for all custom ones, or fails and queues nothing |
| `Listeners.EventListeners.Flush` | src/listeners.rs:128-167 | flushes every listener, drops those whose flush fails and then the emptied lists |
| `ListenerModel.EveryListenerHasAHistory` | src/listeners.rs:38-167 | after any run, what went into the channel of a registered listener followed by its queue is exactly what was dispatched to its method and kind since it was registered, in order; no list is empty |
| `ListenerModel.StepIsStepped` | src/listeners.rs:38-167 | one operation, for every method: each listener is ended, or stays in its place and takes what is dispatched to it, or has its queue sent; a new one comes last |
| `ListenerModel.RegistryIsItsHistory` | src/listeners.rs:38-167 | after any run, under each method stand, in the order they were registered, exactly the listeners that no removal and no flush with something to send to a dropped receiver has ended since, each with its id, the events since the last flush in its queue and those before in its channel |
| `ListenerModel.IsRegisteredIff` | src/listeners.rs:38-167 | a listener is registered if and only if some operation registered it and none since has ended it |
| `ListenerModel.ConvertIff` | src/listeners.rs:95-122 | the first custom listener of the method, if there is one, decides: its type converts the value for all, or nobody is sent anything |
| `ListenerModel.FlushEmptiesQueues` | src/listeners.rs:128-167 | a flush leaves every queue empty and drops exactly the listeners with events for a dropped receiver |
| `Listeners.EventStream.PollNext` | src/listeners.rs:271-291 | one poll yields the first event of the right type among at most 32, and wakes itself exactly when it gives up |
| `Listeners.StreamYieldsItsType` | src/listeners.rs:271-291 | however events arrive, the stream yields exactly those of its type, in order |
| `Listeners.EventArrivesOnTime` | src/listeners.rs:259-291 | an event behind n of the wrong type comes out of poll n / 32, counted from zero |
| `Listeners.StreamSeesDispatched` | src/listeners.rs:85-167 | what a stream can take from the channel of a listener and what its queue still holds for it are the events of its type dispatched since registration |
| `Futures.MessageFuture.Poll` | src/handler/commandfuture.rs:68-118 | one poll of the send-then-wait protocol: offer, park, deliver, and the deadline before the reply |
| `Futures.MessageFuture.ResetDeadline` | src/handler/target_message_future.rs:120-124 | the deadline becomes now plus the timeout |
| `Futures.HttpFuture.Poll` | src/handler/httpfuture.rs:43-64 | polls the command until it resolves, then restarts the deadline of the wait and polls it at once |
| `FutureModel.MessageRuns` | src/handler/target_message_future.rs:145-188 | for every poll schedule and channel behaviour the message enters the channel at most once, a success is an answer given before the deadline to a delivered message, and a run with a poll at or after the deadline has resolved |
| `FutureModel.PollKeepsOnce` | src/handler/commandfuture.rs:68-118 | one poll keeps the message in one place, never succeeds at or after the deadline, and always resolves then |
| `FutureModel.PollAnswers` | src/handler/commandfuture.rs:68-118 | the answer of a poll in every case: a closed channel, then a passed deadline, fail it; before the deadline it is pending if and only if the message waits for capacity or there is no reply; otherwise the reply decides; the message is in the channel from the poll on that finds room |
| `FutureModel.AnswerIsTaken` | src/handler/commandfuture.rs:68-118 | a message that finds room at some poll, at once or after any time of a full channel, and is first answered at a later poll before the deadline, resolves with that answer |
| `FutureModel.TimesOut` | src/handler/commandfuture.rs:93-106 | the first poll at or after the deadline ends the future with a timeout, unless it finds the channel closed |
| `FutureModel.FirstReplyIsTaken` | src/handler/commandfuture.rs:103-116 | once the message is delivered the first reply before the deadline decides |
| `FutureModel.HttpRuns` | src/handler/httpfuture.rs:43-64 | for every schedule, with a clock that advances inside a poll: the wait message enters the channel at most once and only after the command was delivered and succeeded in time; the future has resolved by the command deadline plus the timeout of the wait plus the longest time a poll takes from seeing the success to restarting the wait |
| `FutureModel.HttpIsCommandThenWait` | src/handler/httpfuture.rs:43-64 | the future is the command and then the wait: a failed command is the answer and leaves the wait untouched; after a success the answer is that of the wait, run with its full timeout from its restart, over the polls from that very one on |
| `FutureModel.ResolvesAfterSuccess` | src/handler/httpfuture.rs:54-60 | once the wait has been restarted the future has resolved by that moment plus the timeout, and never with success from then on |
| `FutureModel.PolledAgainAfterFailure` | src/handler/httpfuture.rs:48-63 | a poll after a failed command goes on to the wait: its message enters the channel exactly if the channel takes it |

## Left out

- Transport, JSON, base64, TLS, process launch, environment variables and logging: decoding, readiness, replies and page
  answers are parameters.
- `Futures.MessageFuture.Poll`: `CommandFuture` and `TargetMessageFuture` run the same protocol and differ only in how a
  reply is converted to a result, which is part of the reply here; both are this class.
- `WebSocketReader.WsReadLoop`: the tasks of the runtime are turns of an arbitrary schedule; a decode that panics on the
  blocking pool comes back as a failed one, as in the source; how long a send waits for capacity is not modelled.
- `Connections.Connection.StartSendNext`: the socket is a buffer that writes out only when flushed; a socket that writes
  out by itself while it is asked whether it is ready is not modelled.
- The background writer task behind `into_async`: a drain-and-flush loop without state of its own.
- `ContentStream.ReadChunks`: the accumulator is a byte sequence; the spill of large documents to a temporary file and
  the initial capacity are not modelled.
- The number of active pages that sets the streaming threshold, and the byte cap from the environment, are parameters.
- `Utf16Len.Utf16LenOfUtf8`: the word step and the byte step of the tail are methods of their own.
- `FrameManagers.FrameManager.RemoveFramesRecursively`: the loop over the children, which the source has in three
  places, is the one method `RemoveChildren`; children are visited in arbitrary order, as in a hash set.
- `FrameManagers.FrameManager.NavigateFrame`: of the parameters of the navigation command only the frame id is kept.
- Isolated worlds: the set of ensured world names, the commands that create them and the random world names, which are
  a parameter.
- Watchers for network idle and other lifecycle sets: the source builds only load watchers here.
- `Hosts.FirstLabelIsLabel`: the old form differs only in the search routine, which is the same function here.
- `Listeners.EventListeners.Flush`: `poll` and `flush` have the same body and are this method; the global id counter is
  a field that wraps at 64 bits.
- Strings stand for their UTF-8 bytes; case folding is ASCII only, as in the source.
- DNS, caching, mouse movement, layout, browser configuration and the rest of `src/page.rs`: builders, floating point
  or thin command wrappers that would add only easy members.
