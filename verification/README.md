# Dynamo P/D and KVBM demo: verified model

The repository runs prefill/decode-disaggregated inference with a remote KV cache.  This Dafny
project models the parts of it that carry state, and proves what they promise over every run.

- `Handshake`, `HandshakeRuns`, `HandshakeFates`, `HandshakeWorker`: the start-up handshake of the KVBM worker, as a
  transition system with one step per await, lock or atomic operation and any number of messages
  in flight, and as an object whose fields are the shared cells.
- `Geometry`, `GeometryLayout`: tensor loading, configuration checks, inference of the KV-block
  geometry, and where the inferred dimensions put each element.
- `BlobDownload`, `BlobRuns`: the resumable image download.
- `TokenSearch`, `WarmGate`: the KV test's prompt search, transfer plan and acceptance gate.
- `Streams`, `StreamLaws`: its two stream clients, and what the lines of a stream mean to them.
- `DiskAllocation`, `DiskLifecycle`: the zero-filled cache file, and its register/unlink/drop life.
- `RoceWindow`: the activity window of sampled RoCE counters.
- `MetricsShutdown`: shutdown driven by a reference count.
- `NfsLifecycle`: NFS setup and rollback.

Where the source changes state step by step the model is a class or a method with a loop, proved
against a specification function; the theorems are about that function, over all inputs, schedules
and results of system calls.  A run is a sequence of events folded by a total function, so the
theorems about runs exclude no schedule.

Parameters stand for what is outside: SHA-256, JSON decoding, white space and the token count are
arbitrary functions; containerd, the ingest directory, each network transfer, each write, every
other system call and the allocation of the worker have arbitrary results.  Clock readings are
parameters, one per stream line, so readings taken while one line is handled agree.  Integers are
unbounded and measurements are reals; the one word-size limit the code relies on, that a cache
file's size fits a signed 64-bit offset, is a precondition of the zero-fill.

Some properties one would expect are false of the code.  For each there is a witness or a law for
the failing family, and the exact condition under which the property holds:

- blobs outgrown by what the registry serves (`BlobRuns.LongerServedBlobNeverReturns`,
  `BlobRuns.FinishesIffNotOversized`), and a manifest copy that was cut short
  (`BlobRuns.CutManifestIsRepairedBySameDigest`);
- tensors paged finer than configured, and MLA tensors with pages of one or two tokens
  (`Geometry.MismatchLaw`, `Geometry.MlaPageReadAsKv`), and the outer-contiguous MLA branch
  (`Geometry.OuterContiguousMlaCoversOneSlice`);
- a template that alone exceeds the target (`TokenSearch.PrepareTokens`);
- cache files left by a failed allocation (`DiskLifecycle.FailedAllocationLeavesFile`);
- counters that fall inside the window (`RoceWindow.ReportedBytes`);
- overlapping last drops, and notifications before the server waits
  (`MetricsShutdown.ToldIffWaitingAtLoneLastDrop`);
- setups stopped inside the state file or after starting the service
  (`NfsLifecycle.RollbackRestores`) or inside a managed file
  (`NfsLifecycle.CutFileBlocksBothScripts`), rollbacks stopped before the export table is updated
  (`NfsLifecycle.AfterInterruptedRollbacks`), and export files that setup accepts and rollback
  refuses (`NfsLifecycle.AcceptedExportMayResistRollback`).

Where comments and code differ the model follows the code: the transfer dispatcher is said to wait
until the handler exists (runtime-kvbm-distributed-worker.rs:381) but returns an error, and the MLA
fallback is said to use all dimensions after the block axis (lines 560-561) but with the outer axis
first it starts at the third axis and takes one outer component, leaving the first axis out.

## Model

| member | source | states |
|---|---|---|
| `Handshake.ApplyKeepsInv` | pd-disaggregation/phase2/backup/runtime-kvbm-distributed-worker.rs:250-396 | Every step of every handler keeps the invariant: at most one task has won the compare-exchange, all cells and the observable history are determined by how far that task has got, and every ACKed or dispatched message is consistent with them. |
| `HandshakeRuns.ReadyMeansPublished` | pd-disaggregation/phase2/backup/runtime-kvbm-distributed-worker.rs:308-378 | In every run, ready implies that the cell holds the handler the creator was sent; a ping is ACKed only when ready; readiness is reported at most once and only after an ACK. |
| `HandshakeRuns.SingleFlight` | pd-disaggregation/phase2/backup/runtime-kvbm-distributed-worker.rs:276-335 | Over every run at most one allocation starts, the cell is written at most once, only an installed handler is ever sent, and the "already consumed" branch is unreachable. |
| `HandshakeRuns.TransfersAgree` | pd-disaggregation/phase2/backup/runtime-kvbm-distributed-worker.rs:381-395 | Any two dispatched transfers of a run reached the same handler, the one installed and (if any) sent to the creator. |
| `HandshakeRuns.NoTransferFailsAfterAck` | pd-disaggregation/phase2/backup/runtime-kvbm-distributed-worker.rs:355-396 | Once any ping has been ACKed, no transfer newly ends in "not ready yet" in any continuation, and a transfer that reads the cell gets the creator's handler. |
| `HandshakeRuns.FailedAllocationIsFinal` | pd-disaggregation/phase2/backup/runtime-kvbm-distributed-worker.rs:337-341 | After a failed allocation no continuation installs or sends a handler, ACKs a ping, reports readiness or starts another allocation. |
| `HandshakeRuns.ChangesAreBounded` | pd-disaggregation/phase2/backup/runtime-kvbm-distributed-worker.rs:250-396 | State-changing steps plus a six-unit measure of the cells is constant along every run, so each run changes shared state at most six times. |
| `HandshakeRuns.MalformedRun` | pd-disaggregation/phase2/backup/runtime-kvbm-distributed-worker.rs:257-274 | Runs whose leader messages are all malformed, with any pings and transfers, leave cells and history as they were. |
| `HandshakeRuns.WellFormedMessageStillWins` | pd-disaggregation/phase2/backup/runtime-kvbm-distributed-worker.rs:257-335 | After any such run the next well-formed leader message starts the allocation with its own metadata, and a successful allocation makes the worker ready with its handler. |
| `HandshakeRuns.StepsLowerWork` | pd-disaggregation/phase2/backup/runtime-kvbm-distributed-worker.rs:250-396 | Every step of an unfinished task lowers the work left, the spawned task included; that steps can be taken is not claimed. |
| `HandshakeRuns.BoundedWork` | pd-disaggregation/phase2/backup/runtime-kvbm-distributed-worker.rs:250-396 | Under every schedule n messages are dealt with in at most 8n steps. |
| `HandshakeRuns.FinishedRuns` | pd-disaggregation/phase2/backup/runtime-kvbm-distributed-worker.rs:250-396 | A run whose tasks have all finished has done nothing if no well-formed leader message arrived; otherwise it made exactly one allocation, and is ready exactly if that succeeded. |
| `HandshakeFates.ReadyWorkerAnswersPings` | pd-disaggregation/phase2/backup/runtime-kvbm-distributed-worker.rs:355-378 | Once ready, the worker answers: in every continuation no ping is newly deferred, and a ping that arrives has finished after three turns, ends ACKed exactly if its ACK succeeds, and adds exactly one to the ACKs of all others. |
| `HandshakeFates.PingIsDecidedAtItsFirstTurn` | pd-disaggregation/phase2/backup/runtime-kvbm-distributed-worker.rs:357-378 | Under every interleaving a ping is deferred for good if its first turn finds the worker not ready, and otherwise the result of its ACK alone decides how it ends. |
| `HandshakeFates.LonePingIsAcked` | pd-disaggregation/phase2/backup/runtime-kvbm-distributed-worker.rs:367-374 | A ping left to itself at a ready worker is ACKed, and the first such one fires the readiness oneshot. |
| `HandshakeFates.HistoryCountsTasks` | pd-disaggregation/phase2/backup/runtime-kvbm-distributed-worker.rs:250-378 | At every moment the ACKs are the pings past their ACK and the allocations the leader messages that spawned one; readiness is reported exactly if some ping ended ACKed, so in finished runs exactly if there was an ACK. |
| `HandshakeFates.TransferTakesOneStep` | pd-disaggregation/phase2/backup/runtime-kvbm-distributed-worker.rs:388-395 | Whenever it comes, a transfer takes one step: dispatched to the installed handler if there is one by then and refused otherwise, changing no cell and no history. |
| `HandshakeFates.LeaderMessageEndsByItsPayload` | pd-disaggregation/phase2/backup/runtime-kvbm-distributed-worker.rs:251-335 | Every finished leader message was refused exactly if malformed; a well-formed one is a duplicate or the one whose own metadata was allocated for, and always a duplicate once allocation has started. |
| `HandshakeWorker.Worker.LeaderStep` | pd-disaggregation/phase2/backup/runtime-kvbm-distributed-worker.rs:251-344 | The leader-metadata handler, changing the cells in place, takes the step of the transition system and keeps its invariant. |
| `HandshakeWorker.Worker.AllocationStep` | pd-disaggregation/phase2/backup/runtime-kvbm-distributed-worker.rs:308-342 | Likewise the spawned allocation task: install, send, mark ready, in this order. |
| `HandshakeWorker.Worker.PingStep` | pd-disaggregation/phase2/backup/runtime-kvbm-distributed-worker.rs:357-378 | Likewise the gated ping handler: it takes the step whose runs `HandshakeFates` describes. |
| `HandshakeWorker.Worker.TransferStep` | pd-disaggregation/phase2/backup/runtime-kvbm-distributed-worker.rs:388-395 | Likewise the transfer dispatcher. |
| `HandshakeWorker.Worker.Serve` | pd-disaggregation/phase2/backup/runtime-kvbm-distributed-worker.rs:787-861 | The worker object under a whole schedule ends in the state the transition system reaches. |
| `Geometry.LoadAndValidateTensors` | pd-disaggregation/phase2/backup/runtime-kvbm-distributed-worker.rs:54-92 | Loading succeeds exactly if there are tensors, all of one shape, and every storage can be built, and then returns all of them in order; otherwise it names the first tensor that fails and why. No tensors at all is the panic of the unwrap. |
| `Geometry.ValidConfigurations` | pd-disaggregation/phase2/backup/runtime-kvbm-distributed-worker.rs:398-497 | A configuration is valid exactly if the page size is one of the eleven powers of two from 1 to 1024 (so inference never divides by zero) and the explicit dimensions are both absent, or an outer one of 1 or 2 with a positive inner one. |
| `Geometry.InferenceSucceeds` | pd-disaggregation/phase2/backup/runtime-kvbm-distributed-worker.rs:510-526 | Inference succeeds exactly for a valid configuration with at least one block and at least three axes, and says which of the last two is missing. |
| `Geometry.ExplicitDimensions` | pd-disaggregation/phase2/backup/runtime-kvbm-distributed-worker.rs:530-556 | Explicit dimensions are announced as given, whatever the tensors; giving the inferred ones changes nothing, and the bytes per block depend on their product only. |
| `Geometry.GeometryConservation` | pd-disaggregation/phase2/backup/runtime-kvbm-distributed-worker.rs:528-594 | In every inferred branch but one, block count times bytes per block is the bytes of all layer tensors minus a loss of less than a page per block, and there is no loss exactly when the page size divides the trailing elements (or there are no bytes). |
| `GeometryLayout.AddressLaw` | pd-disaggregation/phase2/backup/runtime-kvbm-distributed-worker.rs:528-606 | In every inferred layout, when the page divides, the offset computed from the announced layers, outer dimension, page and inner dimension is the row-major position of that element in the tensor, for every block, layer, outer component and remaining index in range. |
| `GeometryLayout.EveryElementIsAddressed` | pd-disaggregation/phase2/backup/runtime-kvbm-distributed-worker.rs:528-606 | Conversely, in the conserving layouts, every element of every layer tensor has a place in the announced ranges and is addressed there. |
| `GeometryLayout.BlocksAreBytesPerBlockApart` | pd-disaggregation/phase2/backup/runtime-kvbm-distributed-worker.rs:593-606 | In the fully contiguous layout every element of a block lies within the bytes announced for it. |
| `Geometry.OuterContiguousMlaCoversOneSlice` | pd-disaggregation/phase2/backup/runtime-kvbm-distributed-worker.rs:563-576 | The remaining branch covers at most 1/shape[0] of the bytes, exactly that when the page size divides, and for every page size it conserves only empty tensors. |
| `Geometry.BytesPerBlockIgnoresPageSize` | pd-disaggregation/phase2/backup/runtime-kvbm-distributed-worker.rs:562-594 | Any two page sizes that divide give the same bytes per block, so a wrong one goes unnoticed. |
| `Geometry.MismatchLaw` | pd-disaggregation/phase2/backup/runtime-kvbm-distributed-worker.rs:528-594 | In every inferred layout, for tensors physically paged k times finer than configured, k announced blocks never exceed one logical block; M unexpanded ids carry M logical blocks exactly if k = 1 or there is nothing to carry; and kM ids carry all when the page size still divides. |
| `Geometry.MlaPageReadAsKv` | pd-disaggregation/phase2/backup/runtime-kvbm-distributed-worker.rs:563-576 | For MLA tensors with a configured page above two, a physical page of one or two tokens is read as a K/V axis; any larger one is not. |
| `Geometry.HalfKvIncident` | README.md:40 | The archived run: page 128 over physical pages of 64 announces 5 MiB instead of 10 MiB blocks with inner dimension 512, hence 1560 of 3120 MiB for 312 blocks. |
| `BlobDownload.BlobStore.TransferUntilVerified` | pd-disaggregation/scripts/resumable-nvcr-pull.sh:147-178 | The retry loop on the files themselves computes what the retry function says: check at full size, reset on mismatch, transfer, repeat; the final file changes only on a verified partial. |
| `BlobDownload.BlobStore.DownloadBlob` | pd-disaggregation/scripts/resumable-nvcr-pull.sh:104-179 | The whole download of a blob, with its three sources, changes the three kinds of files as the specification function says. |
| `BlobDownload.BlobStore.DownloadBlobs` | pd-disaggregation/scripts/resumable-nvcr-pull.sh:181-183 | The loop over config and layers does so for all blobs, stopping where one does not return. |
| `BlobRuns.ReturnsOnlyVerified` | pd-disaggregation/scripts/resumable-nvcr-pull.sh:104-179 | Whatever containerd, the ingest directory and the network do, a download returns exactly when the final file has the expected size and digest, leaves it alone otherwise, and touches only files of its own digest. |
| `BlobRuns.StoreAnswerIsUsed` | pd-disaggregation/scripts/resumable-nvcr-pull.sh:119-127 | A verified blob in the content store is taken over without a transfer; no copy of the answer is left, and no partial when the loop returns. |
| `BlobRuns.HeadStartIsUsed` | pd-disaggregation/scripts/resumable-nvcr-pull.sh:129-178 | When the partial of an earlier run and the ingest file are beginnings of the blob (or oversized), the download starts from the longer one, or from nothing if that is oversized: as many productive transfers as the rest has bytes make it return, and an unfinished run never leaves less. |
| `BlobRuns.AllVerifiedAtOnce` | pd-disaggregation/scripts/resumable-nvcr-pull.sh:181-183 | When the loop ends, all listed blobs are verified at the same time if and only if no digest is listed with two sizes. No assumption on the checksum. |
| `BlobRuns.EndOfLoopVerifiesAll` | pd-disaggregation/scripts/resumable-nvcr-pull.sh:181-183 | With a checksum that never confuses contents of different length there is no condition: a loop that ends has every listed blob verified at the same time, and no digest was listed with two sizes. |
| `BlobRuns.TwoSizesForOneDigest` | pd-disaggregation/scripts/resumable-nvcr-pull.sh:181-183 | Over one digest listed with two sizes the loop can end only on a checksum collision; with one, the first entry is no longer verified. |
| `BlobRuns.LayoutStaysContentAddressed` | pd-disaggregation/scripts/resumable-nvcr-pull.sh:181-183 | From a layout whose files hash to their names the blob loop keeps them so, and keeps every file, also when it stops inside a download. |
| `BlobRuns.ManifestIsInstalledIffItMatches` | pd-disaggregation/scripts/resumable-nvcr-pull.sh:89-102 | The manifest stage stops exactly on an empty manifest or a digest that is not the one named, and otherwise adds the manifest under its own digest and nothing else. |
| `BlobRuns.CutManifestIsRepairedBySameDigest` | pd-disaggregation/scripts/resumable-nvcr-pull.sh:94-102 | A manifest copy cut short leaves a file that does not hash to its name; the next manifest stage repairs the layout exactly if it installs under the same digest. |
| `BlobRuns.CompletedRunIsFixed` | pd-disaggregation/scripts/resumable-nvcr-pull.sh:113-117 | Running the loop over verified blobs again changes nothing, whatever the environment. |
| `BlobRuns.ImportedLayoutIsChecked` | pd-disaggregation/scripts/resumable-nvcr-pull.sh:75-183 | Manifest stage and loop over the entries of that manifest together: from a content-addressed layout, what is imported is content-addressed and holds a manifest under the digest the index named; every entry is verified if the checksum separates lengths, and the manifest is the very one fetched if it has no collisions. |
| `BlobRuns.PrefixIsNeverRefetched` | pd-disaggregation/scripts/resumable-nvcr-pull.sh:141-178 | With an honest network a partial that is a prefix of the blob stays one and is never reset; fetched bytes are exactly the missing ones. |
| `BlobRuns.AtMostOneReset` | pd-disaggregation/scripts/resumable-nvcr-pull.sh:150-161 | From any partial that is not oversized there is at most one checksum reset, followed by a clean prefix, and fetching costs at most twice the size. |
| `BlobRuns.ProductiveTransfersFinish` | pd-disaggregation/scripts/resumable-nvcr-pull.sh:147-178 | As many productive transfers as there are bytes left, plus the size if the partial is corrupt, end the loop, however many failing transfers come between them. |
| `BlobRuns.RestartEqualsOneRun` | pd-disaggregation/scripts/resumable-nvcr-pull.sh:104-179 | Killing the script in the loop and running it again with further transfers leaves the files of one uninterrupted run, provided the partial left is not oversized, the ingest file found then is not longer than it, and the store does not answer with the verified blob. |
| `BlobRuns.OversizedPartialIsStuck` | pd-disaggregation/scripts/resumable-nvcr-pull.sh:141-178 | A partial that outgrows the blob inside the loop is never reset there, so transfers that never shrink the file never end the loop; a restart discards it. |
| `BlobRuns.FinishesIffNotOversized` | pd-disaggregation/scripts/resumable-nvcr-pull.sh:147-178 | With honest transfers that never shrink the file and are productive often enough, the loop ends if and only if the partial it starts from is not longer than the blob. |
| `BlobRuns.HonestDownloadReturns` | pd-disaggregation/scripts/resumable-nvcr-pull.sh:104-179 | Whatever files, store answer and ingest file it meets, a download with an honest network that is productive often enough returns, as it never starts the loop oversized. |
| `BlobRuns.LongerServedBlobNeverReturns` | pd-disaggregation/scripts/resumable-nvcr-pull.sh:141-178 | From empty files, a registry that serves a blob longer than the manifest size makes the partial oversized, so neither this run nor a restart served the same way returns. |
| `TokenSearch.SplitIsExact` | pd-disaggregation/phase2/scripts/compare-prefill-vs-gds.py:118-135 | The four segments are balanced and hold exactly n repetitions, so each further repetition lengthens the context by one unit. |
| `TokenSearch.CheckpointsAreAtTheQuarters` | pd-disaggregation/phase2/scripts/compare-prefill-vs-gds.py:118-135 | Each checkpoint stands after its share of the units, in order, and the context without them is the n repetitions. |
| `TokenSearch.Bracket` | pd-disaggregation/phase2/scripts/compare-prefill-vs-gds.py:158-162 | The doubling stops at the first of 8192, 16384, 32768, 65536 whose count reaches the target, and raises exactly if none does. |
| `TokenSearch.Search` | pd-disaggregation/phase2/scripts/compare-prefill-vs-gds.py:158-172 | For any count function: a positive result fits the target, and the next count does not fit unless this one hits the target exactly. |
| `TokenSearch.StrictCountGivesGlobalMaximum` | pd-disaggregation/phase2/scripts/compare-prefill-vs-gds.py:158-169 | For a strictly increasing count the bracket never raises (targets up to 65536) and the positive repeat counts that fit are exactly those up to the result. |
| `TokenSearch.FreeBlockIffWithinTarget` | pd-disaggregation/phase2/scripts/compare-prefill-vs-gds.py:22-32 | A prompt with its output leaves one KV block of the context free exactly if it fits the target. |
| `TokenSearch.PrepareTokens` | pd-disaggregation/phase2/scripts/compare-prefill-vs-gds.py:158-172 | With the constants of the test the payload is the counted one, and an accepted one leaves a block free exactly if at least one repetition fits or the empty context does; for a strictly increasing count, exactly if the empty context fits, which can be checked before the search. |
| `TokenSearch.OversizedTemplateIsAccepted` | pd-disaggregation/phase2/scripts/compare-prefill-vs-gds.py:169-172 | The excepted case is real: a count above the target without repetitions, for which zero repetitions is the only possible result, is accepted and leaves no block free. |
| `WarmGate.PlanIsConsistent` | pd-disaggregation/phase2/scripts/compare-prefill-vs-gds.py:264-343 | For every prompt length: cached tokens are its whole blocks, the prefill-to-decode path moves one block more unless it ends on a boundary, and operations times bytes per operation are the announced MiB on both paths. |
| `WarmGate.PlanMatchesWorker` | pd-disaggregation/phase2/scripts/compare-prefill-vs-gds.py:274-284 | The plan's bytes per block are what the worker infers for those tensors. |
| `WarmGate.SummarizePerformance` | pd-disaggregation/phase2/scripts/compare-prefill-vs-gds.py:472-635 | The reported TTFT is the upper median of the samples and the best their minimum; the run is valid exactly if the cold and every warm request has status 200, a correct answer, the payload and the predicted prompt tokens, nothing was cached cold and the plan was warm, and the counters are the plan's. |
| `WarmGate.SortIsStable` | pd-disaggregation/phase2/scripts/compare-prefill-vs-gds.py:477 | Samples that are equally fast keep their order, so the reported sample is determined. |
| `WarmGate.UpperMedianIsUnique` | pd-disaggregation/phase2/scripts/compare-prefill-vs-gds.py:475-480 | Two orders of the same samples have the same upper median. |
| `WarmGate.SumAtBound` | pd-disaggregation/phase2/scripts/compare-prefill-vs-gds.py:522-525 | Bounded summands reach the bound in total exactly if each does. |
| `WarmGate.AcceptedIffEveryRequestDidItsPart` | pd-disaggregation/phase2/scripts/compare-prefill-vs-gds.py:602-635 | With counters that are sums over the warm requests, none above the plan, a run is accepted if and only if every request succeeded on an admissible prompt, the cold one offloaded the whole plan with nothing cached, and every warm one found cached, matched and onboarded the whole plan. |
| `WarmGate.AcceptanceCoversEveryRequest` | pd-disaggregation/phase2/scripts/compare-prefill-vs-gds.py:602-635 | For any number of warm requests that each onboard at most the planned blocks, acceptance forces every one to have onboarded exactly those, to leave less than a block to prefill, and to have used the same payload. |
| `WarmGate.CounterAloneIsNotEnough` | pd-disaggregation/phase2/scripts/compare-prefill-vs-gds.py:629-630 | For every prompt length in the target range there is an accepted gate whose total also fits one short and one long request. |
| `Streams.RequestOnce` | pd-disaggregation/phase2/scripts/compare-prefill-vs-gds.py:393-429 | The loop of the outside client computes its fold, about which the following rows and those on `StreamLaws` speak. |
| `Streams.InPodClient` | pd-disaggregation/phase2/scripts/inpod-stream-client.py:36-68 | The loop of the in-pod client computes its fold, likewise. |
| `Streams.HarnessMeetsReference` | pd-disaggregation/phase2/scripts/compare-prefill-vs-gds.py:405-429 | The fold equals decoding the stream up to the end marker and then taking all texts, the first text's time and the last usage, id and finish reason; its first-event time is that of the first data line. |
| `Streams.PodMeetsReference` | pd-disaggregation/phase2/scripts/inpod-stream-client.py:46-68 | The same for the in-pod fold, whose first-event time is that of the first payload. |
| `Streams.ClientsAgree` | pd-disaggregation/phase2/scripts/inpod-stream-client.py:46-68 | On every stream with a nondecreasing clock both clients fail together or agree on everything but the first event, which the outside client never reports later; with an increasing clock they differ there exactly if an empty data line precedes the first payload. |
| `Streams.CorrectAnswerHasTtft` | pd-disaggregation/phase2/scripts/compare-prefill-vs-gds.py:435-462 | A correct nonempty answer forces ordered first event, time to first token and total in both clients, which then pass exactly with status 200. |
| `StreamLaws.StripSplits` | pd-disaggregation/phase2/scripts/compare-prefill-vs-gds.py:410 | Stripping removes white space at both ends, all of it and nothing else. |
| `StreamLaws.PaddingChangesNothing` | pd-disaggregation/phase2/scripts/inpod-stream-client.py:47-52 | White space added around the fields of any data lines changes neither client's result. |
| `StreamLaws.EndMarkerEndsStream` | pd-disaggregation/phase2/scripts/compare-prefill-vs-gds.py:408-412 | An end marker, with any white space around it, ends the stream whatever follows, unless the notion of white space includes its brackets. |
| `StreamLaws.OtherLinesAreIgnored` | pd-disaggregation/phase2/scripts/compare-prefill-vs-gds.py:408-409 | Lines that do not begin with the data tag change nothing, wherever they come. |
| `StreamLaws.DataLineContributes` | pd-disaggregation/phase2/scripts/compare-prefill-vs-gds.py:410-417 | A data line in a stream that has not ended contributes nothing (but possibly the first-event time) if it is white space, exactly one event in its place if it decodes, and otherwise fails both clients. |
| `StreamLaws.ReportIsOfTheEvents` | pd-disaggregation/phase2/scripts/compare-prefill-vs-gds.py:418-450 | Both report the stripped concatenation of the first choices' contents, the last usage, response id and finish reason given, and the time of the first event with content. |
| `StreamLaws.PassesIffAnswered` | pd-disaggregation/phase2/scripts/compare-prefill-vs-gds.py:450-462 | The exit test passes exactly with status 200, the expected answer, and at least one event with content. |
| `DiskAllocation.PlanFacts` | pd-disaggregation/phase2/backup/runtime-kvbm-disk.rs:279-292 | The planned writes are contiguous, page-aligned whole pages of at most 16 MiB, ceil(size / 16 MiB) of them, ending less than a page past the size. |
| `DiskAllocation.ToWriteFacts` | pd-disaggregation/phase2/backup/runtime-kvbm-disk.rs:284-292 | Taking the minimum with the buffer length never changes the rounded length. |
| `DiskAllocation.WriteAllZeros` | pd-disaggregation/phase2/backup/runtime-kvbm-disk.rs:279-356 | Under arbitrary write results the loop issues a prefix of the planned writes, all of them exactly if none fails or is short, and otherwise reports the first one that does. |
| `DiskAllocation.ZeroFill` | pd-disaggregation/phase2/backup/runtime-kvbm-disk.rs:272-374 | Success leaves exactly size zero bytes, needs every planned write, and truncates exactly if the size is not a multiple of the page; a failure never leaves anything but zeros, and names the call that failed. |
| `DiskAllocation.AllocateFile` | pd-disaggregation/phase2/backup/runtime-kvbm-disk.rs:255-390 | All three ways of allocating succeed exactly if their system calls do and then leave exactly size zero bytes; fallocate and dup failures are told apart. |
| `DiskLifecycle.DiskStorage.Unlink` | pd-disaggregation/phase2/backup/runtime-kvbm-disk.rs:454-476 | Sets the flag before the call; only the first call reaches the system. |
| `DiskLifecycle.DiskStorage.NixlRegister` | pd-disaggregation/phase2/backup/runtime-kvbm-storage-nixl.rs:377-393 | Registers then unlinks; returns success exactly if still linked and all three calls succeed. |
| `DiskLifecycle.DiskStorage.Drop` | pd-disaggregation/phase2/backup/runtime-kvbm-disk.rs:483-502 | Releases the handles, then unlinks if that has not been done. |
| `DiskLifecycle.UnlinkedExactlyOnce` | pd-disaggregation/phase2/backup/runtime-kvbm-storage-nixl.rs:160-167 | Over every life and all call results there is exactly one unlink call, every registration attempt precedes it, at most one gets past registration, and the file outlives the object exactly if that call failed. |
| `DiskLifecycle.HandlesAreReleasedOnce` | pd-disaggregation/phase2/backup/runtime-kvbm-disk.rs:483-502 | Over every life the handles are released exactly once, at the drop: after all registrations and before the unlink if that is still due; a table entry follows each successful registration and an unlink the first entry. |
| `DiskLifecycle.NewStorage` | pd-disaggregation/phase2/backup/runtime-kvbm-disk.rs:393-444 | Opening and allocating give a linked object over a file of exactly size zero bytes, or no object; a failed allocation leaves the file. |
| `DiskLifecycle.FailedAllocationLeavesFile` | pd-disaggregation/phase2/backup/runtime-kvbm-disk.rs:393-444 | Even if every unlink succeeds, the file stays on disk exactly when it was opened and one of the system calls its allocation takes failed. |
| `RoceWindow.ActiveWindow` | pd-disaggregation/phase2/scripts/roce-throughput.py:98-145 | The loop finds the one window of active steps, or reports that there is none, and judges it by the telescoped counter and the busy time. |
| `RoceWindow.WindowIsSmallest` | pd-disaggregation/phase2/scripts/roce-throughput.py:122-123 | The window is unique and contained in every range that contains all active steps. |
| `RoceWindow.ReportedBytes` | pd-disaggregation/phase2/scripts/roce-throughput.py:124-127 | The reported bytes are the sum of all step deltas in the window, and the bytes that moved exactly if the counter never falls inside it. |
| `RoceWindow.AcceptedFromNineTenths` | pd-disaggregation/phase2/scripts/roce-throughput.py:125-145 | A window is accepted exactly if the counter is not lower at its end, nine tenths of the expected payload moved, to the byte, and both durations are positive; the report is then the moved bytes, the durations in seconds, all samples and the number of active steps. |
| `RoceWindow.ResetIsNotNoticed` | pd-disaggregation/phase2/scripts/roce-throughput.py:125-126 | A counter reset to zero inside the window that is accepted, with two thirds of the moved bytes reported. |
| `RoceWindow.WindowHoldsTheTraffic` | pd-disaggregation/phase2/scripts/roce-throughput.py:108-127 | For a counter that never falls the window holds at least 64 KiB per active step, and every excluded step misses less than 64 KiB. |
| `RoceWindow.BusyRateIsNeverLower` | pd-disaggregation/phase2/scripts/roce-throughput.py:133-174 | With an increasing clock busy time is positive and at most the span, equal exactly if every step is active, and the sampled-busy rate is never below the span rate, higher exactly if bytes moved and some step was quiet. |
| `MetricsShutdown.ApplyKeepsCount` | pd-disaggregation/phase2/backup/runtime-kvbm-metrics.rs:177-206 | The reference count is always the instances still alive plus the server's. |
| `MetricsShutdown.OnlyTheLastNotifies` | pd-disaggregation/phase2/backup/runtime-kvbm-metrics.rs:256-266 | While the server holds its reference, no interleaving notifies twice or while another instance is alive, and a count reading notifies exactly if every other instance is gone. |
| `MetricsShutdown.NotifiedIffLastDropIsAlone` | pd-disaggregation/phase2/backup/runtime-kvbm-metrics.rs:256-266 | When all instances are gone the server was notified if and only if the last drop was not overlapped by another. |
| `MetricsShutdown.ToldIffWaitingAtLoneLastDrop` | pd-disaggregation/phase2/backup/runtime-kvbm-metrics.rs:197-266 | Over all interleavings in which the server has not exited: when all instances are gone it has been told if and only if the last drop was not overlapped and it was waiting at that count reading, and nothing later changes that. |
| `MetricsShutdown.OverlappingDropsAreSilent` | pd-disaggregation/phase2/backup/runtime-kvbm-metrics.rs:256-266 | Two overlapping drops after which no notification has been sent. |
| `MetricsShutdown.NeverWokenWhileInUse` | pd-disaggregation/phase2/backup/runtime-kvbm-metrics.rs:189-206 | Even if the server may exit at any time, it is never woken while an instance is in use. |
| `MetricsShutdown.NotifiesIffTwoReferencesAreLeft` | pd-disaggregation/phase2/backup/runtime-kvbm-metrics.rs:256-266 | With a server that may exit on its own, a count reading notifies exactly if one other reference is left: the server's or, once it has exited, another instance's. |
| `MetricsShutdown.SequentialRunsAreRuns` | pd-disaggregation/phase2/backup/runtime-kvbm-metrics.rs:256-266 | Sequential use is the interleaving in which each drop's two steps are adjacent. |
| `MetricsShutdown.SequentialRunsNotifyOnce` | pd-disaggregation/phase2/backup/runtime-kvbm-metrics.rs:256-266 | In every sequential run of clones and drops the notification happens exactly once, at the drop after which nothing is left. |
| `MetricsShutdown.ServerIsToldIffItWaitedFirst` | pd-disaggregation/phase2/backup/runtime-kvbm-metrics.rs:197-203 | In sequential runs a server that starts waiting only after the last drop is never told; one that waits before it is. |
| `MetricsShutdown.SharedNotify.Drop` | pd-disaggregation/phase2/backup/runtime-kvbm-metrics.rs:256-266 | An uninterrupted drop is the count reading followed by the decrement. |
| `NfsLifecycle.NfsHost.RunSetup` | pd-disaggregation/phase2/nfs/node3-nfs-rdma-setup.sh:29-90 | The setup script, changing the host in place, does what the setup function says wherever it stops, also between creating or truncating a file and writing it. |
| `NfsLifecycle.NfsHost.RunRollback` | pd-disaggregation/phase2/nfs/node3-nfs-rdma-rollback.sh:18-49 | Likewise the rollback script, also between removing the export file and updating the export table. |
| `NfsLifecycle.InstallsOnlyCleanly` | pd-disaggregation/phase2/nfs/node3-nfs-rdma-setup.sh:49-57 | The package gets installed exactly by a setup that needs it, may install it and saw a clean dry run; a needed package without both stops the script with nothing done. |
| `NfsLifecycle.NothingWithoutThePackage` | pd-disaggregation/phase2/nfs/node3-nfs-rdma-setup.sh:35-57 | On a host without package or record no sequence of setups does anything before one may install the package cleanly. |
| `NfsLifecycle.RecordedIsRead` | pd-disaggregation/phase2/nfs/node3-nfs-rdma-setup.sh:84-90 | A state file written to the end is read as recorded; one cut before the last line says not active, and one without any line also that the package was there. |
| `NfsLifecycle.OverrideDecides` | pd-disaggregation/phase2/nfs/node3-nfs-rdma-setup.sh:35-47 | Overrides decide what is recorded, and so what the rollback does to the service. |
| `NfsLifecycle.RecordIsKept` | pd-disaggregation/phase2/nfs/node3-nfs-rdma-setup.sh:29-90 | Later setups never change what the record says, wherever they stop, unless one is stopped inside the rewriting of the state file; from then on the record says the service was not active. |
| `NfsLifecycle.CutFileBlocksBothScripts` | pd-disaggregation/phase2/nfs/node3-nfs-rdma-setup.sh:60-74 | A setup stopped between creating a managed file and writing it makes every later setup and rollback fail; without one, after any setups an undisturbed rollback completes. |
| `NfsLifecycle.RollbackRestores` | pd-disaggregation/phase2/nfs/node3-nfs-rdma-rollback.sh:18-49 | From a host without anything of Phase 2, any setups with at least one completed and one completed rollback remove all files and the export, and restore the active flag of the service exactly if, for an active one, no setup was stopped inside the state file and, for an inactive one, one was or no setup before the first completed one had started it. |
| `NfsLifecycle.CutRecordStopsActiveService` | pd-disaggregation/phase2/nfs/node3-nfs-rdma-setup.sh:86-90 | A service that was active, one completed setup and one stopped after truncating the state file: the rollback reports success and stops the service. |
| `NfsLifecycle.CompletedSetupsAreUndone` | pd-disaggregation/phase2/nfs/node3-nfs-rdma-rollback.sh:18-49 | Any number of completed setups followed by one completed rollback restore files, export and service. |
| `NfsLifecycle.AfterInterruptedRollbacks` | pd-disaggregation/phase2/nfs/node3-nfs-rdma-rollback.sh:27-49 | Rollbacks cut short anywhere do not change the files and the service the next complete one leaves; the path stays exported exactly if it was and one of them stopped between removing the export file and updating the table (or the file was missing from the start), and stays served exactly if the service is not stopped either. |
| `NfsLifecycle.RolledBackPathIsStillServed` | pd-disaggregation/phase2/nfs/node3-nfs-rdma-rollback.sh:38-49 | A host whose service was active, a completed setup, a rollback whose table update fails, a second one that reports success and leaves no record: the path is still served. |
| `NfsLifecycle.SecondRollbackStopsService` | pd-disaggregation/phase2/nfs/node3-nfs-rdma-rollback.sh:18-49 | A second complete rollback stops the service, so it changes nothing exactly if the service was not running. |
| `NfsLifecycle.AcceptedExportMayResistRollback` | pd-disaggregation/phase2/nfs/node3-nfs-rdma-rollback.sh:38-43 | After a complete setup the rollback can complete exactly if the export file was absent or has the exact line, which setup does not check. |

## Left out

- CUDA, NIXL, ZMQ, Tokio, Prometheus and Axum internals, and what `perform_allocation_and_build_handler` does: only its success or failure and the handler it returns.
- Worker cancellation and dropping: a cancelled worker simply takes no further steps.
- HandshakeRuns.StepsLowerWork: says nothing about progress, because a step stands for a lock already granted and an acknowledgement that returns, so contention for a lock and a call that hangs are a task that is not scheduled.
- No conservation law for explicit `outer_dim`/`inner_dim` values: the code uses them as given, whatever the tensors hold. The branch itself is modelled.
- The layout builder's own checks and code, which are not part of this model: `GeometryLayout.Offset` nests the announced dimensions in the axis orders the worker's comments give (runtime-kvbm-distributed-worker.rs:562-565), over the blocks the shape holds. The transfer strategy table and the connector classes: finite tables and delegation to code that is not part of this model.
- A download killed outside its retry loop, and failing `mv`, `cp` or `stat`: the script stops there. Token and manifest retries only delay. The final `tar` import and its completeness check are containerd's.
- Repetitions as text: the tokenizer's dependence on the prompt is an arbitrary count; prefix and suffix of the prompt are fixed strings and not modelled.
- HTTP errors, timeouts, response headers, log files and Markdown; exceptions other than a malformed event end both stream clients alike.
- The full summary with its eviction request: a gate of the same kind over one warm sample and the eviction request.
- DiskAllocation.AllocateFile: assumes the freshly created, empty file the only caller passes, and leaves the choice of O_DIRECT strategy out.
- RoceWindow.ActiveWindow: leaves out the sampling-interval median and the counter's name, which are reported but decide nothing.
- Metrics without an endpoint have no notifier and never notify; the Prometheus counters are not modelled.
- The NFS kernel thread count and RDMA listener, and the service state a package installation leaves: the scripts do not restore them. Each printf to a managed or state file is one step. What starting or stopping the service unit does to the export table is not part of this model. Managed files are modelled by the two comparisons the scripts make of them.
- Nexus tooling, preflight and validation scripts, kernel-module builds, Kubernetes and Cilium manifests: plumbing and data.
