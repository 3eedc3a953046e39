# Verification of the QR encoder, the queues, device ownership and related code

This project models parts of the repository in Dafny and proves properties of the models for all
inputs, all runs or all reachable states. `dafny verify dfyconfig.toml` checks it. Nothing in it runs
the original program.

## What is modelled

- **The QR encoder** (`src/local/qr.ts`), modules `Bits` to `Qr`. Loops over arrays and grids stay loops
  over arrays and grids, each proved against a specification. GF(256) and its log tables, the generator
  polynomial and Reed-Solomon division, the byte-mode bit stream, block interleaving, function
  patterns, zigzag placement, masking, format and version information, the penalty score and the choice
  of the mask. `QrReader` is a reader after sections 7.4 to 7.9 and annex C of ISO/IEC 18004:2015. Its
  function patterns, deinterleaving, error correction and bit stream are its own, and so is its walk: the
  place of each bit in closed form, proved to be the encoder's zigzag. It undoes the mask by the standard's
  pictures of the masks (`QrMasks`), to which the encoder's conditions are proved equal.
  What encoder and reader share is pinned to the standard by itself: the eight format words and nine version
  words as listed (`QrWords`), the places of both format copies (`QrFormat.FormatPlaces`), the alignment
  centres (`QrReader.CentresAreEven`), the blocks (`QrInterleave.BlocksAreEven`), every data codeword
  (`QrSegment`), the function patterns (`QrDrawing.PatternsAreDrawn`) and the four penalty rules in the
  standard's words (`QrScore`).
  The main result, `Qr.EncodeAndRead`, is the round trip for every payload
  the encoder accepts; `Qr.CarriesDecodes` adds that the reader also gets the payload from codewords
  with up to half the check words of each block damaged, and `QrUnique` that payload and mask option
  leave the encoder no choice. `QrDrawing` shows that the drawn patterns are the standard's in every
  finished symbol.
- **The queues of the benchmark** (`bench/lib/workload.ts`, `bench/worker.ts`). `VisionQueue` and
  `EmbeddingProtocol` are state machines whose steps are single store calls, with any number of workers
  and any interleaving, store errors and crashes included. `EmbeddingQueue` has the two conditional
  updates of an enqueue and of a finish, and says exactly when the gap between them shows;
  `EmbeddingSteps` takes each of the four as a step of its own.
- **Device ownership** (`src/local/owner.ts`, `src/local/sync.ts`, `src/local/auth.ts`). `Ownership` has
  the decision, adoption and the hello of two devices, and a fleet of devices in which the two ends of a
  hello, every batch sent, its arrival, signing in and writing are separate steps. `LocalUser` has the
  chain of promises behind `ensureLocalUser` with one step per await.
- **A histogram against exact percentiles** (`Histogram`; `bench/lib/stats.ts`, `src/admin/routes.ts`),
  over any history of recordings, merges and trips through JSON.
- **The project rollup cache** (`Rollup`; `bench/lib/workload.ts`) against recomputation. `RollupStarts`
  says for which links and starts one call repairs every change.
- **Presetting sub-document ids** (`SubdocumentIds`; `src/data/subdocumentIds.ts`), for any schemas,
  including ones that nest themselves. `SubdocumentPlaces` says which values of an update are
  sub-documents, from the update and the schemas alone, and what happens to each document.
- **Import commits** (`CommitGroups`; `src/scripts/migrate-mongo-to-kdb.ts`) against every legal split.
- **Comments** (`Comments`; `src/services/commentService.ts`) as a forest. `CommentCascade` deletes a
  thread step by step while comments are created.
- **Tool calls in a reply** (`ToolRanges`; `src/agent/parseTextToolCall.ts`): the brace scanner and the
  removal of the ranges it finds. `ToolText` has string literals as text, escapes included, and proves that
  the scanner, one character at a time, reads them so.
- **Token payloads** (`Base64`; `shared/src/jwt.ts`) against section 5 of RFC 4648.

## Where the code and what is said about it differ

- `bench/lib/stats.ts:2` promises a relative precision of 1/64. It is 1/32, and that is reached
  (`Histogram.OneIn32IsReached`), because a bucket above 64 microseconds has 32 slots per power of two.
  `Histogram.OneIn64Iff` says for which values 1/64 holds, and `Histogram.QuantileWithinOneIn64Iff` for
  which quantiles. The quantile can also fall below the exact percentile, by at most half a microsecond
  (`Histogram.RoundedDownIsBelow`); `Histogram.QuantileBounds` says exactly when.
- `bench/lib/workload.ts:221` cites the service's `enqueueEntityEmbeddingJob`. The copy sets `attempts`
  only on insert, while the service sets it back to 0 on every enqueue and on every dirty finish
  (`src/services/embeddingQueue.ts:30-73`, `:144`). With the copy's rule an edit can wait for ever: the
  fourth edit of an entity (`EmbeddingProtocol.FourthEditIsStuck`), or one enqueued while the third
  attempt has read an older version (`EmbeddingProtocol.LateEditIsLost`, `EmbeddingProtocol.LateEditHappens`).
  `EmbeddingProtocol.EmbedsLaterIff` says exactly which edits can still be embedded.
- `src/models/index.ts:276-279` says an edit made while the job is processing puts it back afterwards. An
  enqueue that falls between the two updates of a finish leaves the job processing for ever
  (`EmbeddingSteps.GapLosesEdit`). `EmbeddingSteps.GetsStuckIff` says exactly when a job gets stuck, and
  `EmbeddingSteps.EmbedsLaterIff` and `EmbeddingSteps.EmbedsUnaidedIff` which edits are embedded, with and
  without further enqueues.
- The owners are compared once, in the hello (`src/sync/engine.ts:751`); the pushes and pulls after it
  check no owner. Two devices that sign in to different accounts while their session is open can exchange
  documents (`Ownership.OpenSessionMixes`). `Ownership.TransferIff` and `Ownership.NeverMixedIff` say
  exactly when documents of two people meet; `Ownership.HelloProtects` that they do not as long as owners
  change only while a device has no session.
- `src/services/commentService.ts:257` says threads cannot exceed five levels. A reply at level five is
  refused as well, so four levels is the most (`Comments.DepthLimit`).
- `cascadeDeleteComment` (`src/services/commentService.ts:186-192`) means to delete a whole thread. A reply
  written between the search for replies and the deletion of its parent is left as an orphan
  (`CommentCascade.LateReplyIsOrphaned`); `CommentCascade.CascadeIff` says exactly when that happens.
- `recalculateProjects` with several projects can leave a shared ancestor stale
  (`Rollup.SharedParentIsLeftStale`); with one project it cannot. `RollupStarts.RepairsEveryChangeIff`
  says for which links and starts it can.
- A queue of adoptions decided before the lock was taken can give a device two accounts one after the other
  (`Ownership.QueuedAdoptions`); with decision and adoption as one step it cannot.
- Removing the range of a tool call that contains another one also deletes text after both. This happens
  for `{"function": {"name": ...}}`, whose outer and inner object both pass as the same call
  (`ToolRanges.NestedCallLosesText`); `ToolRanges.ExactIffSafe` says exactly for which ranges it happens.
- The in-process counter of double claims can count although no job was held twice. It is right for every
  run without a failing call if and only if no two workers share a process
  (`VisionQueue.CounterRightIff`); a re-enqueue that throws after it took effect makes a single worker count too
  (`VisionQueue.LateFailureMiscounts`). The recorded pairs do not have these faults.

## Assumptions

- In the fleet, `reconcileOwner`'s decision and `adoptOwner` are one step of one device; an enqueue and a
  finish of the embedding queue are one step each in `EmbeddingProtocol`. Each single store call is atomic.
- `adoptLocalAccount` re-owns every document of the previous owner and no other.
- An entity has at most one embedding job and one vision job per feedback (unique keys).
- The ids of subtasks are neither empty nor contain a comma (they are hexadecimal).
- Numbers that the original keeps as floating point are exact rationals or reals here.

## Model

| member | source | states |
|---|---|---|
| `Gf256Order.Tables.constructor` | src/local/qr.ts:55-66 | the log and exponential tables are filled so that `exp[i]` is the i-th power of alpha for all 512 entries and `log` inverts it |
| `Gf256Order.Tables.Multiply` | src/local/qr.ts:68-70 | multiplication through the tables is multiplication of polynomials modulo 0x11d |
| `Gf256.MulAssoc` | src/local/qr.ts:53-70 | that multiplication is associative |
| `Gf256.MulComm` | src/local/qr.ts:53-70 | and commutative |
| `Gf256.MulXorRight` | src/local/qr.ts:53-70 | and distributes over exclusive or |
| `Gf256Order.NoShortPeriod` | src/local/qr.ts:58-64 | alpha has order 255 and no less |
| `Gf256Order.EveryNonZeroIsAPower` | src/local/qr.ts:58-64 | the loop that fills the tables meets every non-zero element |
| `Gf256Order.NoZeroDivisors` | src/local/qr.ts:68-70 | a product is zero only if a factor is |
| `ReedSolomon.Generator` | src/local/qr.ts:72-83 | the loops build the generator polynomial |
| `ReedSolomon.GeneratorRoots` | src/local/qr.ts:72-83 | its roots are exactly alpha^0 to alpha^(degree-1) |
| `ReedSolomon.GeneratorMonic` | src/local/qr.ts:72-83 | it is monic |
| `ReedSolomon.RsRemainder` | src/local/qr.ts:85-94 | for every data and degree, data followed by the remainder is a codeword: zero at all the generator's roots |
| `CodeDistance.UniqueRemainder` | src/local/qr.ts:85-94 | no other check words of that length make the data a codeword |
| `CodeDistance.MinimumDistance` | src/local/qr.ts:85-94 | two different codewords of at most 255 bytes differ in more than `degree` places |
| `CodeDistance.UniqueRepair` | src/local/qr.ts:85-94 | damage in at most half as many places leaves the sent codeword the nearest one |
| `QrVersions.CapacityIs` | src/local/qr.ts:98-101 | the sum over the groups is the standard's number of data codewords for level M |
| `QrVersions.ChooseVersion` | src/local/qr.ts:103-109 | it returns the smallest version the payload fits, and fails exactly above 412 bytes |
| `QrVersions.FitsIff` | src/local/qr.ts:103-109 | a payload fits a version if and only if it has at most the bytes the standard gives for it |
| `QrData.EncodeData` | src/local/qr.ts:111-130 | mode, length, payload, terminator, filler bits and alternating pad words, exactly the version's number of codewords |
| `QrSegment.CodewordsAre` | src/local/qr.ts:111-130 | every data codeword of every payload by its number: 0100, one or two length bytes and the payload half a byte late, four zeros, then 236 and 17 in turn |
| `QrData.ReadBytesInverts` | src/local/qr.ts:111-130 | a byte-mode reader gets the payload back from these codewords |
| `QrInterleave.Weave` | src/local/qr.ts:143-146 | the column by column order can be undone from the block lengths alone, for any blocks |
| `QrInterleave.ColumnByColumn` | src/local/qr.ts:143-146 | that order is by column, and within a column by block |
| `QrInterleave.BlocksAreEven` | src/local/qr.ts:12-30 | the table of blocks is the standard's: as many blocks and check words as listed, sharing the data as evenly as they can, the shorter blocks first |
| `QrInterleave.Interleave` | src/local/qr.ts:132-148 | nothing is lost or doubled: the blocks read back join to the data, each with its check words is a codeword, and the total is the version's |
| `QrBch.Remainder` | src/local/qr.ts:155-165 | the division loop of both BCH codes makes the word a multiple of the generator |
| `QrBch.UniqueWord` | src/local/qr.ts:155-165 | the check bits are determined by the data bits |
| `QrFormat.BchFormat` | src/local/qr.ts:155-159 | the format word carries the data and is a multiple of 0x537 under its mask; for level M it is the word the standard lists for the mask |
| `QrMatrix.BchVersion` | src/local/qr.ts:161-165 | the version word carries the version and is a multiple of 0x1f25; from 7 to 15 it is the word the standard lists |
| `QrWords.FormatWordIs` | src/local/qr.ts:155-159 | data bits and divisibility under the mask 0x5412 leave no words for level M but 5412, 5125, 5e7c, 5b4b, 45f9, 40ce, 4f97 and 4aa0 |
| `QrWords.VersionWordIs` | src/local/qr.ts:161-165 | version and divisibility leave no words for versions 7 to 15 but the nine listed |
| `QrMatrix.BaseMatrix` | src/local/qr.ts:178-240 | the loops draw finders, timing, alignment patterns, dark module and version information in this order, and mark what they draw and the format areas |
| `QrRegions.ReservesFunctionModules` | src/local/qr.ts:178-240 | the marked modules are exactly the function modules of the standard |
| `QrDrawing.BaseShows` | src/local/qr.ts:186-238 | each module of a finder, timing or alignment pattern and of the version information has the colour that pattern asks for; where patterns cross they agree |
| `QrDrawing.PatternsAreDrawn` | src/local/qr.ts:186-238 | that is what the standard draws, module by module: its pictures of finder and alignment pattern in the places of all three finders and of every pair of centres but three, and each version bit in both its places |
| `QrRoom.RoomForCodewords` | src/local/qr.ts:178-261 | the free modules of every version are enough for all its codewords |
| `QrPlacement.PlaceData` | src/local/qr.ts:242-261 | for any odd size from 7 and any reserved modules, the loops put the bits into the free modules in zigzag order, zeros after them, and change nothing else |
| `QrPlacement.VisitsEachFreeModuleOnce` | src/local/qr.ts:242-261 | if column 6 is reserved, the zigzag visits each free module exactly once and no reserved one |
| `QrPlacement.ReadsWhatWasPlaced` | src/local/qr.ts:242-261 | reading in the same order gives the bits, then zeros |
| `QrFormat.ApplyMask` | src/local/qr.ts:263-266 | a new grid that differs in exactly those free modules at which the standard's picture of the mask is dark |
| `QrMasks.MaskIsPictured` | src/local/qr.ts:167-176 | for every mask and every cell: the condition computed holds if and only if the standard's picture, repeated over the symbol, is dark there |
| `QrFormat.Unmasks` | src/local/qr.ts:167-176 | flipping again restores every module |
| `QrFormat.WriteFormat` | src/local/qr.ts:268-282 | both copies of the word the standard lists for level M and the mask, and the dark module |
| `QrFormat.WithFormatAt` | src/local/qr.ts:268-282 | after it both copies hold all 15 bits and no module outside the format areas has changed |
| `QrFormat.FormatPlaces` | src/local/qr.ts:272-281 | bit by bit, both copies stand where the standard draws them |
| `QrFormat.ReadsFormat` | src/local/qr.ts:268-282 | a reader of the first copy gets the word back |
| `QrPenalty.ComputePenalty` | src/local/qr.ts:284-334 | for every square grid, the four loops give the declarative score |
| `QrPenalty.RunsAreMaximal` | src/local/qr.ts:287-301 | the runs scored are a division of each line into maximal uniform runs |
| `QrPenalty.MaximalRunsAreUnique` | src/local/qr.ts:287-301 | there is only one such division |
| `QrPenalty.CountsAll` | src/local/qr.ts:302-330 | each uniform block, finder-like pattern and dark module is counted once, and nothing else |
| `QrScore.PenaltyIs` | src/local/qr.ts:284-334 | the score is the standard's: 3 + i for each maximal run of 5 + i in rows and columns, 3 for each uniform block of two by two, 40 for each 1011101 with 0000 on one side, 10 for each full 5% of imbalance |
| `Qr.EncodeQr` | src/local/qr.ts:344-359 | the symbol of the smallest fitting version with the first mask of least penalty among those tried; an error exactly above 412 bytes |
| `Qr.ReadsPayload` | src/local/qr.ts:344-359 | every symbol that carries a payload reads as that payload, whatever the mask |
| `Qr.CarriesDecodes` | src/local/qr.ts:85-148 | repairable damage to the codewords does not change what is read |
| `QrReader.RepairFinds` | src/local/qr.ts:85-94 | the nearest-codeword decoder finds the block that was sent |
| `QrReader.PathIsZigzag` | src/local/qr.ts:242-261 | the order in which the modules are filled, in closed form: the m-th module from m and the size alone, for every odd size from 7 |
| `QrReader.CentresAreEven` | src/local/qr.ts:32-49 | the table of alignment centres is the standard's: evenly spaced from the last one back |
| `Qr.SymbolShowsPatterns` | src/local/qr.ts:344-359 | placing data, masking and format leave every function pattern of the finished symbol as the standard draws it, with the version word listed for it from version 7 on |
| `Qr.EncodeAndRead` | src/local/qr.ts:344-359 | the round trip: for every payload up to 412 bytes and every mask, the reader gets the mask and the payload from the finished modules |
| `QrUnique.CodewordsDetermined` | src/local/qr.ts:111-148 | a payload has only one sequence of codewords in a version |
| `QrUnique.CandidateDetermined` | src/local/qr.ts:263-282 | codewords and a mask have only one symbol: function patterns, version word, mask and format word are all determined |
| `QrUnique.SymbolDetermined` | src/local/qr.ts:344-359 | version, mask and modules of the encoder's result are determined by the payload and the mask option |
| `VisionQueue.Store.ClaimVisionJob` | bench/lib/workload.ts:646-652 | the pending job touched longest ago becomes processing with one attempt more and the new time; nothing when none is pending |
| `VisionQueue.Store.CompleteAndRequeue` | bench/lib/workload.ts:656-665 | the three calls undisturbed put the job back with its attempts unchanged |
| `VisionQueue.StepInv` | bench/worker.ts:271-300 | every store call of every worker keeps the invariant, in any interleaving |
| `VisionQueue.NoDoubleClaim` | bench/worker.ts:257-285 | no two workers ever hold one job, and no pair of job and attempts is recorded twice |
| `VisionQueue.NeverSkips` | bench/lib/workload.ts:658-659 | the look before the re-enqueue never finds the job processing |
| `VisionQueue.IdleMeansPending` | bench/worker.ts:331-338 | with all workers idle, a job is not pending if and only if a store error lost it |
| `VisionQueue.NothingLeftClaimed` | bench/worker.ts:331-338 | without store errors every job is pending once all workers are idle |
| `VisionQueue.CounterRightIff` | bench/worker.ts:282-286 | for any set of workers: the in-process counter reads zero after every run without a failing call, or without a re-enqueue that throws after its effect, if and only if no two workers share a process |
| `VisionQueue.LateFailureMiscounts` | bench/worker.ts:282-300 | a re-enqueue that throws after it took effect makes even a single worker count a double claim |
| `EmbeddingQueue.Store.EnqueueEmbedding` | bench/lib/workload.ts:222-236 | the two conditional updates together: a new pending job, dirty if processing, else pending, attempts kept |
| `EmbeddingQueue.Store.FinishEmbeddingJob` | bench/lib/workload.ts:610-615 | the two conditional updates together: pending again if dirty, else the final status |
| `EmbeddingQueue.FinishGap` | bench/lib/workload.ts:610-615 | an enqueue between the two updates of a finish acts like one before or after if and only if the job was dirty already; otherwise the job is left processing and dirty |
| `EmbeddingQueue.EnqueueGap` | bench/lib/workload.ts:222-236 | a claim between the two updates of an enqueue acts like one before or after if and only if there was nothing to claim; otherwise the held job is pending again |
| `EmbeddingSteps.EmbedsLaterIff` | bench/lib/workload.ts:222-236 | with all four updates interleaved in any way, in every reachable state with a worker: some run embeds the last enqueued edit of a stale entity if and only if a worker will embed it, or an attempt is left and the job is not stuck |
| `EmbeddingSteps.EmbedsUnaidedIff` | bench/lib/workload.ts:601-615 | without another enqueue or a crash some run embeds it if and only if a worker will, or an attempt is left and an enqueue is in flight, or the job is pending with an idle worker, or it is dirty and pending or held by a worker before its finish |
| `EmbeddingSteps.GetsStuckIff` | bench/lib/workload.ts:610-615 | a step gets a job stuck in processing if and only if it is the first update of an enqueue while every worker on the job is past the first update of its finish, or the crash of the last worker that could free it, and no enqueue is in flight |
| `EmbeddingSteps.StuckStays` | bench/lib/workload.ts:222-236 | nothing frees a stuck job, not even another enqueue |
| `EmbeddingSteps.GapLosesEdit` | bench/lib/workload.ts:610-615 | a run without crashes, with two attempts left, after which no run embeds an enqueued edit |
| `EmbeddingProtocol.StepInv` | bench/lib/workload.ts:601-639 | every step of edits, deletions, enqueues, workers and crashes keeps the invariant |
| `EmbeddingProtocol.NoEditForgotten` | src/models/index.ts:276-279 | while an embedding is older than the last enqueued edit, its job is pending, lost in a crash, dirty, or held by a worker that will embed that edit |
| `EmbeddingProtocol.EmbedsLaterIff` | bench/lib/workload.ts:601-639 | in every reachable state with a worker: some run embeds the last enqueued edit of a stale entity if and only if a worker will embed it or its job was not lost in a crash and has an attempt left; then one without a crash does |
| `EmbeddingProtocol.LostForever` | bench/lib/workload.ts:222-236 | an edit without such a chance is never embedded, whatever happens afterwards |
| `EmbeddingProtocol.LateEditIsLost` | bench/lib/workload.ts:222-236 | an edit enqueued while the third attempt has read an older version is dirty and lost |
| `EmbeddingProtocol.LateEditHappens` | bench/lib/workload.ts:222-236 | a run without errors in which this happens |
| `EmbeddingProtocol.QuietMeansEmbedded` | bench/lib/workload.ts:601-639 | with all workers idle and no crash, every enqueued edit is embedded, or its job is pending and can be embedded if and only if an attempt is left |
| `EmbeddingProtocol.ClaimedAtMostThreeTimes` | bench/lib/workload.ts:601-607 | attempts never exceed three and no two workers hold one job |
| `EmbeddingProtocol.ExhaustedForever` | bench/lib/workload.ts:222-236 | a job whose attempts are used up is never claimed again, whatever is enqueued |
| `EmbeddingProtocol.FourthEditIsStuck` | bench/lib/workload.ts:222-236 | a run without errors after which no run embeds an enqueued edit |
| `Ownership.Device.AdoptOwner` | src/local/sync.ts:396-423 | the device and its documents belong to the new owner; nothing but a missing account changes if it was the owner already |
| `Ownership.Device.ReconcileOwner` | src/local/sync.ts:389-393 | refused if and only if the peer's owner is set, another one, and neither is the local id; adopted if and only if a local device hears of an account |
| `Ownership.Device.SignIn` | src/local/sync.ts:739-770 | succeeds if and only if the device is local or already the account's |
| `Ownership.Hello` | src/local/sync.ts:356-387 | a hello as the server's and then the client's reconciliation |
| `Ownership.HelloAgrees` | src/local/owner.ts:59-64 | it is refused if and only if the devices have two different accounts, and otherwise both end with the same owner |
| `Ownership.EndsMakeHello` | src/local/sync.ts:356-387 | the two ends of a hello, one right after the other, do what the whole hello does, and open the session unless it is refused |
| `Ownership.ArrivalIff` | src/local/sync.ts:363-387 | a batch that arrives leaves every device with documents of its owner only if and only if the sender had that owner when it sent it, or it is empty |
| `Ownership.TransferIff` | src/sync/engine.ts:749-790 | a batch that is sent and arrives at once does if and only if the two owners agree at that moment or there is nothing to transfer |
| `Ownership.NeverMixedIff` | src/local/sync.ts:356-423 | over any run of hellos, sign-ins, writes, batches and arrivals, no device ever holds documents of two people if and only if every arrival was such a one |
| `Ownership.OpenSessionMixes` | src/sync/engine.ts:749-790 | a run in which two devices that said hello once end with documents of two people |
| `Ownership.HelloProtects` | src/local/sync.ts:356-387 | from a fleet without sessions: if owners change only while a device has no session and nothing is on its way to or from it, and answers give the owner the server has after it heard the client's, every arrival is welcome and no device ever holds documents of two people |
| `Ownership.OwnerChangesOnce` | src/local/sync.ts:389-423 | over any run, a device's owner changes at most once, from the local id to an account |
| `Ownership.HelloProgress` | src/local/sync.ts:356-393 | a hello changes an owner if and only if the owners differ, and then leaves one local device fewer |
| `Ownership.AccountReachesAll` | src/local/sync.ts:356-393 | in a connected fleet with one account there are at most as many steps that change an owner as local devices, whatever whole and half hellos, outdated answers, sign-ins to the account, writes, batches and arrivals come in whatever order, and when no link can change anything any more all belong to the account |
| `Ownership.SettledMeansSame` | src/local/sync.ts:356-393 | a connected fleet in which no link can change anything has one owner |
| `Ownership.WorkOff` | src/local/sync.ts:396-423 | adoptions waiting behind the lock are worked off in order, each against the owner it finds |
| `Ownership.QueuedAdoptions` | src/local/sync.ts:389-423 | such a queue changes a local device's owner at most once if and only if all its adoptions are of one account |
| `LocalUser.StepInv` | src/local/auth.ts:61-68 | every await of every call, failing or not, keeps the order of the chain |
| `LocalUser.Serialised` | src/local/auth.ts:61-96 | no two bodies ever overlap and there is never more than one local user |
| `LocalUser.PrepareFindsUser` | src/local/auth.ts:86-95 | a body that goes on to the default project has found or made the one user |
| `LocalUser.OutcomeIs` | src/local/auth.ts:61-96 | a call settles well by its last await alone, and badly exactly when a store call throws in it |
| `LocalUser.NeverStuck` | src/local/auth.ts:61-68 | while a call has not settled, some call can take a step |
| `LocalUser.TwoCallsRun` | src/local/auth.ts:61-96 | a run of two calls made at once: the second waits, finds the user of the first, and both settle well |
| `LocalUser.Users.InstallOwnerUser` | src/local/owner.ts:85-105 | afterwards the owner alone has the local address, every other local user is retired, nobody else changes, and a new owner has the profile of a retired user, else of the previous owner |
| `Histogram.ExponentIs` | bench/lib/stats.ts:94-99 | the exponent of a value from 64 on brackets it between 32 and 64 times its power of two |
| `Histogram.UsIs` | bench/lib/stats.ts:17 | a value is counted as the nearest whole microsecond, halves up, and as one at least |
| `Histogram.KeySplits` | bench/lib/stats.ts:94-106 | the slot is always in 32..63, so a key splits back into exponent and slot |
| `Histogram.BucketMonotone` | bench/lib/stats.ts:94-99 | larger values never fall into smaller buckets |
| `Histogram.EdgeCovers` | bench/lib/stats.ts:94-106 | the edge exceeds a value by at most one part in 32, and not at all below 64 |
| `Histogram.Histogram.Record` | bench/lib/stats.ts:16-24 | one more value in its bucket, and in count, sum, minimum and maximum |
| `Histogram.Histogram.Merge` | bench/lib/stats.ts:39-45 | the sums of both, also when a histogram is merged into itself |
| `Histogram.Histogram.ToJson` | bench/lib/stats.ts:48-50 | reading back what is written gives the same histogram |
| `Histogram.Histogram.From` | bench/lib/stats.ts:52-60 | the histogram the data describes |
| `Histogram.Histogram.Quantile` | bench/lib/stats.ts:27-37 | the edge of the first bucket that reaches the rank, at most the maximum |
| `Histogram.BuildDescribes` | bench/lib/stats.ts:8-60 | after any history of recordings, merges and JSON trips, the totals are those of all values recorded |
| `Histogram.PercentileIs` | src/admin/routes.ts:136-140 | the exact percentile is the least of the values that at least the given share of them does not exceed |
| `Histogram.QuantileIsEdgeOfPercentile` | src/admin/routes.ts:136-140 | after any history, the quantile is the upper edge of the bucket of the exact nearest-rank percentile |
| `Histogram.QuantileBounds` | bench/lib/stats.ts:27-37 | in microseconds it is at most half below the percentile and at most one part in 32 above it as counted; it is not below the percentile if and only if that was not rounded down or counted as 64 or more |
| `Histogram.QuantileOfWholeMicroseconds` | bench/lib/stats.ts:27-37 | for a percentile in whole microseconds it is never below, at most one part in 32 above, and exact below 64 |
| `Histogram.OneIn64Iff` | bench/lib/stats.ts:94-106 | for values from 64 on, the edge is within one part in 64 if and only if the distance to the next slot is at most a 64th of the value |
| `Histogram.QuantileWithinOneIn64Iff` | bench/lib/stats.ts:27-37 | for a percentile counted as 64 microseconds or more, the quantile is within one part in 64 of that count if and only if the edge of its bucket is, or the maximum is |
| `Histogram.OneIn32IsReached` | bench/lib/stats.ts:2-5 | a history whose median of 64 microseconds is reported as 66 |
| `Histogram.RoundedDownIsBelow` | bench/lib/stats.ts:16-37 | a history whose median is reported below the exact one |
| `Rollup.Store.RecalculateProjects` | bench/lib/workload.ts:247-260 | terminates for any parent links, cyclic ones included, and refreshes what the walks from the starts meet |
| `Rollup.Store.RecalculateSingle` | bench/lib/workload.ts:262-278 | without unstaged children: done if and only if overridden, or there are tasks neither staged nor cancelled and all are done; in progress if and only if not done and one of them is not to do; the percentage is the integer nearest to their mean, halves up, and 0 without any. With children: the nearest integer to the mean of the unstaged ones, and the status from it. No other project changes |
| `Rollup.AgreesIff` | bench/lib/workload.ts:262-278 | a cache agrees with recomputation if and only if it holds what those rules ask for |
| `Rollup.OneStartRepairs` | bench/lib/workload.ts:247-260 | for acyclic links, if all caches agreed before the tasks of one project changed, they agree again after the call on it |
| `Rollup.WalkIsRecomputation` | bench/lib/workload.ts:247-260 | the result is then the same as that of recomputing every project |
| `Rollup.AgreementIsUnique` | bench/lib/workload.ts:262-278 | over acyclic links only one cache agrees with the tasks |
| `Rollup.EditConcerns` | bench/lib/workload.ts:267-268 | editing a task changes the tasks of no project but those it was in or is in |
| `Rollup.SeveralStartsRepair` | bench/lib/workload.ts:247-260 | with several starts and any links, cyclic ones included, only a project that a later walk stopped at can be left stale |
| `Rollup.SeparateStartsRepair` | bench/lib/workload.ts:247-260 | when no walk stops at a project seen before, all caches agree |
| `Rollup.SharedParentIsLeftStale` | bench/lib/workload.ts:247-260 | a task in two projects under one parent whose change the parent misses |
| `RollupStarts.RepairsEveryChangeIff` | bench/lib/workload.ts:247-278 | for all acyclic links and all starts: one call repairs every change of the starts' tasks, over every cache that agreed before, if and only if no walk passes an unstaged start that is rolled up from its tasks and from there reaches a seen project over unstaged ones |
| `RollupStarts.LossIsReached` | bench/lib/workload.ts:247-278 | otherwise some change of one task from 0 to 1 percent is lost |
| `RollupStarts.NothingLost` | bench/lib/workload.ts:247-278 | when no walk does, all caches agree after any change of the starts' tasks |
| `SubdocumentIds.PresetSubdocumentIds` | src/data/subdocumentIds.ts:31-46 | the loops fill operator updates and replacements by the roles of their values; which roles these are and what filling does is `SubdocumentPlaces.PlacesAre` and `SubdocumentPlaces.PresetAt` |
| `SubdocumentPlaces.PlacesAre` | src/data/subdocumentIds.ts:29-98 | exactly these documents have the role of sub-documents: what `$push` and `$addToSet` add to a document array, or each element of its `$each` list; of `$set` and `$setOnInsert` each element of a list, the value at a position, a single nested document, and what is below a plain object by its joined path; of a replacement what is below its fields; nothing under other operators |
| `SubdocumentPlaces.PresetAt` | src/data/subdocumentIds.ts:31-98 | each such document without an id, unless its schema disables it, gets one minted in this call; no other document gets any, and all other fields that are not lists or documents are as they were |
| `SubdocumentPlaces.EndsIdentified` | src/data/subdocumentIds.ts:84-90 | every such document ends with an id unless its schema disables it |
| `SubdocumentPlaces.PresetDiffers` | src/data/subdocumentIds.ts:84-90 | two of them never get the same new id |
| `SubdocumentPlaces.SegmentsOnce` | src/data/subdocumentIds.ts:52-58 | a path has one list of segments, those between its dots |
| `SubdocumentIds.FillAtPath` | src/data/subdocumentIds.ts:52-78 | the value at a path is filled by its role there, `$each`, positions and plain objects included |
| `SubdocumentIds.FillSubdocument` | src/data/subdocumentIds.ts:84-90 | setting the id first and then filling the fields is filling the sub-document |
| `SubdocumentIds.PresetCompletes` | src/data/subdocumentIds.ts:31-98 | afterwards no sub-document lacks an id its schema asks for, and a second preset changes and mints nothing |
| `SubdocumentIds.UnchangedIffComplete` | src/data/subdocumentIds.ts:31-98 | presetting leaves an update as it is if and only if no sub-document lacks an id |
| `SubdocumentIds.MintedAt` | src/data/subdocumentIds.ts:84-90 | each sub-document lacking an id has one minted in this call, at the position where it was |
| `SubdocumentIds.MintedOnce` | src/data/subdocumentIds.ts:84-90 | no two positions get the same new id |
| `SubdocumentIds.KeptAt` | src/data/subdocumentIds.ts:31-98 | every value but a missing one stays where it was, existing ids included |
| `SubdocumentIds.DropTakesBack` | src/data/subdocumentIds.ts:31-98 | up to missing and newly minted ids, nothing changes anywhere |
| `SubdocumentIds.PresetIsTakenBack` | src/data/subdocumentIds.ts:31-98 | deleting the added ids restores the update |
| `CommitGroups.Split` | src/scripts/migrate-mongo-to-kdb.ts:118-134 | the groups concatenate to the input, none is empty, each of several documents is within both bounds, and none has room for the first document of the next; the longest legal prefix is cut off again and again |
| `CommitGroups.GreedySplits` | src/scripts/migrate-mongo-to-kdb.ts:118-134 | the groups are non-empty, legal and concatenate to the input |
| `CommitGroups.GreedyIsFewest` | src/scripts/migrate-mongo-to-kdb.ts:118-134 | no other legal split has fewer groups |
| `CommitGroups.Backfill` | src/scripts/migrate-mongo-to-kdb.ts:100-147 | over all pages of a collection the commits hold every document once and in order, each within the bounds |
| `Comments.Store.GetCommentDepth` | src/services/commentService.ts:92-105 | the loop up the parents, cut off at the limit |
| `Comments.Store.CreateComment` | src/services/commentService.ts:211-269 | refused by the first failing check, otherwise one new comment with the fields asked for, empty ids dropped from its path |
| `Comments.RefusalIs` | src/services/commentService.ts:211-269 | accepted if and only if allowed, on an existing path, with a body, and a reply only to a comment at level one to three on the same task and subtask; each error exactly when its check is the first to fail |
| `Comments.Store.CascadeDelete` | src/services/commentService.ts:186-192 | terminates and removes the comment, its replies, their replies and so on, and nothing else |
| `Comments.Store.DeleteComment` | src/services/commentService.ts:388-401 | done if and only if the comment is on the task and the user is its author or may edit: then exactly one subtree is gone, otherwise nothing changes |
| `Comments.RunKeepsForest` | src/services/commentService.ts:186-269 | after any sequence of creations and deletions there is no orphan, no cycle and no thread as deep as the limit, and every reply has its parent's scope |
| `Comments.InsertAfterCheck` | src/services/commentService.ts:240-269 | a creation written to a later state than it was checked in keeps all that if and only if the parent is still there |
| `CommentCascade.CascadeIff` | src/services/commentService.ts:186-192 | a deletion step by step, with any creations in between, leaves a forest if and only if each creation replies to a comment that is still there and not yet searched for replies, or to none; then exactly the comments under the deleted one are gone, late ones included |
| `CommentCascade.LateReplyIsOrphaned` | src/services/commentService.ts:186-192 | a run in which a reply written between search and deletion stays without its parent |
| `Comments.DepthLimit` | src/services/commentService.ts:255-258 | a reply is refused for its depth if and only if it would be at level five or deeper |
| `Comments.SharesRoot` | src/services/commentService.ts:250-253 | a reply is about the same task and subtask as the root of its thread |
| `Comments.JoinedOnce` | src/services/commentService.ts:250-251 | comparing joined paths is comparing paths, for ids that are not empty and have no comma |
| `Comments.CommaConfuses` | src/services/commentService.ts:250-251 | with a comma in an id two different paths are joined alike |
| `ToolRanges.FindClose` | src/agent/parseTextToolCall.ts:242-275 | it ends at the brace at which the braces outside string literals first balance, a literal being a quote, characters other than quote and backslash or backslashes with any character, and a quote; nothing is found if and only if there is none |
| `ToolText.ClosesIff` | src/agent/parseTextToolCall.ts:242-275 | for any text: the scanner closes exactly where the braces of its pieces are first balanced |
| `ToolText.ScanLiteral` | src/agent/parseTextToolCall.ts:248-259 | scanning a whole literal, escapes included, leaves quoting and depth as they were |
| `ToolRanges.FindToolJsonRanges` | src/agent/parseTextToolCall.ts:236-279 | the ranges of all tool calls and no others, by strictly ascending start |
| `ToolRanges.StripRanges` | src/agent/parseTextToolCall.ts:310-317 | the ranges cut out one after another, the last one first |
| `ToolRanges.StripToolJson` | src/agent/parseTextToolCall.ts:236-317 | finding and cutting together: what is left is the text without the tool calls if and only if the ranges found are safe |
| `ToolRanges.ExactIffSafe` | src/agent/parseTextToolCall.ts:310-317 | exactly the covered characters are deleted if and only if no range overlaps the next, or after the end of the first that does every character is covered anyway |
| `ToolRanges.DisjointIsSafe` | src/agent/parseTextToolCall.ts:310-317 | so for pairwise disjoint ranges exactly the covered characters are deleted |
| `ToolRanges.StripKeeps` | src/agent/parseTextToolCall.ts:310-317 | the result is made of the characters at the positions left, in order |
| `ToolRanges.NestedCallLosesText` | src/agent/parseTextToolCall.ts:236-317 | the call `{"function": {"name": "create_task"}}` with text after it: both objects are found as tool calls, their ranges are not safe, and the text is gone |
| `Base64.AlphabetIs` | shared/src/jwt.ts:3 | the index of a character is its place in the alphabet |
| `Base64.Base64Decode` | shared/src/jwt.ts:5-19 | the nested loops drop other characters and decode four at a time |
| `Base64.ChunksAreWhole` | shared/src/jwt.ts:9-17 | decoding by fours is decoding the whole bit string |
| `Base64.DecodesEncoded` | shared/src/jwt.ts:30-31 | for every byte string, with padding or without, decoding after the URL-safe replacement inverts base64url encoding |

## Left out

- QrDrawing.BaseShows: does not speak of the format areas except the two timing modules in them; what they hold is `QrFormat.WithFormatAt`.
- Qr.EncodeQr: takes bytes and a mask from 0 to 7; UTF-8 encoding and the exception for a mask number out of range are not modelled.
- QrPenalty.ComputePenalty: the share of dark modules is an exact fraction, not a floating-point percentage.
- ReedSolomon.RsRemainder: requires at least one check word, as every version has.
- QrMatrix.BaseMatrix: the grid is an array of modules, but the function modules are a set of cells instead of a second grid.
- SVG rendering (`src/local/qr.ts:361-376`).
- EmbeddingProtocol.EmbedsLaterIff: enqueue and finish are one step each; what their gaps do is in `EmbeddingSteps.EmbedsLaterIff`. The claim's order by creation time and the retry status of the service are not modelled.
- EmbeddingSteps.EmbedsLaterIff: one entity, which is not deleted; reading it and writing its embedding do not fail.
- Ownership.NeverMixedIff: a batch is a set of documents that replaces those with the same ids; change sequences, conflict merging, deletions and the capture of local edits are not modelled.
- Ownership.Device.SignIn: the login request and the token are not modelled, only the account the hub identifies.
- LocalUser.Serialised: with device sync on, the user is the owner that was installed; that path is `LocalUser.Users.InstallOwnerUser` and not part of the chain's steps.
- Histogram.QuantileBounds: recorded values are reals, so neither NaN nor the rounding of `ms * 1000` is modelled; `Math.log2` is an integer logarithm.
- Rollup.OneStartRepairs: one call runs undisturbed, percentages are integers, and the tracking rollup (`bench/lib/workload.ts:280`) is not modelled.
- Rollup.SeveralStartsRepair: bounds the stale projects from above; which links and starts leave any is `RollupStarts.RepairsEveryChangeIff`, for acyclic links.
- SubdocumentIds.PresetSubdocumentIds: the clone is a value that is rebuilt, not an object assigned to in place, so an object that occurs twice in an update is filled twice; instances of classes other than Date do not occur.
- Comments.Store.CreateComment: a malformed parent id is an id that is not found; access, the existence of the subtask path and the trimmed body are inputs; notifications, activity and the embedding job are not modelled.
- CommentCascade.CascadeIff: one deletion at a time; each creation's check is one step and its write another.
- ToolRanges.FindToolJsonRanges: parsing JSON and recognising a tool call are a given predicate on the slice; the markdown task blocks and the regular expressions after the removal are not modelled.
- CommitGroups.Backfill: the collection does not change while it is copied, and ids are not empty.
- Base64.DecodesEncoded: splitting the token, UTF-8 and JSON parsing of the payload are not modelled.
- The sync engine and its transports, the KDB and Mongo stores, task and project services, HTTP routing, authentication, the user interface, random generators, report rendering and the other measurements of the benchmark.
