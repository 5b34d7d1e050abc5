# Verified models of the RVC orchestrator's hard parts

Dafny models of the components of the orchestrator whose correctness rests on arithmetic, on crash
recovery or on interleavings, with proofs of what each of them promises. `dafny verify dfyconfig.toml`
checks the whole project.

| component | modules |
|---|---|
| PCM analysis and two-pass gated loudness of an uploaded dataset | `PcmAnalysis`, `PcmLayout`, `KWeighting`, `LoudnessScanner`, `LoudnessGate`, `DatasetQuality` |
| ZIP validation, collection, the dataset manifest and its quality report | `ArchiveMembers`, `DatasetCollection`, `AudioNames`, `ZipIngestion`, `ContentDigest`, `DatasetReport` |
| projection of secrets into several profiles | `SecretProjection` |
| the worker's lease protocol | `WorkerLease` |
| the maintenance queue and its workers | `MaintenanceEnvelope`, `MaintenanceQueue`, `MaintenanceRaces` |
| publication of an archive and its checksum | `Publication` |
| object-store backup and restore | `ObjectSnapshot` |
| recovery-archive validation and extraction | `RecoveryArchive`, `ArchiveExtraction` |
| the checksum ledger of a directory tree | `LedgerText`, `ChecksumLedger` |
| the fixed-window rate limiter | `RateLimit` |
| release-qualification evidence | `QualificationEvidence` |
| shared: results and basic values, products, sorting, slash-separated paths | `Common`, `Products`, `Ordering`, `Paths` |

Objects whose methods update fields are classes with those fields; their methods are specified by functions
of the old state, or by predicates on the whole history of states. The secret projection and the publication
keep a ghost trace of every state of the file system, so that a crash is any element of that trace. Calls that
may fail do so at will, before or after taking effect, except on a host declared `quiet`; what is promised there
rules out that a method keeps its other promises by failing always. The secret projection and the publication
also keep a ghost record of what went wrong, written where the failing call is made, and say what follows from
it. The lease
protocol and the queue's races are transition systems, and their theorems quantify over all runs.

## Where the code does something else than one might expect

Each of these is a lemma or a clause below, with the exact condition.

- Secret projection: a link switch that takes effect, then fails (say in `fsync`), and then cannot be read
  back is not counted. The clean-up removes the generation `current` points to, and every later run refuses
  the directory. Without such a switch every state of every run is recoverable (`Host.Project`,
  `AbortIsSafe`, `UncountedSwitchDangles`). It takes an interrupt or two failing calls.
- Lease: `accept_lease_expiry` looks at the wall clock only. When the wall clock falls behind the monotonic
  one, a response can revive a lease whose deadline has passed; when it is stepped back, even one that had run
  out by both clocks (`RevivalExactly`, `SlowWallClockRevives`, `SteppedBackClockRevives`).
- Publication: when removing a temporary name fails after both links were made, the call raises and both
  files stay published. When the archive's link is made but its call reports failure, the rollback removes the
  checksum and the archive stays without it. What a raise leaves is told exactly by the calls that went wrong
  (`Publisher.PublishPair`, `RaisesWithBoth`, `RaisesWithArchiveOnly`).
- Queue: a dependency key left behind without its job makes the next job with that id unacceptable
  (`StaleLinksPoison`).
- Ledger: path validation lets U+0085, U+2028 and U+2029 through, and `splitlines` breaks at them; a ledger
  with such a path, or one for a tree without files, is written and then rejected, and stays in place
  (`LedgerReadsBack`, `SeparatorBreaksLedger`, `Folder.CreateLedger`).
- ZIP paths: `./C:/x` is accepted and becomes `C:/x`, which would itself be refused (`DotHidesDrive`).
- Recovery archive: validation accepts an archive in which a file is an ancestor of another member; extraction
  then fails, and that is the only way it can fail undisturbed (`FileBelowFileIsAccepted`, `ExtractArchive`).

## Model

| member | source | states |
|---|---|---|
| LoudnessScanner.FrameCountsRoundHalfUp | apps/api/src/rvc_manager_api/dataset_ingestion.py:203-206 | the block length is the half-up rounding of 0.4 s of frames and the hop that of 0.1 s, for every sample rate |
| KWeighting.FilterObeys | apps/api/src/rvc_manager_api/dataset_ingestion.py:151-173 | from rest, a filter's output obeys the difference equation of its coefficients at every sample, whatever the signal |
| KWeighting.FileFiltersObey | apps/api/src/rvc_manager_api/dataset_ingestion.py:213-226 | in every file and channel the shelf obeys its equation on the samples and the high-pass its own on the shelf's output |
| KWeighting.EnergyByChannel | apps/api/src/rvc_manager_api/dataset_ingestion.py:223-228 | the energy of every frame is the sum over the channels of the squared output of that channel's own two filters |
| LoudnessScanner.BlocksStep | apps/api/src/rvc_manager_api/dataset_ingestion.py:238-247 | in the plain definition, which re-sums every window at 0, hop, 2·hop, …, one more frame adds a block exactly when the rolling scheme would record one, with the energy of the last window |
| LoudnessScanner.Slide | apps/api/src/rvc_manager_api/dataset_ingestion.py:233-237 | overwriting the oldest ring entry and adding the difference keeps ring and rolling sum equal to the last window and its re-summed energy |
| LoudnessScanner.Fill | apps/api/src/rvc_manager_api/dataset_ingestion.py:230-232 | while the ring fills up, its used part is all energies so far and the rolling sum is their sum |
| LoudnessScanner.Scanner.constructor | apps/api/src/rvc_manager_api/dataset_ingestion.py:198-218 | a new scanner has seen no frame, and its counts are those of no blocks |
| LoudnessScanner.Scanner.ProcessFrame | apps/api/src/rvc_manager_api/dataset_ingestion.py:220-244 | accepts exactly frames of the right channel count; afterwards block count, gated count and gated energy sum are those of the plain definition over all frames so far |
| LoudnessScanner.Scanner.FrameEnergy | apps/api/src/rvc_manager_api/dataset_ingestion.py:223-228 | the loop over channels yields the filters' next states and the summed energy of the frame |
| LoudnessScanner.Scanner.RecordCompleteBlock | apps/api/src/rvc_manager_api/dataset_ingestion.py:246-259 | counts the finished window as a block, and as a gated block exactly when it passes the gate; the negative-energy error cannot occur in exact arithmetic |
| LoudnessGate.LargerGateIsBothGates | apps/api/src/rvc_manager_api/dataset_ingestion.py:1266-1279 | scanning once with the larger threshold keeps exactly the blocks that pass both gates |
| LoudnessGate.MeanPasses | apps/api/src/rvc_manager_api/dataset_ingestion.py:1252-1265 | the mean of blocks above a gate is itself above it |
| LoudnessGate.RemoveBelowMean | apps/api/src/rvc_manager_api/dataset_ingestion.py:1259-1289 | removing values below the mean leaves something, with no smaller mean |
| LoudnessGate.RelativeGateKeepsBlocks | apps/api/src/rvc_manager_api/dataset_ingestion.py:1252-1289 | if any block passes the absolute gate, the second gate keeps a non-empty part of the first pass, whose mean is no smaller and lies above both thresholds |
| PcmAnalysis.DecodeInRange | apps/api/src/rvc_manager_api/dataset_ingestion.py:983-997 | every decoded sample of 1 to 4 bytes lies in the signed range of its width |
| PcmLayout.DecodeInvertsWriting | apps/api/src/rvc_manager_api/dataset_ingestion.py:983-997 | a decoded sample written down again, offset by 128 in one byte or in two's complement with the least significant byte first, gives back its bytes |
| PcmLayout.SampleAt | apps/api/src/rvc_manager_api/dataset_ingestion.py:983-997 | sample k comes from bytes k·width to (k+1)·width |
| PcmLayout.SampleTotal | apps/api/src/rvc_manager_api/dataset_ingestion.py:983-997 | there is one sample for every whole group of bytes |
| PcmLayout.FrameAt | apps/api/src/rvc_manager_api/dataset_ingestion.py:913-930 | channel c of frame j is sample j·channels + c, divided by full scale |
| PcmAnalysis.DeclaredBytesIsProduct | apps/api/src/rvc_manager_api/dataset_ingestion.py:876-876 | the bytes a header declares are frames times channels times sample width |
| PcmAnalysis.LoudnessAvailable | apps/api/src/rvc_manager_api/dataset_ingestion.py:1000-1015 | loudness is available exactly for mono and stereo at 8 to 384 kHz |
| PcmAnalysis.ReadFrame | apps/api/src/rvc_manager_api/dataset_ingestion.py:914-930 | one frame consumes one sample per channel, fails exactly when too few are left, and tallies and scales those samples |
| PcmAnalysis.ReadFrames | apps/api/src/rvc_manager_api/dataset_ingestion.py:913-938 | the frame loop over one chunk tallies every sample of it and hands every frame to the scanner; neither channel-data error can occur |
| PcmAnalysis.ReadAll | apps/api/src/rvc_manager_api/dataset_ingestion.py:900-942 | for every chunk size, reading ends with the tally and the frames of the whole file, or with the error that the file length alone determines |
| PcmAnalysis.InspectPcmWav | apps/api/src/rvc_manager_api/dataset_ingestion.py:860-980 | for every chunk size the first pass returns exactly the report of the whole-file definition, errors included |
| PcmAnalysis.ScanPcmWavLoudness | apps/api/src/rvc_manager_api/dataset_ingestion.py:1078-1144 | on an unchanged file the second pass does not fail and its scan is that of the same blocks against the new gate |
| PcmAnalysis.ScannerHoldsScan | apps/api/src/rvc_manager_api/dataset_ingestion.py:944-962 | a scanner that has seen all frames of a file holds the file's reference block counts and energy |
| DatasetQuality.TallyMeaning | apps/api/src/rvc_manager_api/dataset_ingestion.py:916-930 | the accumulators count exactly the clipped and silent samples, sum their squares and hold their peak |
| DatasetQuality.FileRatios | apps/api/src/rvc_manager_api/dataset_ingestion.py:943-980 | every reported ratio of an accepted file is the ratio over its samples and lies in [0, 1] before any clamp |
| DatasetQuality.DatasetRatios | apps/api/src/rvc_manager_api/dataset_ingestion.py:1178-1208 | the dataset ratios are those of all PCM samples laid end to end, lie in [0, 1], and are absent exactly when there are no samples |
| DatasetQuality.ScanTotals | apps/api/src/rvc_manager_api/dataset_ingestion.py:1243-1287 | totals over per-file scans are the count, gated count and gated energy of the blocks of all files |
| DatasetQuality.ReasonsDecide | apps/api/src/rvc_manager_api/dataset_ingestion.py:1230-1241 | no unavailability reason is collected exactly when every PCM file has a supported layout and rate |
| DatasetQuality.ScanAgain | apps/api/src/rvc_manager_api/dataset_ingestion.py:1271-1283 | the second pass over unchanged files raises nothing and returns each file's scan against the new gate |
| DatasetQuality.BuildPcmLoudness | apps/api/src/rvc_manager_api/dataset_ingestion.py:1225-1304 | on unchanged files the two passes give the two-stage figure over all blocks at once; the changed-block-count and no-valid-blocks errors are unreachable, and a measured result satisfies the aggregate's own range checks |
| ArchiveMembers.SafePathStaysInside | apps/api/src/rvc_manager_api/dataset_ingestion.py:806-824 | an accepted member path has exactly the normalized components of the raw name, at least one, none of them "..", and is relative |
| ArchiveMembers.NormalFormIsStable | apps/api/src/rvc_manager_api/dataset_ingestion.py:806-824 | normalizing an accepted path again gives the same path exactly when it does not look like a drive |
| ArchiveMembers.DriveLikeExactly | apps/api/src/rvc_manager_api/dataset_ingestion.py:811-811 | a name looks like a drive exactly when it is a letter and a colon, at the end or before a slash or one last newline |
| ArchiveMembers.DotHidesDrive | apps/api/src/rvc_manager_api/dataset_ingestion.py:811-815 | a concrete name that is accepted although the path it becomes is refused |
| ArchiveMembers.FileTypeOfMode | apps/api/src/rvc_manager_api/dataset_ingestion.py:827-836 | the type tested for an entry is the one in the upper four bits of the Unix mode in its attributes |
| ArchiveMembers.RatioExactly | apps/api/src/rvc_manager_api/dataset_ingestion.py:852-857 | an entry exceeds the ratio exactly when its size is more than the ratio times its compressed size, a compressed size of zero included |
| ArchiveMembers.CheckEntry | apps/api/src/rvc_manager_api/dataset_ingestion.py:773-796 | one entry passes exactly when it is allowed on its own, its folded name is new and the running total stays within the limit |
| ArchiveMembers.ValidateArchiveMembers | apps/api/src/rvc_manager_api/dataset_ingestion.py:764-803 | the loop accepts exactly the archives that satisfy a condition on the whole list of entries, and returns their members sorted by folded name and path |
| ArchiveMembers.AllPass | apps/api/src/rvc_manager_api/dataset_ingestion.py:785-796 | in an acceptable archive every entry passes where it stands: no prefix of sizes exceeds the limit |
| ArchiveMembers.MembersOrdered | apps/api/src/rvc_manager_api/dataset_ingestion.py:797-803 | on an accepted archive the sort key is a total order that identifies the member |
| ArchiveMembers.EntryOrderIsForgotten | apps/api/src/rvc_manager_api/dataset_ingestion.py:764-803 | whether an archive passes, and the resulting member order, do not depend on the order of its entries |
| DatasetCollection.EntriesAreConserved | apps/api/src/rvc_manager_api/dataset_ingestion.py:638-729 | source entries are the non-directories, and equal kept plus skipped plus rejected plus duplicate; the audio members are the kept, rejected and duplicate ones |
| DatasetCollection.CopiedBytesAreConserved | apps/api/src/rvc_manager_api/dataset_ingestion.py:732-761 | the copied bytes are the sizes of the audio members and of nothing else |
| DatasetCollection.KeptFilesAreDistinct | apps/api/src/rvc_manager_api/dataset_ingestion.py:706-729 | kept files are numbered 1..n in order, named by their number, and pairwise distinct in content hash |
| DatasetCollection.DuplicatesNameKeptFiles | apps/api/src/rvc_manager_api/dataset_ingestion.py:707-711 | every duplicate names a kept file with the same hash |
| DatasetCollection.FirstOfEachContentIsKept | apps/api/src/rvc_manager_api/dataset_ingestion.py:638-729 | every kept file comes from the first usable member with its content, and every usable content is kept: nothing usable is lost |
| DatasetCollection.KeptFilesAreBacked | apps/api/src/rvc_manager_api/dataset_ingestion.py:682-729 | every kept file has recorded contents with its size and hash, from which its inspection was made |
| AudioNames.SuffixExactly | apps/api/src/rvc_manager_api/dataset_ingestion.py:655-655 | a name has the suffix "." + e exactly when it is a non-empty stem, a dot and a non-empty e without dots; otherwise it has none |
| AudioNames.ExtensionExactly | apps/api/src/rvc_manager_api/dataset_ingestion.py:655-658 | the extension of a member is the lower-cased suffix of the last component of its path |
| AudioNames.SkipExactly | apps/api/src/rvc_manager_api/dataset_ingestion.py:838-849 | a member is metadata when some component is, otherwise hidden when some component starts with a dot, otherwise looked at |
| AudioNames.GoodAudioIsIngested | apps/api/src/rvc_manager_api/dataset_ingestion.py:638-729 | an acceptable archive that is faithful to its sizes and holds a visible, non-empty file with an audio extension (for WAV: one that passes inspection) is ingested, and that content is kept |
| ZipIngestion.State.CopyAndHash | apps/api/src/rvc_manager_api/dataset_ingestion.py:732-761 | for every sequence of read sizes the copy is complete and hashed, or no file is left; it fails exactly when a limit would be exceeded |
| ZipIngestion.State.Keep | apps/api/src/rvc_manager_api/dataset_ingestion.py:713-729 | moving the candidate to its canonical name replaces no file, and index and directory agree with the list of kept files again |
| ZipIngestion.State.CollectAudioStream | apps/api/src/rvc_manager_api/dataset_ingestion.py:672-729 | one audio stream is kept, rejected or recorded as a duplicate as specified, fails exactly on a size mismatch or a limit, and leaves no candidate file behind |
| ZipIngestion.State.CollectMember | apps/api/src/rvc_manager_api/dataset_ingestion.py:647-669 | one member of the archive changes the collection as specified; only audio members can fail |
| ZipIngestion.State.CollectZip | apps/api/src/rvc_manager_api/dataset_ingestion.py:638-669 | collection fails exactly for archives that are not acceptable or whose audio streams differ in size from their entries; copied bytes stay within the total limit, whose streaming check is then never reached |
| ZipIngestion.NextNameIsFree | apps/api/src/rvc_manager_api/dataset_ingestion.py:713-717 | the next canonical name is not in the flat directory, whatever the extensions |
| ZipIngestion.BuildManifest | apps/api/src/rvc_manager_api/dataset_ingestion.py:1147-1169 | the manifest holds the file count, the byte total, the duration of validated audio and the hash of the header and the encoded files |
| ZipIngestion.IngestZip | apps/api/src/rvc_manager_api/dataset_ingestion.py:583-615 | ingesting an archive succeeds exactly when it is within the size limit, acceptable, faithful to its sizes and has a usable audio member; the manifest is that of the collected files |
| ZipIngestion.IngestIgnoresEntryOrder | apps/api/src/rvc_manager_api/dataset_ingestion.py:638-669 | the outcome of ingestion, and every list and number in it, are the same for every order of the archive's entries |
| ZipIngestion.ManifestIsIdentified | apps/api/src/rvc_manager_api/dataset_ingestion.py:1147-1169 | manifests with the same content hash list the same paths, hashes and sizes in the same order, unless the hash collides on the two byte strings it was taken over |
| ContentDigest.PaddedReadsBack | apps/api/src/rvc_manager_api/dataset_ingestion.py:713-714 | the zero-padded decimal name of a sequence number reads back as that number |
| ContentDigest.CanonicalPathsDiffer | apps/api/src/rvc_manager_api/dataset_ingestion.py:713-716 | canonical names with different sequence numbers differ |
| ContentDigest.EncodingReadsBack | apps/api/src/rvc_manager_api/dataset_ingestion.py:1147-1154 | the byte string hashed into the content digest is uniquely decodable into paths, hashes and sizes, in order |
| ContentDigest.ContentHashIdentifies | apps/api/src/rvc_manager_api/dataset_ingestion.py:1147-1154 | equal content digests mean equal lists of paths, hashes and sizes if and only if the hash does not collide on these two encodings |
| ContentDigest.ContentHash | apps/api/src/rvc_manager_api/dataset_ingestion.py:1148-1154 | updating the digest file by file hashes exactly the header followed by the encoding of the list |
| DatasetReport.InspectWav | apps/api/src/rvc_manager_api/dataset_ingestion.py:860-980 | the inspection collection uses is what the chunked first pass computes, for every chunk size |
| DatasetReport.WavIsAnalyzed | apps/api/src/rvc_manager_api/dataset_ingestion.py:697-704 | exactly the kept files named .wav have been analyzed |
| DatasetReport.BuildQualityReport | apps/api/src/rvc_manager_api/dataset_ingestion.py:1172-1222 | reading the kept files in the flat directory again gives the report by definition: the figures of all samples of the PCM files and the gated loudness of all their blocks |
| DatasetReport.ReportOnZip | apps/api/src/rvc_manager_api/dataset_ingestion.py:591-616 | from the entries of an archive to the report: collection leaves every file as its first pass saw it, so the report is that of the collected contents, and fails only where collection or the loudness range does |
| DatasetReport.ReportIgnoresEntryOrder | apps/api/src/rvc_manager_api/dataset_ingestion.py:638-669 | sample figures, loudness and everything else in the report are the same for every order of the archive's entries |
| DatasetReport.DurationIsPlayingTime | apps/api/src/rvc_manager_api/dataset_ingestion.py:1155-1159 | the validated duration of the manifest is the sum of frames over rate of the PCM files the report is about |
| DatasetReport.FiguresNeedPcm | apps/api/src/rvc_manager_api/dataset_ingestion.py:1178-1208 | the report has PCM figures exactly when some kept file is a PCM file |
| SecretProjection.Host.RemoveGeneration | infra/runtime/manager-secrets-init.py:277-295 | removes the named generation file by file and nothing else, changes nothing where its inventory check forbids, and keeps every crash state recoverable |
| SecretProjection.GenerationNameExactly | infra/runtime/manager-secrets-init.py:161-162 | a generation name is the prefix and a rest without slashes |
| SecretProjection.FullInventoryExactly | infra/runtime/manager-secrets-init.py:172-195 | a complete inventory is exactly the secrets of the profile, each sealed and not empty |
| SecretProjection.Host.CurrentGeneration | infra/runtime/manager-secrets-init.py:148-168 | succeeds exactly when `current` is absent or names a complete generation, and returns that name |
| SecretProjection.Host.ValidateTargetRoot | infra/runtime/manager-secrets-init.py:197-215 | leaves only `current` and the generation it names, never touches these, and refuses exactly the directories that were not recoverable |
| SecretProjection.Host.WriteSecret | infra/runtime/manager-secrets-init.py:226-242 | adds exactly one sealed file with the given value to the generation being built, with a crash possible after every call |
| SecretProjection.Host.StageProfile | infra/runtime/manager-secrets-init.py:245-260 | adds one complete generation holding the new values beside an unchanged `current`, or leaves `current` as it was |
| SecretProjection.Host.ReplaceCurrent | infra/runtime/manager-secrets-init.py:263-274 | the link is the old or the new one in every state, and the new one without a leftover temporary on success; once the temporary has been created, a single failure leaves none |
| SecretProjection.Host.Activate | infra/runtime/manager-secrets-init.py:321-335 | exactly the counted profiles, and at most one uncounted one, have been switched; it takes an interrupt or two failing calls to leave one uncounted |
| SecretProjection.Host.Rollback | infra/runtime/manager-secrets-init.py:298-307 | without a failing call it finishes; then exactly the counted profiles are restored and no generation is changed |
| SecretProjection.Host.AbortActivation | infra/runtime/manager-secrets-init.py:336-340 | without a failing call rollback and removal of what was staged finish, and give the state computed from the staging records |
| SecretProjection.Host.StageAll | infra/runtime/manager-secrets-init.py:312-319 | stages every profile or leaves every `current` and what it names as they were; from recoverable directories it stages every profile when no call fails, and after a single failure no secret is anywhere it was not before, except for an interrupt just after a profile has been staged |
| SecretProjection.Host.RemovePrevious | infra/runtime/manager-secrets-init.py:342-348 | leaves exactly one generation per profile, the new one, when it finishes |
| SecretProjection.Host.Project | infra/runtime/manager-secrets-init.py:310-349 | every state of a run that starts from recoverable directories is recoverable unless a switch was lost; when no call fails after the one that broke activation, no staged generation is left and, unless a switch was lost, every `current` is the old one; success leaves one generation per profile with the new values, and from recoverable directories success is certain when no call fails |
| SecretProjection.RunAfterCrash | infra/runtime/manager-secrets-init.py:197-349 | a run over any state a crash can leave is never refused, on success leaves exactly one generation per profile, and succeeds when no call fails |
| SecretProjection.AbortIsSafe | infra/runtime/manager-secrets-init.py:298-340 | giving up leaves every `current` sound if and only if no link was switched without being counted, and then restores it |
| SecretProjection.UncountedSwitchDangles | infra/runtime/manager-secrets-init.py:325-340 | a concrete state in which an uncounted switch ends in a dangling `current` |
| WorkerLease.ActiveJob.CancelJob | apps/worker/src/rvc_worker/agent.py:144-152 | the job is cancelled for this reason and any internal failure is forgotten |
| WorkerLease.ActiveJob.FailJob | apps/worker/src/rvc_worker/agent.py:154-160 | a failure is recorded only while the job is not cancelled |
| WorkerLease.ActiveJob.AcceptLeaseExpiry | apps/worker/src/rvc_worker/agent.py:162-191 | expiry, deadline and acceptance follow the specified comparison of current expiry, candidate, baseline and clock |
| WorkerLease.CancelOutranksFailure | apps/worker/src/rvc_worker/agent.py:144-160 | over every sequence of cancel and fail calls the job ends cancelled for the last cancellation's reason if there is one, and otherwise with the first failure |
| WorkerLease.RunKeepsInv | apps/worker/src/rvc_worker/agent.py:352-415 | over every interleaving of requests, responses, failures, clock ticks and the deadline loop, with a Manager whose grants increase, the invariant holds |
| WorkerLease.ExpiryOnlyGrows | apps/worker/src/rvc_worker/agent.py:352-415 | over every run the expiry never decreases and never exceeds the Manager's last grant |
| WorkerLease.ExpiredStaysExpired | apps/worker/src/rvc_worker/agent.py:162-191 | a lease is not extended while the wall clock stays at or past its expiry, over every run |
| WorkerLease.SteppedBackClockRevives | apps/worker/src/rvc_worker/agent.py:162-191 | a concrete run in which the lease has run out by both clocks, the wall clock is stepped back, and a heartbeat revives it |
| WorkerLease.RenewalCancelsOnlyWhenLate | apps/worker/src/rvc_worker/agent.py:594-648 | a renewal's response, overtaken or not, cancels a live job exactly when the lease or the grant has run out; otherwise the later expiry is kept |
| WorkerLease.HeartbeatCancelsOnlyWhenLate | apps/worker/src/rvc_worker/agent.py:390-403 | the same for heartbeats, which also cancel exactly on the Manager's request |
| WorkerLease.ExplicitCancelIsFinal | apps/worker/src/rvc_worker/agent.py:144-160 | an explicit cancellation anywhere in a run makes the job end as cancelled, internal failures before or after it notwithstanding |
| WorkerLease.CancelledExactly | apps/worker/src/rvc_worker/agent.py:594-669 | each step cancels a live job exactly on its condition, in terms of expiry, deadline and the two clocks: the loops' checks when it is out of time by either, a timeout also when the expiry has not moved, a refusal when the job is gone or the expiry has passed; otherwise the job's times stay |
| WorkerLease.CancelledOnlyOnCondition | apps/worker/src/rvc_worker/agent.py:352-669 | over every run a job is cancelled exactly when some step before met its condition for cancelling |
| WorkerLease.DeadlineCheckEnds | apps/worker/src/rvc_worker/agent.py:650-669 | over every run a deadline check that finds a live job past its expiry or its deadline cancels it for good |
| WorkerLease.SentWithExpiry | apps/worker/src/rvc_worker/agent.py:352-415 | over every run a request in flight carries the expiry the job had when it was sent |
| WorkerLease.RevivalExactly | apps/worker/src/rvc_worker/agent.py:162-191 | a response revives a lease that is out of time if and only if only the monotonic clock says so and the grant is later |
| WorkerLease.SlowWallClockRevives | apps/worker/src/rvc_worker/agent.py:162-191 | a concrete run in which a slow wall clock lets a heartbeat revive a lease past its deadline |
| WorkerLease.OutOfTimeStaysOutOfTime | apps/worker/src/rvc_worker/agent.py:650-669 | without clock drift a lease that is out of time by either clock is never revived, over any run |
| WorkerLease.StartAgrees | apps/worker/src/rvc_worker/agent.py:425-431 | a claimed job starts in the invariant and with both clocks agreeing on the time left |
| MaintenanceEnvelope.ComputeRetryIntervals | apps/api/src/rvc_manager_api/maintenance_queue.py:123-129 | the loop yields one interval fewer than attempts, interval i being min(base·2^i, max) |
| MaintenanceEnvelope.IntervalsFollowFormula | apps/api/src/rvc_manager_api/maintenance_queue.py:123-129 | intervals follow the closed formula, never decrease, and each schedule is a prefix of the longer ones |
| MaintenanceEnvelope.JobIdExactly | apps/api/src/rvc_manager_api/maintenance_queue.py:49-49 | a job id is the prefix followed by exactly 64 lower-case hexadecimal digits |
| MaintenanceEnvelope.RunIdExactly | apps/api/src/rvc_manager_api/maintenance_queue.py:132-138 | five hyphenated groups of 8, 4, 4, 4 and 12 characters are a run id exactly when all are lower-case hexadecimal digits |
| MaintenanceEnvelope.RunIdSplits | apps/api/src/rvc_manager_api/maintenance_queue.py:132-138 | every run id is of that form |
| MaintenanceEnvelope.WrittenIsAccepted | apps/api/src/rvc_manager_api/maintenance_queue.py:389-421 | every job the enqueuer writes is accepted in the exact and the generic mode, and stays accepted through any number of retries |
| MaintenanceEnvelope.ExactAcceptance | apps/api/src/rvc_manager_api/maintenance_queue.py:141-239 | the exact mode accepts a job if and only if it is what the enqueuer writes for these arguments, after some number of retries |
| MaintenanceEnvelope.ExactIsKept | apps/api/src/rvc_manager_api/maintenance_queue.py:141-239 | a job accepted for the caller's arguments is accepted by the worker too, and stays accepted for them through a retry |
| MaintenanceEnvelope.GenericAcceptance | apps/api/src/rvc_manager_api/maintenance_queue.py:141-239 | the generic mode accepts a job if and only if it is what the enqueuer writes for some task, run and attempt count |
| MaintenanceQueue.QuarantineIsExact | apps/api/src/rvc_manager_api/maintenance_queue.py:50-79 | quarantine removes a job exactly when it is not started, intermediate or executing and the wip set is small enough; it then erases every trace of the id and nothing of any other, and otherwise changes nothing |
| MaintenanceQueue.BelongsExactly | apps/api/src/rvc_manager_api/maintenance_queue.py:61-74 | an entry of the wip set belongs to exactly the id before its colon |
| MaintenanceQueue.Server.QuarantineScript | apps/api/src/rvc_manager_api/maintenance_queue.py:50-79 | the script's effect and verdict are those of the specification the quarantine results are proved about |
| MaintenanceQueue.ActiveMeansOnePlace | apps/api/src/rvc_manager_api/maintenance_queue.py:271-288 | a job found active is in exactly one active place, the one reported |
| MaintenanceQueue.ActiveIsFound | apps/api/src/rvc_manager_api/maintenance_queue.py:271-288 | a stored job is found active in a place exactly when its status and the lists of the store say so |
| MaintenanceQueue.PushKeepsInv | apps/api/src/rvc_manager_api/maintenance_queue.py:389-421 | enqueueing an id without a job hash puts an acceptable job into the queue and nowhere else, and affects no other id |
| MaintenanceQueue.StaleLinksPoison | apps/api/src/rvc_manager_api/maintenance_queue.py:389-421 | a newly written job is acceptable if and only if no dependency key of its id was left behind |
| MaintenanceQueue.Server.ExistingJob | apps/api/src/rvc_manager_api/maintenance_queue.py:343-387 | returns an acceptable job in exactly one place without changing anything, or quarantines what was not busy and leaves no trace of it; fails exactly for a stored job that can be neither reused nor removed |
| MaintenanceQueue.Server.PushOrRecheck | apps/api/src/rvc_manager_api/maintenance_queue.py:458-490 | after a store call that failed with or without effect, a returned job is acceptable and in exactly one place |
| MaintenanceQueue.Server.EnqueueCleanup | apps/api/src/rvc_manager_api/maintenance_queue.py:423-497 | an acceptable job that is started, queued or scheduled according to the store is returned in its place and nothing changes; a returning enqueue leaves exactly one acceptable active job; a busy job is never touched; no other id is affected; when the library's call does not fail, store and answer are determined |
| MaintenanceQueue.Server.EnqueueTwice | apps/api/src/rvc_manager_api/maintenance_queue.py:423-497 | enqueueing again what an enqueue has returned finds it in the same place and changes nothing |
| MaintenanceRaces.ProbesFind | apps/api/src/rvc_manager_api/maintenance_queue.py:271-288 | on a store that stays as it is, the probes find an active job exactly in its place |
| MaintenanceRaces.AloneIsSequential | apps/api/src/rvc_manager_api/maintenance_queue.py:343-497 | with nothing beside it, the enqueue of the interleavings leaves the same store and gives the same answer as the sequential one |
| MaintenanceRaces.PlacesAfterWorkerStep | apps/api/src/rvc_manager_api/rq_worker.py:91-184 | every worker and scheduler step, rejections before and after preparation and stops included, keeps each id in at most one active place and creates no job hash |
| MaintenanceRaces.CarriedThroughWorkerStep | apps/api/src/rvc_manager_api/rq_worker.py:91-184 | no worker or scheduler step takes acceptability from a stored job: an acceptable one is not rejected, and a retry leaves it acceptable |
| MaintenanceRaces.RejectionIsFinal | apps/api/src/rvc_manager_api/rq_worker.py:91-117 | a rejected job is failed, in no active place, without a retry, and its id cannot be enqueued again while its result is there |
| MaintenanceRaces.AdvanceKeepsInv | apps/api/src/rvc_manager_api/maintenance_queue.py:343-497 | one access of an enqueue keeps the invariant, changes nothing about other ids, and nothing at all while its job is busy |
| MaintenanceRaces.StepKeepsInv | apps/api/src/rvc_manager_api/maintenance_queue.py:271-497 | every step of every interleaving of enqueues and workers keeps the invariant |
| MaintenanceRaces.AtMostOnePlace | apps/api/src/rvc_manager_api/maintenance_queue.py:271-497 | over every interleaving, starting without enqueues from a store where each id is in at most one active place and no listed id or dependency key lacks its job hash, a job id is in at most one active place |
| MaintenanceRaces.BusyJobsAreLeftAlone | apps/api/src/rvc_manager_api/maintenance_queue.py:290-341 | over every interleaving an enqueue never changes the store while its job is started, dequeued or executing |
| MaintenanceRaces.ReturnedJobsWereActive | apps/api/src/rvc_manager_api/maintenance_queue.py:432-490 | over every interleaving, for a job that an enqueue returns there was one moment between the beginning of that very call and its return at which the job was in exactly the reported place and acceptable for the call's arguments |
| Publication.NamesDiffer | installers/common/publish_release_bundle.py:431-434 | final and temporary names of the pair are all different |
| Publication.Publisher.CopyTo | installers/common/publish_release_bundle.py:357-389 | a successful copy has the recorded size and exactly the source bytes, whatever the chunks and partial writes; a failed one leaves none of our files under the name unless removing it failed |
| Publication.Publisher.UnlinkIfIdentity | installers/common/publish_release_bundle.py:402-409 | a name is removed only while it is our file; other names and all bytes of ours stay; a failure is recorded as having removed the name or not |
| Publication.Publisher.Link | installers/common/publish_release_bundle.py:455-471 | a link is made only under a name that does not exist, and to our file, whether or not the call then reports it |
| Publication.Publisher.RollBack | installers/common/publish_release_bundle.py:473-479 | each counted name is removed, the archive's first, up to the first removal that reports failure; links that were not counted stay |
| Publication.RollBackAccounts | installers/common/publish_release_bundle.py:453-480 | however far the linking got, the faults recorded by the end of a rollback tell exactly which of the two files stays |
| Publication.Publisher.PublishPair | installers/common/publish_release_bundle.py:412-487 | success leaves both files with the snapshot bytes, and no file of anybody else is ever touched; a raise leaves something under the final names exactly when a link was made without being counted, the run was interrupted after a link, a name could not be rolled back, or only the removal of a temporary name went wrong; unless its own link was not counted, our archive is in no state linked without our complete checksum; temporary names go as far as their removals work; where the faults are given in advance, success and what is left are determined by them |
| Publication.RaisesWithBoth | installers/common/publish_release_bundle.py:481-487 | with one temporary name that cannot be removed and nothing else amiss, the call raises and both files are published |
| Publication.RaisesWithArchiveOnly | installers/common/publish_release_bundle.py:463-480 | with the archive's link reporting failure after it was made and nothing else amiss, the archive stays without its checksum |
| ObjectSnapshot.HeadersRoundTrip | infra/runtime/recovery_object_snapshot.py:141-161 | headers read for the inventory and sent again are the object's own headers |
| ObjectSnapshot.DescribableExactly | infra/runtime/recovery_object_snapshot.py:141-161 | an object can be described exactly when it is not locked and has no encryption or AES256, and its description keeps every header |
| ObjectSnapshot.LabelExactly | infra/runtime/recovery_object_snapshot.py:18-18 | a label is a lower-case letter and up to 31 lower-case letters, digits, underscores and hyphens |
| ObjectSnapshot.BucketNameExactly | infra/runtime/recovery_object_snapshot.py:17-17 | a bucket name has 3 to 63 lower-case letters, digits, dots and hyphens, with a letter or digit at both ends |
| ObjectSnapshot.Store.ListKeys | infra/runtime/recovery_object_snapshot.py:164-173 | lists every key of the bucket once, in sorted order, whatever order the pages come in |
| ObjectSnapshot.BackupObject | infra/runtime/recovery_object_snapshot.py:176-206 | writes one new data file and a record describing the object completely; fails exactly when the file exists or the object cannot be reproduced |
| ObjectSnapshot.NextFileIsNew | infra/runtime/recovery_object_snapshot.py:176-182 | with no hash collision among the keys of the bucket and an unused label, the next data file does not exist yet |
| ObjectSnapshot.Backup | infra/runtime/recovery_object_snapshot.py:209-241 | a finished backup describes exactly the objects of every mapped bucket; with distinct labels it finishes if and only if every mapped bucket exists, is unversioned, holds only reproducible objects and has no two keys with the same hash |
| ObjectSnapshot.LoadInventory | infra/runtime/recovery_object_snapshot.py:244-341 | accepts exactly the intact snapshots of the expected buckets: every listed file present with its size and digest, no repeated key, no unlisted file |
| ObjectSnapshot.BackupLoads | infra/runtime/recovery_object_snapshot.py:244-397 | every inventory a backup writes is accepted when loaded, and all its headers can be sent |
| ObjectSnapshot.ClearBucket | infra/runtime/recovery_object_snapshot.py:400-408 | deleting a thousand keys at a time empties the bucket, for any number of keys, and changes no other |
| ObjectSnapshot.VerifyRestored | infra/runtime/recovery_object_snapshot.py:411-440 | passes exactly when size, digest, metadata, tags and headers are those of the record |
| ObjectSnapshot.RestoreBucket | infra/runtime/recovery_object_snapshot.py:446-463 | the bucket ends up holding exactly the recorded objects, whatever it held before; fails exactly when the bucket is missing or versioned or a header cannot be sent |
| ObjectSnapshot.Restore | infra/runtime/recovery_object_snapshot.py:443-464 | finishes if and only if the snapshot is intact, every target is an unversioned bucket and every recorded header can be sent; never changes a bucket the snapshot does not name |
| ObjectSnapshot.UploadInvertsBackup | infra/runtime/recovery_object_snapshot.py:344-397 | uploading what a record says about an object gives that object back |
| ObjectSnapshot.RestoreReproduces | infra/runtime/recovery_object_snapshot.py:443-464 | restoring a backup into any store reproduces every backed-up bucket exactly and leaves all others as they were |
| RecoveryArchive.SafeMemberStaysInside | installers/manager/recovery_archive.py:117-125 | an accepted member path consists of proper components below the expected root, none of them ".." |
| RecoveryArchive.ValidatedMembers | installers/manager/recovery_archive.py:128-166 | the loop accepts exactly the archives that satisfy a condition on the whole member list, and returns the number of regular files and the sum of their sizes |
| RecoveryArchive.LookupFindsReviewed | installers/manager/recovery_archive.py:216-232 | on an unchanged archive the second-pass lookup by trimmed raw name returns the reviewed member |
| ArchiveExtraction.EnsurePrivateParents | installers/manager/recovery_archive.py:184-196 | creates exactly the missing ancestors; without system errors it succeeds exactly when nothing but directories stands above the path |
| ArchiveExtraction.WriteFile | installers/manager/recovery_archive.py:236-257 | on success the new file has exactly the member's bytes, as many as declared, whatever the read sizes; an existing file is never opened |
| ArchiveExtraction.ExtractMember | installers/manager/recovery_archive.py:217-257 | one member and its ancestors are added; without system errors this succeeds exactly when nothing is in the way |
| ArchiveExtraction.ExtractArchive | installers/manager/recovery_archive.py:199-264 | success leaves what was there plus exactly the members and the directories above them; whatever happens nothing is changed and everything new is below the root; undisturbed it succeeds if and only if the archive is acceptable, there is space, and no file is an ancestor of a member |
| ArchiveExtraction.NoFileAboveMember | installers/manager/recovery_archive.py:184-257 | after a successful extraction no file is an ancestor of another member |
| ArchiveExtraction.FileBelowFileIsAccepted | installers/manager/recovery_archive.py:128-166 | a concrete archive with a file below a file passes validation |
| ArchiveExtraction.WrittenBytes | installers/manager/recovery_archive.py:154-161 | the bytes in the extracted files are the validated sum, within the limit |
| LedgerText.LedgerReadsBack | installers/common/image_bundle.py:351-382 | a printed ledger parses back to the same map if and only if it is not empty and no path contains a line-break character |
| LedgerText.BreaksThatPass | installers/common/image_bundle.py:301-314 | the line-break characters a valid path can contain are exactly U+0085, U+2028 and U+2029 |
| LedgerText.SeparatorBreaksLedger | installers/common/image_bundle.py:301-382 | a concrete ledger with one valid path, U+2028, is printed and does not read back |
| LedgerText.ValidPathExactly | installers/common/image_bundle.py:301-314 | the valid paths are the joined components, none of them "..", without control characters or backslashes, of at most 4096 UTF-8 bytes, and not the ledger; the single dot passes too |
| LedgerText.LengthIsEncoded | installers/common/image_bundle.py:302-302 | the length that is limited is that of the text's UTF-8 encoding |
| LedgerText.EncodedReadsBack | installers/common/image_bundle.py:302-302 | the UTF-8 bytes of a character read back as its code |
| LedgerText.SplitFirstLine | installers/common/image_bundle.py:371-372 | a line without break characters is split off whole at its newline |
| LedgerText.SplitAtBreak | installers/common/image_bundle.py:371-372 | a line is split off at any break character, and a carriage return takes a newline after it along |
| LedgerText.LoadLines | installers/common/image_bundle.py:370-382 | the parsing loop computes the specified map, or fails where a line, a repeated path or the file limit stops it |
| ChecksumLedger.FilesAreTheRegularFiles | installers/common/image_bundle.py:317-348 | the inventory contains exactly the regular files except the ledger, each under its own path text |
| ChecksumLedger.RegularFileInventory | installers/common/image_bundle.py:317-348 | for any order of directory entries the stack walk returns exactly the regular files, and fails exactly for trees with a special file, an invalid path or too many entries |
| ChecksumLedger.LoadChecksumLedger | installers/common/image_bundle.py:351-382 | accepts exactly ledgers that are regular, read-only where required, of valid size and text, and returns the recorded map |
| ChecksumLedger.VerifyChecksumLedger | installers/common/image_bundle.py:385-395 | accepts a tree if and only if it can be inventoried and its files and hashes equal the ledger |
| ChecksumLedger.ChangedFileIsNoticed | installers/common/image_bundle.py:385-395 | changing the bytes of one listed file in an accepted tree makes verification fail, unless the hashes collide |
| ChecksumLedger.LedgerIsDetermined | installers/common/image_bundle.py:413-417 | the ledger text depends on the files only, not on the order they were found in |
| ChecksumLedger.NewLedgerIsAccepted | installers/common/image_bundle.py:405-436 | a newly written ledger is accepted if and only if there are files, no path breaks a line, and the sizes stay within the limits |
| ChecksumLedger.Folder.CreateLedger | installers/common/image_bundle.py:405-436 | writes the ledger of the tree without touching anything else, or changes nothing; the final verification succeeds exactly under the condition above, and a rejected ledger stays in place |
| RateLimit.Limiter.IncrementScript | apps/api/src/rvc_manager_api/rate_limit.py:14-21 | increments the live counter, or starts a new window with a new lifetime, and touches no other key |
| RateLimit.Limiter.Check | apps/api/src/rvc_manager_api/rate_limit.py:71-99 | refuses non-positive rules; otherwise admits exactly while the count is within the limit, with the matching remainder (none on a refusal) and the whole seconds left in the window as the delay |
| RateLimit.CounterIsPosition | apps/api/src/rvc_manager_api/rate_limit.py:14-21 | over every run the counter is the position of the request in its window, and expires one window length after the window's first request |
| RateLimit.FirstOfEachWindow | apps/api/src/rvc_manager_api/rate_limit.py:71-99 | each window admits exactly its first N requests |
| RateLimit.WindowsAreApart | apps/api/src/rvc_manager_api/rate_limit.py:14-21 | a later request belongs to the same window or to one opened at least a window length later |
| RateLimit.SpanBound | apps/api/src/rvc_manager_api/rate_limit.py:71-99 | over every run any half-open span of one window length contains at most 2·N − 1 admitted requests |
| RateLimit.SpanBoundIsTight | apps/api/src/rvc_manager_api/rate_limit.py:71-99 | for every limit and window length some run reaches that bound |
| QualificationEvidence.RequiredCaseIds | infra/worker/runtime/qualification.py:122-144 | the loops produce every case of the matrix |
| QualificationEvidence.SpelledTextsDiffer | infra/worker/runtime/qualification.py:122-144 | different cases have different identifiers and different report names, so that comparing the texts is comparing the cases |
| QualificationEvidence.TrainingTexts | infra/worker/runtime/qualification.py:129-130 | training methods are spelled by exactly these five texts |
| QualificationEvidence.InferenceTexts | infra/worker/runtime/qualification.py:38-38 | inference methods are spelled by exactly these four texts |
| QualificationEvidence.OperationTexts | infra/worker/runtime/qualification.py:137-143 | operations are spelled by exactly these four texts |
| QualificationEvidence.CompleteIsCounted | infra/worker/runtime/qualification.py:414-419 | as many distinct required cases as required are all of them, and no others |
| QualificationEvidence.ValidateCases | infra/worker/runtime/qualification.py:385-420 | accepts exactly the permutations of the full required set, all passed, and returns each report's reviewed hash |
| QualificationEvidence.VerifyMembers | infra/worker/runtime/qualification.py:464-507 | the streaming check with a counter, a total and the names seen accepts exactly when members and expected reports correspond one to one with every hash matching |
| QualificationEvidence.EveryCaseHasOneReport | infra/worker/runtime/qualification.py:385-507 | after both checks each required case has exactly one report in the archive, and its hash is the reviewed one |

## Left out

Not modelled:

- the web application, request routing, middleware, database tables and migrations: their code carries none of the properties above
- configuration, bootstrap, body limits, object-storage clients, PostgreSQL roles and supply-chain reports
- container formats: WAV, ZIP and tar parsing, JSON encoding and decoding of inventories, gzip; what they yield is given as values, and errors inside them are not modelled
- IEEE rounding, the K-weighting coefficients and the rounding of reported figures: filters and gates are computed over exact numbers, and loudness is any strictly increasing function of energy
- durability: `fsync` may fail but what it makes durable is not distinguished from what was written
- cryptography: hashes are functions; where a lemma needs it, the strings or keys at hand do not collide
- Unicode normalization, case folding and lower-casing: parameters, with the properties a lemma needs stated in it
- RQ library internals: dequeue, preparation, start, finish, failure, stop, retry, promotion and sweeping are assumed steps; expiry of job hashes and a work horse that dies before its job is started are not modelled
- `_extract_archive` and the bundle verifier of publish_release_bundle.py: the same shape as the recovery archive, without its second pass
- image archives, manifests and environment checks of image_bundle.py beyond the ledger
- the publishing rename of `ingest_dataset`, and the checks of the job's temporary root
- the fields of qualification.py other than cases and evidence members
- a single uploaded audio file: `State.CollectAudioStream` is the same step for it

Weaker or different on purpose:

- PcmAnalysis.ScanPcmWavLoudness: shares the frame loop of the first pass and ignores its tally, where the source repeats the loop without one
- DatasetQuality.FileRatios: states the RMS ratio through its square, so that no square root is needed
- DatasetQuality.BuildPcmLoudness: the +10 LUFS bound of the aggregate stays as a possible error, because it rests on full-scale input and the true weighting filter
- SecretProjection.Host.Project: an interrupt during a clean-up handler is a failed clean-up; several profiles of the fixed list become any list of profiles
- WorkerLease.RunKeepsInv: clocks are integers, the monotonic one never runs backwards, and the Manager's grants strictly increase; malformed lease identifiers in responses are left out
- MaintenanceEnvelope.ExactAcceptance: task paths and descriptions are named constants rather than their texts
- MaintenanceRaces.StepKeepsInv: each library or script call is one atomic step, a worker's check and rejection are one step too, and the per-job lock is taken as given
- Publication.Publisher.PublishPair: other processes may do anything except touch our files; inodes are not reused while one of our files exists
- ObjectSnapshot.Restore: data-file paths are kept as the pair of label and key hash; tags and metadata are maps; no concurrent writers
- RecoveryArchive.ValidatedMembers: header sizes are given; sparse markers are one flag
- ChecksumLedger.RegularFileInventory: unreadable directories and entries that vanish during the walk are not modelled
- RateLimit.Limiter.Check: the store's clock never runs backwards, a counter disappears at its expiry, and an unavailable store is not modelled
- QualificationEvidence.ValidateCases: case identifiers and report names are kept as the values they spell, whose spellings are proved distinct, so that textual path checks reduce to equality
- DatasetReport.BuildQualityReport: nothing changes the kept files between the two passes; rounding of the reported figures is left out
- ZipIngestion.State.CopyAndHash: reading a member never fails midway, and the hash is taken over the bytes fed to it
- ArchiveMembers.ValidateArchiveMembers: which error is reported for a rejected archive is not specified, because that does depend on the order of entries
