# ISOpropyl: verified models of its safety-critical core

ISOpropyl is a desktop and command-line tool that writes, backs up and builds bootable removable media. Its hardest
code decides things a user cannot check: whether an EFI program's image hash is on Microsoft's revocation list,
whether a cached bootloader may be trusted or deleted, whether a backup was published, whether a drive may be
overwritten now. These Dafny modules model that code and prove what it promises, for every input, every failing system
call and every interleaving.

| files | what they model |
|---|---|
| `Alignment`, `PeHeader`, `PeStreams`, `PeDigest` | the PE parser and the three image digests of `isopropyl/dbx.py`, each as the byte sequence fed to it |
| `PeFormat`, `PeTwoSections` | image files as a linker writes them, what the parser accepts of them, and a concrete image with two sections |
| `PeInvariance`, `PeSigning`, `PeSamples` | what those digests do and do not depend on; when the three layouts agree; signing and stripping; concrete images |
| `SignatureWorker` | the second PE parser, in the signature worker, and the parent's preflight |
| `StagedDbx`, `StagedShortlist` | the bounded review of staged EFI files, merging reviews, and which paths a review always covers |
| `ResponseHandoff`, `BlockQueue` | the cache's thread hand-off with a deadline, and its bounded producer/consumer queues |
| `DirectoryWalk` | the no-symlink directory walks, over a file system that other processes rework between calls |
| `CacheDeletion`, `CacheFetch` | deletion through a private quarantine, and verified download with publish-by-rename |
| `CopyExact`, `BackupPublish` | the exact and sparse copy loop, and publication without overwriting |
| `CliCancellation`, `DbxConfirmation` | the signal/watcher controller of the command line, and the worker/GUI confirmation handshake |
| `CasperGeometry`, `CasperExecutor` | partition geometry of persistence media, and the builder's run as a trace of checks and commands |
| `Common` | failure-compatible datatypes, and bytes |

How the parts are modelled. Code made of expressions is functions and lemmas. Loops and code that changes files,
descriptors or digests is methods over classes, proved against specification functions. Threads are state machines: a
step is one statement that touches shared data, and a theorem is about every run. A system call, callback or child
process that can fail does so by an arbitrary choice, and a flag (`calm`, `quiet`, `reliable`) says when none does, so
that success is pinned down too; in backups and fetches what fails is a parameter and the outcome a function of it.
SHA-256 is an arbitrary function of the byte sequence; nothing assumes it has no collisions. Deadlines are an event
that stays true once true; cancel events are only ever set.

What the proofs found, where the code does not do what one would expect; the code is modelled as it is:

- Digest agreement is not a property of the structural checks: with a gap between sections there is always a file with
  the same headers and sections on which the layouts differ (`PeInvariance.LayoutsAgreeIffGapless`).
- Stripping a signature can make an accepted image unacceptable, exactly when a rounded section reached into the
  certificate table (`PeSigning.StrippingKeepsTheHash`; such an image is `PeSamples.StrippingCanLoseAcceptance`).
- Such an image need not even be rewritten by a tool: one changed byte of its certificate table makes layouts differ
  that agreed before (`PeSigning.CertificateCanDiverge`; exact condition in `PeSigning.ExcludedBytesAreFreeExactly`).
- A sparse copy over an existing file is exact only if no hole exposes an old nonzero byte
  (`CopyExact.ExactIffHolesWereZero`); backups copy into an empty file, where it always is.
- A virtual-disk backup whose private raw capture could not be unlinked or synced raises an error that says
  `published`, although the destination was never linked (`BackupPublish.UnpublishedReportedAsPublished`; exact
  condition in `BackupPublish.ClaimIsTrueUnlessRawSyncFailed`). A workspace that can be neither opened nor removed
  survives, and the error does not say so (`BackupPublish.UnreportedWorkspace`; `BackupPublish.BackupVirtual` shows
  that this is the only way).
- One signal handled at the head of the `finally` block, before a completed result, skips both the release of the
  watcher and `close` (`CliCancellation.CloseIsLostOnlyToASignal`, `CliCancellation.OneSignalLosesTheClose`).
- If showing the second question raises after the first was answered Yes, or was not needed, the slot still hands the
  worker an acceptance (`DbxConfirmation.RaisingQuestionCountsAsConsent`). PyQt6 aborts the process after an exception
  that leaves a slot, and the repository installs no exception hook, so what the worker then does is a race with that
  abort.
- A good cached artifact is lost exactly when a call of its verification fails, its removal goes through, and then no
  exact replacement is put in place (`CacheFetch.GoodEntryIsLostExactly`; a run that loses one is
  `CacheFetch.GoodEntryIsLost`).
- The geometry of persistence media lays out drives of any size, but a plan is refused for every drive above 2 TiB,
  because the FAT32 limit is applied to the whole drive (`CasperGeometry.PlanBuiltExactly`; a 4 TiB drive in
  `CasperGeometry.LargeDrivesAreRefused`).
- The power-off attempt catches only some exception classes. Output of `lsblk` that is a list instead of an object
  raises AttributeError out of the `finally` block of a build that is complete and verified, in place of its result
  (`CasperExecutor.UnreadableTargetEscapes`). Such an exception does not say that the media is incomplete; it comes
  from nowhere else once anything was destroyed, and only after the final verification passed
  (`CasperExecutor.DestructionIsReported`).

## Model

| member | source | states |
|---|---|---|
| `Alignment.PowerOfTwoTest` | isopropyl/dbx.py:442-444 | the bit test on FileAlignment accepts exactly the powers of two |
| `Alignment.AlignUpIsLeast` | isopropyl/dbx.py:558 | the mask expression gives the least multiple of the alignment that is not below the size, so the overflow test after it cannot fire |
| `PeHeader.ParseHeader` | isopropyl/dbx.py:371-444 | a header that passes every check is well placed: CheckSum, directory entry, section table and SizeOfHeaders in order and inside the file, certificate aligned and after the headers |
| `PeHeader.ParseCoff` | isopropyl/dbx.py:371-389 | the optional header lies inside an image within the size limit, and the section limit holds |
| `PeHeader.ParseSecurityDirectory` | isopropyl/dbx.py:424-440 | offset and size are both zero or both nonzero; a table is 8-byte aligned, inside the file and after the headers |
| `PeHeader.SortByOffset` | isopropyl/dbx.py:458 | the sort is a permutation of the sections, in file order |
| `PeFormat.ParsesExactlyTheWritten` | isopropyl/dbx.py:371-444 | the header parser accepts exactly the images a linker writes, field after field, of a supported machine, with headers and certificate where they belong; and it reads every field of each of them |
| `PeFormat.WrittenIsParsed` | isopropyl/dbx.py:371-444 | a round trip: the header of every image written from its fields is those fields |
| `PeFormat.WrittenSectionsAreRead` | isopropyl/dbx.py:446-457 | a round trip for section tables of any length: 40-byte entries written one after another are read back as those sections |
| `PeFormat.ParsedIsWritten` | isopropyl/dbx.py:371-444 | every accepted image is, byte for byte, what a linker writes from the fields in it |
| `PeDigest.ReadSections` | isopropyl/dbx.py:446-457 | the section loop succeeds exactly when every section with raw data is inside the file and after the headers, and collects all of them |
| `PeDigest.CheckPlacement` | isopropyl/dbx.py:459-472 | the sweep and the certificate checks pass exactly for disjoint sections followed by a terminal certificate table |
| `PeDigest.HashRange` | isopropyl/dbx.py:347-359 | chunked feeding equals feeding the whole range; the range error occurs exactly for a range outside the image |
| `PeDigest.HashCatalog` | isopropyl/dbx.py:474-503 | the first pass feeds the catalog stream and never meets a range outside the image |
| `PeDigest.HashReference` | isopropyl/dbx.py:510-536 | the second pass feeds headers, sections and the rest; its size guard (531-532) is proved dead |
| `PeDigest.HashRufus` | isopropyl/dbx.py:541-573 | the third pass feeds the rounded sections, and its checks pass exactly when the rounded sections stay disjoint and inside the file |
| `PeDigest.PeAuthenticodeSha256` | isopropyl/dbx.py:362-590 | an error exactly for images that are not accepted; a digest exactly for accepted UEFI images, and it is the hash of the catalog stream |
| `PeDigest.PlacedSections` | isopropyl/dbx.py:446-472 | the loop's checks on the table order say the same about the sorted order |
| `PeDigest.ChainedIffLaid` | isopropyl/dbx.py:459-463 | comparing each section with its predecessor is the same as pairwise disjointness in file order |
| `PeStreams.StructuralFits` | isopropyl/dbx.py:490-491 | after the structural checks the guards at 490-491 and 531-532 can never fire |
| `PeStreams.StreamLengths` | isopropyl/dbx.py:474-573 | all three streams have the same length, file size minus certificate, minus 4, minus 8 with a directory, gaps or not |
| `PeStreams.CatalogCoversTheRest` | isopropyl/dbx.py:474-503 | the catalog layout covers each byte outside CheckSum, directory entry and certificate exactly once, in file order |
| `PeStreams.GaplessLayoutsAgree` | isopropyl/dbx.py:446-573 | sections without gaps make the three streams one byte sequence |
| `PeStreams.GaplessRounded` | isopropyl/dbx.py:557-568 | without gaps, rounding moves no section and lengthens only the last |
| `PeStreams.SamePositionsIffGapless` | isopropyl/dbx.py:474-536 | the reference layout reads the catalog's positions in the catalog's order if and only if there is no gap |
| `PeInvariance.LayoutsAgreeIffGapless` | isopropyl/dbx.py:446-590 | for given headers and sections the layouts agree for every file content if and only if the sections leave no gap |
| `PeInvariance.GapCanDiverge` | isopropyl/dbx.py:505-583 | a gap can always be filled so that the layouts differ, by changing one byte |
| `PeInvariance.GaplessIsAccepted` | isopropyl/dbx.py:574-583 | without gaps the digests agree whatever the hash function, so the image is accepted |
| `PeInvariance.Reparse` | isopropyl/dbx.py:371-444 | rewriting CheckSum and the directory entry changes nothing the parser reads but the entry; it is accepted exactly when the new entry is good |
| `PeInvariance.TransferAcceptance` | isopropyl/dbx.py:446-590 | an accepted image stays accepted with the same hash when only excluded bytes change and no rounded section reaches the certificate |
| `PeInvariance.GaplessRoundsBeforeCertificate` | isopropyl/dbx.py:557-570 | without gaps no rounded section reaches the certificate |
| `PeSigning.ExcludedBytesDoNotMatter` | isopropyl/dbx.py:474-503 | changing only CheckSum and certificate bytes leaves the hash unchanged whenever both images are accepted |
| `PeSigning.CertificateCanDiverge` | isopropyl/dbx.py:557-583 | when a rounded section reaches into the certificate table, one changed certificate byte makes the layouts differ, with the same headers and sections |
| `PeSigning.ExcludedBytesAreFreeExactly` | isopropyl/dbx.py:474-583 | agreeing layouts keep agreeing for every change of CheckSum and certificate bytes if and only if no rounded section reaches into the table |
| `PeSigning.SigningKeepsTheHash` | isopropyl/dbx.py:424-440 | appending a table to an accepted unsigned image is accepted exactly for a length that is a multiple of 8 and within the limit, and then with the hash it had |
| `PeSigning.StrippingKeepsTheHash` | isopropyl/dbx.py:470-503 | removing the terminal table and zeroing its entry keeps the hash; the result is accepted exactly when no rounded section reached into the table |
| `PeSigning.StrippingUndoesSigning` | isopropyl/dbx.py:424-440 | stripping a signed image gives back the original bytes |
| `PeSamples.AcceptedImageExists` | isopropyl/dbx.py:362-590 | a concrete image is accepted whatever the hash function |
| `PeTwoSections.TwoIsAccepted` | isopropyl/dbx.py:446-590 | a concrete 64-bit image is accepted whatever the hash function, with two sections that come in the file in the other order than in the table |
| `PeSamples.DivergentImageExists` | isopropyl/dbx.py:577-583 | a concrete file with a gap passes every structural check and its layouts differ |
| `PeSamples.SignedImageExists` | isopropyl/authenticode_worker.py:182-252 | a concrete signed image keeps its hash, passes the signature worker, and strips back to the original |
| `PeSamples.StrippingCanLoseAcceptance` | isopropyl/dbx.py:557-573 | a concrete accepted signed image is not accepted once its signature is stripped, whatever the hash function |
| `SignatureWorker.SameDirectory` | isopropyl/authenticode_worker.py:208-237 | the worker's walk through the headers finds the directory entry the DBX parser found |
| `SignatureWorker.ParsersAgree` | isopropyl/authenticode_worker.py:182-252 | on images the DBX parser reads, the worker accepts exactly the range left out of the hash, filled by one entry up to fewer than 8 zero bytes |
| `SignatureWorker.PreflightAcceptsExactly` | isopropyl/authenticode.py:183-233 | the preflight passes exactly for a table with one complete PKCS#7 entry that fills it, aligned and inside the image, and hands over that entry |
| `SignatureWorker.WorkerFactsPassPreflight` | isopropyl/authenticode.py:183-233 | facts the worker accepts pass the parent's preflight exactly when entry offset equals table offset |
| `SignatureWorker.CertificateChecked` | isopropyl/authenticode_worker.py:239-252 | the header and padding checks succeed exactly for one complete entry followed by zero bytes |
| `StagedDbx.AssessStagedDbx` | isopropyl/dbx.py:632-720 | for any list of files the loop builds the ranked review, and fails only by cancellation or for a path the result types refuse |
| `StagedDbx.AssessScannedTree` | isopropyl/dbx.py:632-720 | for every scanned tree the review is built and valid; only cancellation can fail it |
| `StagedDbx.ScannedInventoryIsReportable` | isopropyl/staging_tree.py:218-307 | whatever tree the scan accepts, no path can be refused by the result types |
| `StagedDbx.ScannedFilesArePresentable` | isopropyl/staging_tree.py:150-164 | every scanned file has a nonempty one-line path, the join of accepted components |
| `StagedDbx.InspectSelected` | isopropyl/dbx.py:673-709 | payloads, issues, exclusions and completeness of the shortlist, for every mix of inspection results |
| `StagedDbx.ReviewIsValid` | isopropyl/dbx.py:160-190 | for files however obtained the review passes its own constructor exactly when every reported path is nonempty and every inconclusive one is on one line |
| `StagedDbx.CompleteMeansEveryFileSettled` | isopropyl/dbx.py:671-709 | complete exactly when there are at most 64 candidates and every `.efi` file was assessed or excluded |
| `StagedDbx.ShortlistKeepsTheLowest` | isopropyl/dbx.py:646-672 | the 64 kept are the lowest ranked of the whole inventory |
| `StagedDbx.Rank` | isopropyl/dbx.py:671 | the sort by priority and key is an ordered permutation |
| `StagedShortlist.BootLoadersAreReviewed` | isopropyl/dbx.py:646-709 | with at most 64 files `efi/boot/boot*.efi` staged, each of them is on the shortlist and in the review, whatever else was staged |
| `StagedShortlist.LoadersThenManagers` | isopropyl/dbx.py:656-671 | in the ranked inventory only boot loaders come before a boot loader, and only loaders and the three named managers before a manager |
| `StagedShortlist.SampleOrder` | isopropyl/dbx.py:646-671 | five concrete files, and the order in which the four candidates among them are reviewed |
| `StagedDbx.MergeIsValid` | isopropyl/dbx.py:197-215 | any nonempty list of valid analyses merges to a valid one, complete exactly when all are |
| `StagedDbx.MergeIsAssociative` | isopropyl/dbx.py:197-215 | merging in groups is merging at once |
| `ResponseHandoff.InvHolds` | isopropyl/bootloaders.py:1411-1474 | every statement of either thread, and cancellation and the deadline, keep the joint invariant |
| `ResponseHandoff.ResponseHasOneFate` | isopropyl/bootloaders.py:1411-1474 | in every interleaving an opened response is returned or closed, never both, never twice, and exactly one of them once both threads stopped |
| `ResponseHandoff.LastLookDecides` | isopropyl/bootloaders.py:1463-1474 | a caller returned exactly if it had received a response and the deadline had not passed at its last look at the clock; otherwise it gave up waiting, received an error, or closed a late response |
| `ResponseHandoff.RaisingHasAReason` | isopropyl/bootloaders.py:1411-1474 | a caller raises only when cancelled, past the deadline, or when the connection attempt failed |
| `ResponseHandoff.TimelyResponseIsReturned` | isopropyl/bootloaders.py:1411-1474 | a concrete undisturbed run returns the response |
| `ResponseHandoff.LateResponseIsClosed` | isopropyl/bootloaders.py:1463-1470 | a concrete run in which the caller closes a response that came too late |
| `ResponseHandoff.AbandonedResponseIsClosed` | isopropyl/bootloaders.py:1420-1436 | a concrete run in which the caller is cancelled and the connecting thread closes the response |
| `ResponseHandoff.FateIsFinal` | isopropyl/bootloaders.py:1411-1474 | no flag is taken back and a finished caller stays finished |
| `ResponseHandoff.WorkerWindsDown` | isopropyl/bootloaders.py:1411-1474 | once the caller is done the connecting thread is never stuck and always comes nearer to its end |
| `ResponseHandoff.DeadlineEndsTheWait` | isopropyl/bootloaders.py:1411-1474 | past the deadline each step of the caller brings it nearer to returning or raising |
| `ResponseHandoff.CancellationEndsTheWait` | isopropyl/bootloaders.py:1446-1462 | so does each step once cancelled, and a caller that is not done can always step |
| `BlockQueue.YieldedIsPrefixOfRead` | isopropyl/bootloaders.py:1234-1303 | in every schedule the blocks yielded are a prefix of the bytes read, within the bound, and the queue holds at most two messages |
| `BlockQueue.NormalEndIsComplete` | isopropyl/bootloaders.py:1477-1547 | a generator that ends normally has yielded everything read, and the data had ended |
| `BlockQueue.LeavingEarlyHasAReason` | isopropyl/bootloaders.py:1515-1547 | a generator left without cancellation, deadline, failing read or closing caller ended normally and yielded everything |
| `BlockQueue.TakenBlocksAreYielded` | isopropyl/bootloaders.py:1531-1540 | a block taken from the queue is the next one yielded, exactly unless the deadline passed by the second look |
| `BlockQueue.UndisturbedReadEnds` | isopropyl/bootloaders.py:1234-1303 | for either reader a concrete run that yields its block and ends normally; the descriptor reader stops at its bound without another read |
| `BlockQueue.LateBlockIsDropped` | isopropyl/bootloaders.py:1531-1534 | a concrete run in which a block taken in time is not yielded because the deadline passed before the second look |
| `BlockQueue.AtMostOneLateMessage` | isopropyl/bootloaders.py:1246-1253 | after the consumer leaves the producer publishes at most one more message |
| `BlockQueue.ConsumerWindsDown` | isopropyl/bootloaders.py:1515-1547 | once cancelled or past the deadline every step of the consumer brings it nearer to its end |
| `BlockQueue.ProducerWindsDown` | isopropyl/bootloaders.py:1503-1513 | after the consumer leaves every step of the producer brings it nearer to its end |
| `DirectoryWalk.OpenAbsoluteDirectoryNofollow` | isopropyl/bootloaders.py:337-367 | whatever others do and whatever fails: the descriptor returned was reached from the root by opening, one after the other, what each name was at that moment, a real directory; nothing is made; nothing else stays open. Undisturbed it succeeds exactly for a path that resolves to a directory, and says Missing exactly for a free name |
| `DirectoryWalk.OpenOrCreateAbsoluteDirectoryNofollow` | isopropyl/bootloaders.py:370-420 | the same for the creating walk; each directory it makes is put at a name that was free and changes no other entry; it never reports a missing path, and undisturbed succeeds exactly for an absolute path other than "/" (so "//" too) of plain names that nothing blocks |
| `DirectoryWalk.Enter` | isopropyl/bootloaders.py:343-361 | one component: the held descriptor is replaced by that of the directory the name led to when it was opened, or everything is closed |
| `DirectoryWalk.MakingSparesTheRest` | isopropyl/bootloaders.py:388-402 | a directory made at a free name leaves every existing entry of every directory as it was |
| `DirectoryWalk.FailedRightly` | isopropyl/bootloaders.py:344-353 | undisturbed, a walk that stops at a component stops for what the whole path resolves to |
| `DirectoryWalk.TrackedOn` | isopropyl/bootloaders.py:382-419 | each component keeps the walk where the path leads, in the tree it started on or in directories it made |
| `DirectoryWalk.Swap` | isopropyl/bootloaders.py:354-361 | a failing close gives up both descriptors, each closed once |
| `CacheDeletion.DeleteResource` | isopropyl/bootloaders.py:657-821 | a deletion dropped the last link of the regular file that was opened at the cache name, with the size two looks agreed on; a refusal relinked or kept what it isolated; a surviving quarantine is reported; no descriptor stays open; undisturbed, the outcome is decided by the entry alone and nothing else goes; the issues are exactly the failed closing, removing and synchronising calls, in order |
| `CacheDeletion.IsolateAndDelete` | isopropyl/bootloaders.py:765-812 | the same from the isolating rename on, with the size of the bound file reported |
| `CacheDeletion.Revalidate` | isopropyl/bootloaders.py:780-798 | passes only when the isolated entry is the opened regular file and the quarantine holds its only link, and always then when undisturbed |
| `CacheDeletion.RenameKeepsTheLink` | isopropyl/bootloaders.py:765-768 | the isolating rename keeps the link count, so a single-link file is still one |
| `CacheDeletion.RestoreQuarantinedEntry` | isopropyl/bootloaders.py:622-654 | the quarantined link is dropped only after the entry was linked back at a free name; the note says how far it got |
| `CacheDeletion.FinishQuarantine` | isopropyl/bootloaders.py:673-699 | never drops the artifact; a quarantine that remains is among the issues |
| `CacheDeletion.OtherLinksAreSpared` | isopropyl/bootloaders.py:622-812 | no step of a call changes a link outside the quarantine other than the isolated one, so nothing at the cache name is overwritten |
| `CacheDeletion.LastLinksAreKept` | isopropyl/bootloaders.py:622-812 | no step takes the last link of any file, except the final one of a deletion, and the drop of the quarantined link when somebody else has unlinked the restored one |
| `CacheDeletion.RefusalKeepsTheFile` | isopropyl/bootloaders.py:701-709 | a refused call alone ends with the file under its name, in the quarantine, or both, as the note says |
| `CacheDeletion.DeletionRemovesTheLastLink` | isopropyl/bootloaders.py:792-812 | after a deletion nothing names the file, and alone exactly the one entry is gone |
| `CacheDeletion.OneLinkIsAlone` | isopropyl/bootloaders.py:792-796 | a link count of one seen through the quarantine means no other link exists |
| `CacheFetch.FetchResource` | isopropyl/bootloaders.py:1550-1711 | for every failure and cancellation point the cache directory and the outcome are the ones the end function names; the private file never outgrows the cataloged size and survives only a failing unlink |
| `CacheFetch.VerifyResourceAt` | isopropyl/bootloaders.py:1355-1399 | raises exactly when the reading it got to is interrupted; otherwise true if and only if the entry is a single-link regular file of the exact size and digest and no call of the verification failed |
| `CacheFetch.DiscardInvalid` | isopropyl/bootloaders.py:1594-1611 | a directory, or a failing inspection or unlink, leaves the cache as it was; otherwise the entry is gone |
| `CacheFetch.Download` | isopropyl/bootloaders.py:1613-1679 | succeeds exactly when nothing fails and the received stream is exact, and then the private file holds all of it |
| `CacheFetch.ReceiveAll` | isopropyl/bootloaders.py:1645-1673 | at every return at most the cataloged size was written; on success exactly the received stream |
| `CacheFetch.Publish` | isopropyl/bootloaders.py:1680-1692 | the rename replaces the cache name by the private file or nothing changes |
| `CacheFetch.EveryEndIsTrustworthy` | isopropyl/bootloaders.py:1550-1711 | for every failure pattern the cache name ends as it was, absent, or naming exactly the received stream of cataloged size and digest; a returned path is good; no other name and no directory is touched |
| `CacheFetch.UndisturbedFetch` | isopropyl/bootloaders.py:1550-1711 | when nothing fails a fetch succeeds exactly for a good entry, or an exact stream that no directory obstructs |
| `CacheFetch.GoodEntryIsLostExactly` | isopropyl/bootloaders.py:1586-1611 | the exact condition under which a good entry is lost: its verification fails, it is removed, and no exact replacement is put in place |
| `CacheFetch.GoodEntryIsLost` | isopropyl/bootloaders.py:1394-1399 | a concrete run that loses one |
| `CacheFetch.RunsKeepTheCacheTrustworthy` | isopropyl/bootloaders.py:1550-1711 | after any number of fetches with undisturbed verifications and any other failures, an entry once returned stays good |
| `ShortWrites.WriteAll` | isopropyl/authenticode.py:236-242 | for every sequence of short writes, success means all bytes in order, failure a proper prefix |
| `CopyExact.Copy` | isopropyl/backup.py:152-178 | for every sequence of short reads exactly `total` bytes are consumed, the holes are exactly the all-zero blocks when sparse, and none otherwise, progress rises strictly to `total`, and the loop ends; when nothing fails it ends in success exactly for a source that is long enough |
| `CopyExact.CopyToEmpty` | isopropyl/backup.py:152-178 | into an empty file sparse and dense copies both give the first `total` bytes of the source |
| `CopyExact.ExactIffHolesWereZero` | isopropyl/backup.py:172-178 | over an existing file the copy is exact if and only if no hole covers an old nonzero byte |
| `BackupPublish.CommitWithoutOverwrite` | isopropyl/backup.py:324-363 | for every failure of link, unlink and fsync, and a racing file at the destination: never replaces an entry, and reports publication truthfully |
| `BackupPublish.CaptureBound` | isopropyl/backup.py:365-513 | the result as a function of what failed; a normal return has the destination naming the whole capture and no private file; a surviving private file is reported with a true claim |
| `BackupPublish.CleanupWorkspace` | isopropyl/backup.py:702-736 | reports clean exactly when the workspace is gone, which it is only once it was empty; touches nothing else |
| `BackupPublish.CaptureAndPublish` | isopropyl/backup.py:1153-1214 | the failure and `published` as functions of what failed, and the destination linked exactly when `published` |
| `BackupPublish.BackupVirtual` | isopropyl/backup.py:1077-1252 | existing entries are never changed; a normal return exactly when the destination was free and no step up to publication, no removal and no child failed, and then the destination names the whole container and nothing else is left; a surviving workspace is reported with a true claim, except one that could be neither opened nor removed |
| `BackupPublish.UndisturbedBackup` | isopropyl/backup.py:1077-1252 | a concrete run in which nothing fails completes and leaves the container and nothing else |
| `BackupPublish.ClaimIsTrueUnlessRawSyncFailed` | isopropyl/backup.py:1203-1214 | an error that claims publication is true exactly when the raw capture's own unlink and sync succeeded |
| `BackupPublish.UnpublishedReportedAsPublished` | isopropyl/backup.py:356-363 | a concrete run: nothing linked, nothing left, and the error still claims publication |
| `BackupPublish.UnreportedWorkspace` | isopropyl/backup.py:1131-1140 | a concrete run that leaves the workspace behind and does not report it |
| `CliCancellation.InvHolds` | isopropyl/cli.py:140-238 | every statement of the main thread and the watcher, and every signal, keep the controller's invariant |
| `CliCancellation.CallsAreNotInterrupted` | isopropyl/cli.py:209-238 | inside every active call on a bound workflow a signal only sets the event; calls never nest, and the destructive call is not entered with a signal pending |
| `CliCancellation.ExecuteNeedsConsent` | isopropyl/cli.py:583-591 | execute starts only after the plan's exact phrase was read and confirmed, and once |
| `CliCancellation.WatcherCancelsOnce` | isopropyl/cli.py:154-193 | the watcher calls cancel at most once, only after a signal, and never after release returned |
| `CliCancellation.JoinEnds` | isopropyl/cli.py:183-193 | the join in release ends: the watcher can always step, each of its steps brings it nearer to its end, and no other step or signal takes it further away |
| `CliCancellation.SuccessIsLatched` | isopropyl/cli.py:590-637 | after the authoritative result `_run_write` returns OK whatever signals come, unless close raises |
| `CliCancellation.OkMeansWritten` | isopropyl/cli.py:555-637 | OK is returned for nothing else |
| `CliCancellation.WrongPhraseIsRefused` | isopropyl/cli.py:583-591 | another phrase than the plan's confirms and executes nothing and ends as a refusal, or as a write failure or an exception when the notice, a signal or close raised; nothing else ends as a refusal once the workflow is made |
| `CliCancellation.WrongPhraseExists` | isopropyl/cli.py:583-591 | a concrete run in which a wrong phrase is refused and the workflow closed |
| `CliCancellation.CodesHaveCauses` | isopropyl/cli.py:575-622 | the code of a cancelled write comes exactly from a call that raised a cancellation, that of a failed one exactly from a call, a plan or a result that failed; a pending signal found by a check escapes |
| `CliCancellation.RaisedCodesAreReturned` | isopropyl/cli.py:617-637 | concrete runs in which preparation is cancelled or fails close the workflow and return the code of each |
| `CliCancellation.UndisturbedRunSucceeds` | isopropyl/cli.py:555-637 | a concrete run without signals writes, closes once and returns OK |
| `CliCancellation.CloseIsLostOnlyToASignal` | isopropyl/cli.py:625-637 | the workflow is closed at most once, and not at all exactly when a signal is handled at the head of the `finally` block before a completed result |
| `CliCancellation.OneSignalLosesTheClose` | isopropyl/cli.py:625-637 | a concrete run that loses the close and leaves the watcher running |
| `DbxConfirmation.InvHolds` | isopropyl/app.py:810-855 | every statement of worker and slot, and cancellation, keep the handshake's invariant |
| `DbxConfirmation.ProceedingNeedsConsent` | isopropyl/app.py:9041-9061 | the writer goes on only with nothing to review, or all needed answers Yes and cancel unset at the worker's last check, or after a second question that raised |
| `DbxConfirmation.AnswerDecides` | isopropyl/app.py:9055-9060 | the worker goes on exactly for full consent |
| `DbxConfirmation.LastStepDecides` | isopropyl/app.py:9016-9061 | the worker goes on only from a clean assessment or an accepted answer, and abandons only because the assessment raised, it was cancelled, or the answer was no |
| `DbxConfirmation.NoNeedlessQuestion` | isopropyl/app.py:9041 | a complete analysis without new matches is never asked about |
| `DbxConfirmation.CleanAnalysisProceeds` | isopropyl/app.py:9041-9061 | a concrete run goes on at once with such an analysis |
| `DbxConfirmation.ConsentProceeds` | isopropyl/app.py:810-855 | a concrete run with two questions answered Yes goes on |
| `DbxConfirmation.NoStaleQuestion` | isopropyl/app.py:813-817 | with cancellation on the GUI thread only, no question opens for an abandoned request |
| `DbxConfirmation.FreeCancellationOpensAStaleQuestion` | isopropyl/app.py:9049-9055 | a concrete run in which cancellation from another thread opens one |
| `DbxConfirmation.RaisingQuestionCountsAsConsent` | isopropyl/app.py:818-855 | a concrete run in which the slot accepts without an answer to the second question and the worker goes on before the process is aborted |
| `DbxConfirmation.CancellationEndsTheWait` | isopropyl/app.py:9049-9055 | once cancelled the worker ends by itself |
| `DbxConfirmation.SlotAlwaysDecides` | isopropyl/app.py:810-855 | a delivered request always gets its decision |
| `CasperGeometry.GeometryKeepsThePromise` | isopropyl/casper_media.py:685-713 | both partitions nonempty, 1 MiB aligned, adjacent, outside both partition tables, exact persistence size, less than 1 MiB unused at the end |
| `CasperGeometry.PromiseIsUnique` | isopropyl/casper_media.py:685-713 | no other layout meets that promise |
| `CasperGeometry.AcceptedExactly` | isopropyl/casper_media.py:690-713 | the exact condition under which the geometry accepts, as a smallest device size in bytes for each sector size |
| `CasperGeometry.ValidateExplicitGeometry` | isopropyl/formatting.py:914-926 | the general check accepts exactly partitions in range, in order and disjoint |
| `CasperGeometry.GeometryPassesTheCheck` | isopropyl/casper_media.py:716-747 | it never rejects a computed geometry |
| `CasperGeometry.ValidPlansAreBuiltPlans` | isopropyl/casper_media.py:804-847 | the plans that validate are exactly the plans that are built |
| `CasperGeometry.ValidLayoutsKeepThePromise` | isopropyl/casper_media.py:716-747 | in bytes, for every valid plan: data starts at 1 MiB, after the primary table; persistence follows at once with the size asked for; both are 1 MiB aligned and less than 1 MiB is unused before the backup table |
| `CasperGeometry.CapacitiesAreExact` | isopropyl/casper_media.py:768-801 | data, persistence and the leading 1 MiB add up to the last aligned boundary before the backup table |
| `CasperGeometry.PlanBuiltExactly` | isopropyl/casper_media.py:750-801 | the exact condition under which a plan is built: sector and persistence size as the geometry wants them, a drive between the smallest that fits and 2 TiB, and content that fits the data partition |
| `CasperGeometry.LargeDrivesAreRefused` | isopropyl/formatting.py:420-423 | a 4 TiB drive has a layout, but its plan is refused for its size; the plan is built at 2 TiB and not at one byte more |
| `CasperExecutor.ExecuteMulti` | isopropyl/casper_media.py:885-964 | partition, both filesystems and the settles run in order, each after its fresh checks, those before a filesystem repeated after the boundary check |
| `CasperExecutor.Build` | isopropyl/casper_media.py:1215-1276 | power-off becomes possible only after population and a passed final verification |
| `CasperExecutor.Execute` | isopropyl/casper_media.py:1201-1325 | the checks, commands and reports of every run are a beginning of one fixed list, and the whole of it when nothing raises; commands are guarded throughout; an exception the `except` clauses see says incomplete exactly when the new partition table had been announced; any other came before everything or from the power-off attempt |
| `CasperExecutor.HandledKeepsTheKind` | isopropyl/casper_media.py:1277-1312 | exactly cancellations are reported as cancellations and exactly safety refusals as such |
| `CasperExecutor.DestructionIsReported` | isopropyl/casper_media.py:1277-1312 | once a destructive command started, every exception says the media is incomplete, unless it escaped from the power-off attempt; then the final verification was passed after population |
| `CasperExecutor.UnreadableTargetEscapes` | isopropyl/casper_media.py:1168-1199 | a run on complete and verified media that ends in an exception no clause catches, because the target cannot be read at the power-off attempt |
| `CasperExecutor.FilesystemsComeInOrder` | isopropyl/casper_media.py:936-955 | each filesystem is created once, the data filesystem first, and only after the partition table |
| `CasperExecutor.FilesystemsAreCheckedTwice` | isopropyl/casper_media.py:936-955 | before each filesystem and since the previous command, identity, sector, geometry and nodes are checked, then the boundary, then all four again |
| `CasperExecutor.CommandsAreChecked` | isopropyl/casper_media.py:885-1276 | since the previous command: identity and sector size are checked before the new partition table, both partitions before each is unmounted and before they are populated, and drive, partitions and final state before power-off |
| `CasperExecutor.PowerOffComesLast` | isopropyl/casper_media.py:1168-1199 | power-off is the last command, after the final verification and its repetition |

## Left out

- Text: error messages, their bounding and sanitizing, and the user-facing wording are not modelled; errors are constructors.
- SHA-256, Signify and ASN.1: the hash is an arbitrary function; signature verification is not part of this model.
- `casefold`, NFC normalization and `endswith` on folded names: the first two are arbitrary functions on strings.
- The DBX catalog's JSON, its lookup after the digest, inventory and size formatting: table lookups.
- The section's virtual address (dbx.py:451) is read and never used, so it is not modelled.
- Reads and guards that cannot fail (dbx.py:490-491, 531-532, 559-560 and later range tests) are proved dead instead of being branches.
- Exceptions outside class Exception (KeyboardInterrupt without the handlers, SystemExit) and failing closes, except in the directory walk and for the quarantine descriptor.
- Qt, dialogs and widgets: answers are arbitrary.
- DbxConfirmation.RaisingQuestionCountsAsConsent: the abort that PyQt6 makes after an exception leaves a slot is not a step; the run shows what the worker can do before it.
- Command lines, privilege elevation, lsblk and sfdisk parsing, and child-process supervision: each is an abstract check or command.
- `delete_cached_artifacts`, cache inventory, settings, downloads catalogs and the other media builders: they add bookkeeping, not harder properties.
- CliCancellation.WatcherCancelsOnce: does not say that a signal just before `release` reaches `cancel`, because the code does not ensure it.
- CliCancellation.InvHolds: steps are statements; a signal between the factory's return and the assignment of its result is not modelled.
- CliCancellation.SuccessIsLatched: the completion notice is taken to raise nothing but what the code around it catches.
- CacheDeletion.DeleteResource: other processes act through names outside the quarantine, and not on the quarantine's own entry; links made through another process's open descriptor are not modelled.
- CacheFetch.FetchResource: assumes no other writer in the cache directory; a check of the cancel event or the deadline, and the path revalidation, count with the call they precede or follow.
- DirectoryWalk.OpenOrCreateAbsoluteDirectoryNofollow: a lexically normal path is one without "..", because pathlib has already dropped empty and "." parts.
- BackupPublish.BackupVirtual: starts at the check of the destination; space checks, conversion and comparison are one step that may fail, and a racing file at the private names is not modelled.
- CasperGeometry.ValidPlansAreBuiltPlans: covers the parts of the plan that bind sizes; labels, tools and staging identities are not modelled.
- CasperExecutor.Execute: query subprocesses belong to the check that runs them; only commands that change the target count as started.
- StagedDbx.AssessStagedDbx: reading and assessing a file is one step with an arbitrary result.
- StagedDbx.ScannedFilesArePresentable: the scan's further refusals (device names, UTF-16 length, case collisions, limits, links, changes while scanning) are not modelled; they only reject more trees.
