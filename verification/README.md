# A verified model of ghars

ghars converges a Linux host to a declared set of GitHub Actions runners. Its hard parts are state
machines over the file system and the kernel, and one parser. This project models them and proves what
the code and its documentation promise, for every input, every errno at every call, every interleaving
and a crash in every state.

| files | what they model |
|---|---|
| `Options`, `Config`, `Text`, `Decimals`, `SortedNames` | the choice of name resolution, string operations, decimal numbers and sorted listings of the Rust standard library |
| `UnitParser`, `UnitText`, `UnitPrint`, `Discover`, `DiscoverTexts`, `Annotations` | the unit-file parser, merging of drop-ins, printing, discovery and drift, the DNS annotation |
| `FileTree`, `Disk`, `CopyTree` | a file tree with modes and symbolic links, the system calls on it, the recursive copy |
| `SafePaths`, `Extraction`, `PlainCrate` | lexical path checks against the kernel's own path walk, the extraction loop, a crate that meets what is assumed of one |
| `Layout`, `Publish`, `Install` | where an install works, the publishing routes, the whole install, crash and re-run |
| `Prune`, `StagingNames`, `StagingGc` | pruning of old versions, PID-carrying names, staging-directory collection |
| `ApplyLock`, `StagingProtocol` | the lock as a concurrent protocol; installs and collections running under it |
| `NetnsNames`, `NetnsKernel`, `NetnsStages`, `Netns` | names and addresses, a small kernel and its verbs, setup, teardown and rollback |
| `NetnsLives`, `NetnsParallel` | any sequence of setups and teardowns cut short anywhere; several instances at the same time |
| `CappedRead` | the two bounded reads |

How the models fail: a `Disk`, a netns `Host` and a download `Destination` fail nondeterministically at
each call and count it in `faults`; each keeps in `history` every state it has been in, so a statement
about all of `history` is a statement about a crash at any point. What the kernel answers to a rename is an
arbitrary function of the moment of the call; the disk's `journal` keeps every rename call with its moment and
its answer, and a host's `log` every tool it ran with the kernel before and after and what the tool answered, so
a statement about a route or a rollback is one about the answers actually given.

The tar crate is an arbitrary function on disks. `Extraction.ExtractTarball` assumes nothing of it. The install
assumes `Extraction.Contained`, of the tarball at hand only: begun in an empty directory, and as long as every
entry was done, the crate works under that directory and does not report success with the member's parent
elsewhere. What tree it makes, and whether it succeeds, may depend on the rest of the disk, as it does once an
accepted link leads out of the tree; where it does not, `Extraction.Portable`, the tree is that of the tarball alone.

What the proofs found where the code and its documentation disagree; the model follows the code:

- `src/netns.rs:897-900` promises that `EBUSY` is never taken for success. `ip netns del` on a busy namespace
  prints `Cannot remove namespace file`, one of the markers of an absent one, and is taken for success
  (`Netns.BusyNamespaceIsSwallowed`; exactly when a verb reported done has left its resource, `Netns.SwallowedExactly`;
  what a teardown that reports no error then guarantees, `Netns.TeardownInner`).
- A setup is documented as idempotent. A drop-in left by a setup with forwarded name resolution survives a
  later setup with static servers (`Netns.DropInOutlivesItsSetup`; exactly when two setups agree,
  `Netns.SameConfiguration`).
- `src/extract.rs:814-816` promises to preserve whatever the `bin` link resolves to. A link spelled `./bin.1` is
  not recognised (`Prune.DotSlashTargetIsNotProtected`; exactly when it is, `Prune.PreservedExactly`).
- `src/extract.rs:1224-1227` says that link targets with `..` are rejected. Those that stay inside the tree are
  allowed (`SafePaths.SafeMemberFilter`).
- `src/extract.rs:401-404` speaks of a link whose target, resolved, stays within the tree. The check is lexical: a
  link placed through another one may lead out though both are accepted (`SafePaths.LinksEscapeTogether`). Over
  real directories it stays inside exactly if it does so from the depth its directory really has
  (`SafePaths.InsideExactly`), so always if that is no less than the depth its path says
  (`SafePaths.AcceptedLinkInside`).
- `src/state.rs:206-207` says that an unreadable unit directory yields an empty state. Only a missing one does, an
  unreadable one is an error (`Discover.DiscoverState`).
- A report of a stale lock is only a hint: `ApplyLock.LiveHolderReportedStale`; what it does tell,
  `ApplyLock.StaleIsJustified`.
- A process whose PID does not fit an `i32` makes staging directories that are never collected
  (`StagingNames.StagingNameParses`).

## Model

| member | source | states |
|---|---|---|
| `UnitParser.FromText` | src/state.rs:591-690 | the line loop with its continuation buffer equals, for every text, the declarative reading: drop comment lines, glue continuations, interpret logical lines in order, an open buffer at the end only ever being an assignment |
| `UnitParser.Interpret` | src/state.rs:624-671 | one logical line does to the sections exactly what one more item does to the declarative grouping |
| `UnitParser.HasUnescapedTrailingBackslash` | src/state.rs:729-744 | true exactly if the number of backslashes the line ends in, no more and no fewer, is odd |
| `UnitParser.ContinuesExactly` | src/state.rs:726-744 | a line goes on exactly if it ends in an odd number of backslashes; one more turns that around |
| `UnitText.OpenByParity` | src/state.rs:596-623 | whatever text comes before it, a last line leaves the text waiting exactly if it ends in an odd number of backslashes; after an even number the next lines are read on their own |
| `UnitPrint.EscapedBackslash` | src/state.rs:726-744 | a value that ends in two backslashes comes back with both, one that ends in a single one does not come back |
| `UnitParser.ContinuesLastLine` | src/state.rs:596-623 | after gluing, whether a line goes on depends on the last raw line alone |
| `UnitParser.GlueNextLine` | src/state.rs:596-623 | what the next source line, comment or not, does to the finished lines and the open buffer |
| `UnitParser.GroupHeader` | src/state.rs:624-650 | a header opens a new section or re-opens the one of that name |
| `UnitParser.GroupAssign` | src/state.rs:652-671 | an assignment lands at the end of the current section's bucket, or nowhere before the first header |
| `UnitText.CommentsAreInvisible` | src/state.rs:596-623 | inserting a comment line at any line boundary, even inside a continuation, never changes the result |
| `UnitText.LoopInvariant` | src/state.rs:596-671 | after any number of items section names are distinct, the current section has a bucket, keys are non-empty, keys and values trimmed, and no in-section assignment is lost |
| `UnitText.ParsedItemsAreTidy` | src/state.rs:591-690 | every text yields items the invariant speaks of |
| `UnitText.ValuesOfGroup` | src/state.rs:692-705 | `values(section, key)` is the in-order list of what was assigned while that section was open |
| `UnitText.RenderMerged` | src/unit_verify.rs:342-396 | the loop builds the template followed by each body after a line break |
| `UnitText.MergedMore` | src/unit_verify.rs:342-396 | one more body is exactly one line break and that body more |
| `UnitText.MergePreservesValues` | src/unit_verify.rs:342-396 | if no part ends in an open continuation and each body opens with a header, the values of the merged text are those of the parts one after another, for every section and key |
| `UnitPrint.RoundTrip` | src/state.rs:591-724 | printing a well-formed unit and parsing it returns the same sections, keys, values and order |
| `UnitPrint.RoundTripExactly` | src/state.rs:591-724 | ... and only well-formed units come back |
| `UnitPrint.PrintedCanBeMerged` | src/unit_verify.rs:342-396 | what was printed from a well-formed unit can be merged: it waits for nothing and opens with a header |
| `SortedNames.SortedIsUnique` | src/state.rs:379-380 | a set of names has exactly one sorted listing |
| `SortedNames.SortNamesSorts` | src/state.rs:379-380 | sorting by name yields a sorted listing of the same names |
| `Discover.ReadDropIns` | src/state.rs:478-522 | whatever the listing order: all regular `.conf` files by name, or an error if one cannot be read |
| `Discover.ConfExactly` | src/state.rs:510-518 | a drop-in is what has a non-empty name, a dot and `conf` in any case, and nothing else |
| `Discover.ListInstances` | src/state.rs:340-462 | whatever the listing order: the sorted names of all regular per-instance unit files, or of all real per-pool drop-in folders |
| `Discover.NameParses` | src/state.rs:386-474 | a file name parses to a name exactly if it is that name's unit file name, or drop-in folder name, and the name is not empty |
| `Discover.DiscoverState` | src/state.rs:208-334 | a missing unit directory gives the empty state, an unreadable one an error; otherwise it succeeds exactly if every runner and every pool can be read as far as needed, and then returns the snapshot of the directory, whatever the order of listing in either pass |
| `Discover.SnapshotIsUnique` | src/state.rs:208-334 | there is only one snapshot, runners, external units and pools, so the order of enumeration does not matter |
| `Discover.SnapshotPartitions` | src/state.rs:217-334 | every regular unit file with a name is in exactly one of `runners` and `external`, every real pool folder with a name in `cache_pools`, and nothing else is |
| `Discover.DriftMeans` | src/state.rs:534-569 | a drift payload is exactly the sorted unmanaged basenames and is non-empty whenever present; the unit is called edited exactly if its text differs |
| `DiscoverTexts.OursBySaying` | src/state.rs:222-225 | a runner unit whose first `X-Ghars-Managed` in `[Unit]` is `true` is in `runners`, one where it is anything else in `external` |
| `DiscoverTexts.ForeignBySilence` | src/state.rs:709-712 | one that does not hold the key in `[Unit]` is in `external` |
| `DiscoverTexts.HashBySaying` | src/state.rs:229-237 | the hash is the first `X-Ghars-Spec-Hash` in `[Unit]` of the printed `00-ghars.conf`, empty without the file or the key |
| `DiscoverTexts.FoundByAnswers` | src/state.rs:239-245 | running exactly if systemd answers `active` of the unit of that name, enabled exactly if it answers `enabled` or `enabled-runtime`, blanks aside |
| `DiscoverTexts.DropInsFound` | src/state.rs:478-522 | the drop-ins found are exactly the regular `.conf` files of the instance's own folder, a symbolic link to it followed, each with its text; none where there is nothing |
| `DiscoverTexts.UnreadableExactly` | src/state.rs:219-228 | what makes discovery fail: an unreadable runner unit, or unreadable drop-ins of a pool or of a runner that is ours |
| `Annotations.DnsRoundTrip` | src/config.rs:1291-1362 | every DNS mode comes back from its annotation, the empty server list included |
| `Annotations.AnnotationTexts` | src/config.rs:1291-1302 | what is written: `forward`, or `static:` and the addresses with commas between them |
| `Annotations.RejectsMalformed` | src/config.rs:1336-1362 | exactly which texts are rejected |
| `Annotations.DnsThroughUnit` | src/state.rs:834-842 | the annotation survives a `[Unit]` section with other assignments and the unit parser |
| `DiskModel.Disk.CreateDirAll` | src/extract.rs:1063-1063 | every state on the way adds only ancestors; success means all of them are directories |
| `DiskModel.Disk.RemoveDirAll` | src/extract.rs:1069-1117 | every state on the way is the old tree with some entries gone and its root kept to the last; success means nothing is left; nothing else changes |
| `CopyTree.CopyDirRecursive` | src/extract.rs:1277-1325 | for any finite tree at an absent destination: success leaves there exactly the tree with directory modes masked by 0o777; every state on the way shows a beginning of that tree there and differs from the start nowhere else, so the source is unchanged; recursion ends by tree height |
| `CopyTree.CopiedExactly` | src/extract.rs:1277-1325 | the copy has the same entries, files and links as they are, directories with the nine permission bits of their mode |
| `SafePaths.IsSafeResolvedLink` | src/extract.rs:405-441 | true exactly when the target is non-empty and no prefix of the walk from the link's parent drops below depth zero; the walk's end is computed |
| `SafePaths.LexicalIsPhysical` | src/extract.rs:387-441 | over real directories a walk that passes the check is resolved by the kernel to the very place inside the root that the check computed |
| `SafePaths.UnsafeLinkEscapes` | src/extract.rs:387-441 | over real directories a walk that fails the check really leaves the root |
| `SafePaths.InsideExactly` | src/extract.rs:401-441 | over real directories a link's target stays under the root in every step exactly if the walk passes the check from the depth of the directory the link is really in |
| `SafePaths.AcceptedLinkInside` | src/extract.rs:401-441 | an accepted link ends inside the root if its directory is really at least as deep as its path says |
| `SafePaths.LinksEscapeTogether` | src/extract.rs:401-441 | two accepted links made in directories under the root, the second of which leads out of it |
| `SafePaths.SafeMemberFilter` | src/extract.rs:343-385 | which members are skipped, allowed and rejected, both ways |
| `SafePaths.SafePathHasNoParent` | src/extract.rs:443-456 | an accepted member path has no parent or root component left |
| `SafePaths.ParentIsAllButLast` | src/extract.rs:405-420 | the directory an accepted member's link is resolved from: all names of its path but the last, however many `.` and slashes stand between them |
| `SafePaths.BindsFilesystemRoot` | src/path_util.rs:25-45 | the depth counter says root exactly when the saturating normalisation ends in the empty stack |
| `SafePaths.BindsRootPhysically` | src/path_util.rs:25-45 | over real directories that is exactly when the kernel resolves the path to the root |
| `Extraction.VerifyExtractedInsideDest` | src/extract.rs:570-630 | passes exactly when the member's parent resolves under the canonical root; if it resolves elsewhere the member is removed, if it is a file, a link or an empty directory and the removal does not fail, and nothing else is touched |
| `Extraction.UnpackMember` | src/extract.rs:536-559 | success exactly if the crate unpacked the member and its parent is then under the canonical root; the states on disk are the crate's own and, for a member whose parent is elsewhere, the removal of that very member if it can be removed |
| `Extraction.ExtractTarball` | src/extract.rs:515-562 | success means that no entry was bad and the crate unpacked every accepted member, each with its parent then under the canonical root, and the disk is that of unpacking them in order; failure means that the directory could not be made or resolved, or that an entry was not done, and then every state on disk is accounted for and none belongs to a later entry, and a member that escaped is not left where it can be removed without a fault |
| `Extraction.NothingAfterBad` | src/extract.rs:530-559 | the states on disk are those of the members before a bad entry, and of at most one member before it that failed |
| `Extraction.EveryParentInside` | src/extract.rs:553-559 | every member done had its parent, resolved right after it was written, under the canonical root of the extraction |
| `Extraction.RealPathIsCanonical` | src/extract.rs:522-526 | a path of real directories is its own canonical form |
| `Extraction.QuietExtraction` | src/extract.rs:515-562 | into an empty private directory, with a crate that keeps inside for this tarball: no state differs outside it; the extraction comes to the end exactly if every entry is good and is unpacked there, and then leaves exactly the tree of the members unpacked in order, well-formed and with masked modes |
| `Extraction.TarTreeAnywhere` | src/extract.rs:515-562 | a tarball the crate deals with alike wherever it has made the same tree is good in every empty private directory or in none, and makes the same tree in all |
| `PlainCrate.PlainTarIsContained` | src/extract.rs:468-474 | a crate that makes directories, files and symbolic links and looks where the member's parent really is keeps inside for every tarball, links that lead out of the tree included |
| `PlainCrate.PlainTarIsPortable` | src/extract.rs:541-548 | it unpacks a tarball alike everywhere if, unpacked on its own, no member's parent is reached through a link that leads out of the tree |
| `PlainCrate.LinklessIsPortable` | src/extract.rs:541-548 | in particular every tarball without symbolic links |
| `PlainCrate.PlainTarInstalls` | src/extract.rs:750-766 | so it meets, for every tarball, what an install in the default place requires of a crate |
| `InstallLayout.DefaultIsSound` | src/extract.rs:723-733 | in the default place the published path and the staging area are apart whatever the runner is called, unless the trust zone is called `.staging`; an empty disk is one to start from |
| `InstallLayout.ExchangeEffect` | src/extract.rs:1069-1080 | the exchange swaps the two trees and nothing else |
| `InstallLayout.RenameEffect` | src/extract.rs:1121-1131 | the rename moves the staged tree to the published path and nothing else |
| `InstallLayout.WorldStays` | src/extract.rs:750-789 | whatever an install leaves, the next one can start from |
| `Publish.PublishFresh` | src/extract.rs:1121-1131 | the route is the one the rename's answer dictates; the plain rename turns the published path from absent to new in one state; a failing rename changes nothing; success leaves the new tree and no staging entry |
| `Publish.PublishUpgrade` | src/extract.rs:1065-1117 | by the calls made and the kernel's answers: an exchange that succeeds is the only call and the path goes from old to new in one state; one that is not supported is followed, once the old tree is removed, by exactly one plain rename, before which only what is left of the old tree is seen, and if that succeeds the whole new tree is there in the next state; only an answer that the file systems differ leads to a copy, then a beginning of the new tree is seen, never a mix; on any other answer the path is left as it is; a failure leaves no more than that |
| `Publish.DropStaging` | src/extract.rs:1075-1077 | removing the displaced tree never disturbs the new one |
| `Publish.CopyIntoPlace` | src/extract.rs:1113-1116 | copy then remove refines "published path := new tree, staging entry gone"; in between the path shows a beginning of the new tree |
| `Install.StageForPublish` | src/extract.rs:1062-1063 | everything before publishing leaves the published path as it was, in every state |
| `Install.ExtractAndSwap` | src/extract.rs:1056-1163 | the passage from the old to the new tree, by the rename calls made and the answers to them; success only for a completely unpacked tarball |
| `Install.PrepareStaging` | src/extract.rs:766-776 | success leaves an empty private staging entry in a private staging area; no state on the way changes the published path |
| `Install.InstallRunnerBinary` | src/extract.rs:750-789 | for every errno and in every state: the published path shows the old tree up to the first rename call and the new one from some state on, the same state on the atomic routes, a part of the one and then of the other in between; how, and by how many calls, is what the answers to those calls dictate; nothing else is disturbed; success means that the home was flushed once the whole new tree was there, that every entry was good and unpacked and the published path shows exactly the tree that made of the disk on which the extraction began, with mode 0755; without a fault it succeeds exactly if every entry is good there, and whatever the tarball nothing stays in the staging entry |
| `Install.PortableInstall` | src/extract.rs:750-789 | for a tarball the crate unpacks alike everywhere, whether it is good and which tree is published depends on the tarball alone |
| `Install.CrashAndRerun` | src/extract.rs:750-789 | cut short in any of its states, failed or not, then run again by the same or another process: both runs are as above; a second run that meets no fault succeeds if every entry is good, and one that succeeds leaves exactly that tarball's tree published and its staging entry gone, a tree of the tarball alone if the crate unpacks it alike everywhere; every other entry is as it was before both |
| `Install.CrashStatesAreInstallable` | src/extract.rs:766-777 | every such state meets the requirements of the next install, also under another PID |
| `Prune.PositionIsRank` | src/extract.rs:914-918 | a candidate's place in the stable newest-first order is the number of candidates ahead of it |
| `Prune.RankingIsRanked` | src/extract.rs:873-914 | listing and sorting yield all candidates, each at its rank, ties in listing order |
| `Prune.CandidatesExactly` | src/extract.rs:879-896 | what counts is a listed real directory `bin.<suffix>` whose suffix is neither empty nor `tmp`, and nothing else |
| `Prune.CollectCandidates` | src/extract.rs:873-911 | the listing loop collects exactly those |
| `Prune.RemoveExpendable` | src/extract.rs:916-942 | the removal loop touches only expendable trees, in every state, and counts those gone |
| `Prune.PruneOldBinVersions` | src/extract.rs:847-943 | for every listing, times and failing removals: only candidates beyond the kept ranks that the link does not protect go, everything else stays in every state, the count is the number gone, and without failures all such candidates go |
| `Prune.NewerSurvivors` | src/extract.rs:914-942 | every tree that may go has `keep_versions` candidates at least as new that may not |
| `Prune.NothingLeftToPrune` | src/extract.rs:847-943 | after a pass without failures the same listing offers nothing more |
| `Prune.PruneTwice` | src/extract.rs:847-943 | two passes without failures: the first removes and counts exactly the expendable trees, the second removes nothing, and every state from then on is the disk without those trees |
| `Prune.PreservedExactly` | src/extract.rs:854-869 | the link protects a tree exactly when its target is spelled as the bare name or as the home, a slash and the name |
| `Prune.DotSlashTargetIsNotProtected` | src/extract.rs:854-869 | a link spelled `./bin.1` resolves to that tree and does not protect it |
| `Decimals.I32RoundTrip` | src/apply/lock.rs:185-185 | a printed number parses as `i32` exactly up to the maximum |
| `ApplyLock.StepIsSafe` | src/apply/lock.rs:63-221 | every system call by any process keeps the invariant |
| `ApplyLock.RunsAreSafe` | src/apply/lock.rs:63-221 | the invariant holds in every reachable state |
| `ApplyLock.MutualExclusion` | src/apply/lock.rs:125-152 | at most one process is between winning and giving up the lock; the file is then private and holds that process's own PID line as far as written |
| `ApplyLock.StaleIsJustified` | src/apply/lock.rs:127-145 | a report of staleness means the file could not be read, or was read before the last winner's PID was complete, or the recorded process has exited since |
| `ApplyLock.ReportOfCompleteRecord` | src/apply/lock.rs:138-144 | for a complete record the reported PID is the last winner's, and it is called stale exactly if no process has that PID at the probe |
| `ApplyLock.ProbeReports` | src/apply/lock.rs:138-144 | zero and stale for a file that could not be read or holds no number; else the number between the blanks, stale exactly if it is zero or no process has it |
| `ApplyLock.CanAcquire` | src/apply/lock.rs:63-152 | while nobody holds the lock any new process can take it, whatever the file's mode and content; the file is then private and holds exactly its PID |
| `ApplyLock.CanTakeOver` | src/apply/lock.rs:127-145 | a holder that dies leaves the lock to whoever comes next |
| `ApplyLock.IsToldTheHolder` | src/apply/lock.rs:138-144 | in every reachable state with a holder that has written its PID, the next to come can be told that PID, and that it is alive |
| `ApplyLock.LiveHolderReportedStale` | src/apply/lock.rs:127-145 | a run in which a live holder is reported stale |
| `StagingNames.StagingNameParses` | src/apply/gc.rs:311-314 | the PID comes back for every runner and version, exactly when it fits an `i32` |
| `StagingNames.TempNameParses` | src/apply/gc.rs:322-336 | PID and counter come back for every file name, even one containing `-`, `.` or `.tmp.` |
| `StagingNames.OnlyTempNamesParse` | src/apply/gc.rs:322-336 | nothing of another shape is taken for a temporary file |
| `StagingGc.GcStaleStagingDirs` | src/apply/gc.rs:212-294 | in every state only directories with a foreign PID and an age of at least a minute are touched; after a pass without failures none is left |
| `StagingGc.CollectByAge` | src/apply/gc.rs:212-294 | by name and age: whatever fails, the tree of a directory younger than a minute, of unknown or future age, made by the collector or not named by a PID is the same in every state; without a failure every listed one that another process made and last changed a minute ago or earlier is gone |
| `StagingProtocol.StepIsSafe` | src/apply/gc.rs:212-294 | every step of lock, installs and collections keeps the joint invariant: only holders work, makers sign their directories, installs in progress have theirs, clean passes have overlooked nothing |
| `StagingProtocol.CollectsOnlyOthers` | src/apply/gc.rs:250-254 | a collection never takes what its own process made, nor what an install in progress uses |
| `StagingProtocol.InstallKeepsItsDirectory` | src/extract.rs:766-777 | in every reachable state an install in progress holds the lock and its staging directory is there |
| `StagingProtocol.CollectionSparesTheHolder` | src/apply/gc.rs:212-294 | in every reachable state no collection step removes a directory the lock holder made |
| `StagingProtocol.CleanPassLeavesNothingStale` | src/apply/gc.rs:212-294 | in every reachable state, at the end of a pass whose listing was complete and whose removals succeeded nothing in the staging area is stale for it, whatever was installed meanwhile |
| `StagingProtocol.CollectsAsOnDisk` | src/apply/gc.rs:212-294 | a step of the protocol takes an entry exactly if the loop on disk would |
| `StagingProtocol.CollectionLeavesTheInstall` | src/apply/gc.rs:250-254 | in every reachable state, no collection under the lock, whatever its listing and clock, changes the tree of the staging entry of an install in progress, in any state it leaves |
| `StagingProtocol.ClearTakesTheDead` | src/extract.rs:771-774 | in every reachable state, what an install clears away before it begins was made by its own process or by one that has exited |
| `StagingProtocol.LeftoverCanBeCollected` | src/apply/gc.rs:212-294 | what an install that died left behind, a later process can take the lock and collect once it is a minute old |
| `NetnsNames.NamesAreInjective` | src/netns.rs:195-221 | different instances share no namespace, interface or drop-in name |
| `NetnsNames.SubnetAddresses` | src/netns.rs:141-165 | accepts exactly IPv4 /30s and yields the two inner addresses |
| `NetnsNames.QuadReads` | src/netns.rs:158-164 | the text of an address is its four bytes from the top, in decimal |
| `NetnsNames.SubnetsAreDisjoint` | src/netns.rs:141-165 | different /30s have no address in common, and only those |
| `NetnsKernel.VerbKeepsTheRest` | src/netns.rs:472-656 | a verb on an instance's things changes nothing else |
| `NetnsKernel.VerbKeepsTidy` | src/netns.rs:472-735 | every verb keeps pairs mutual and in the family, and links in namespaces that exist |
| `NetnsKernel.OtherInstancesUntouched` | src/netns.rs:472-735 | hence no other instance's links, addresses, namespace or files change |
| `NetnsKernel.StripExactly` | src/netns.rs:195-221 | what is the instance's, by name: its namespace with all links in it, its two ends on the host, its drop-in and its resolv.conf |
| `NetnsStages.SettingStage` | src/netns.rs:540-640 | each later setup verb takes the kernel from one stage to the next |
| `Netns.Host.RunTool` | src/netns.rs:855-935 | a tool may fail with or without its effect; exit status zero means it did its work |
| `Netns.Wire` | src/netns.rs:500-648 | the creating verbs succeed only if nothing was in their way, and leave exactly the configured pair and namespace |
| `Netns.SetupDns` | src/netns.rs:742-804 | it succeeds exactly if nothing failed and static servers are not an empty list; success writes exactly the right files, after the resolver has read the drop-in |
| `Netns.SetupSteps` | src/netns.rs:472-656 | the verbs run in their order up to the first that fails, the two of the cleanup alone being allowed to find nothing; from every tidy kernel, also when cleanup verbs were taken for successful without being so: success reaches the configured state, the host end having the first address of the /30, the runner end the second, the route and the forwarded nameserver being the first, both ends the detected MTU or 1500; every state on the way leaves everything else alone |
| `Netns.ConfiguredIsInPlace` | src/netns.rs:472-656 | what the configured state is, in names and figures |
| `Netns.ServersInOrder` | src/netns.rs:782-796 | the lines of static servers follow each other in the order given |
| `Netns.TeardownInner` | src/netns.rs:664-740 | every step is carried out, in order, whatever failed before; the error reported is that of the first step that failed; if none did the files are gone; if every verb succeeded or found nothing to do, or at least nothing was left, the kernel is the stripped one; nothing else changes in any state |
| `Netns.Setup` | src/netns.rs:457-470 | a failed setup has stopped at its first failure and ends in a whole teardown; if every verb of that teardown succeeded or found nothing to do, whatever had failed before, nothing of the instance is left |
| `NetnsLives.Live` | src/netns.rs:457-740 | after any sequence of setups and teardowns, each cut short in any state or not, the host has been through exactly their states and calls: each event starts where the one before was left, goes on by single verbs on the instance's things, and a setup ends configured or rolled back, a teardown with all its steps carried out |
| `NetnsLives.LivedIsFramed` | src/netns.rs:457-740 | whatever such a sequence was, everything but the instance's own things is as before |
| `NetnsLives.LiveThenSetup` | src/netns.rs:457-740 | after any such sequence: a successful setup reaches the state it reaches from the kernel stripped of the instance, up to the instance's drop-in if it does not write one; a failed one is rolled back to that stripped kernel unless a verb of the rollback failed |
| `NetnsLives.LiveThenTeardown` | src/netns.rs:664-740 | after any such sequence, a teardown whose verbs succeed or find nothing to do leaves nothing of the instance |
| `NetnsParallel.InterleavingIsInvisible` | src/netns.rs:472-735 | however the verbs of different instances interleave, each instance ends with what its own verbs, in their order, make of its own part of the kernel |
| `NetnsParallel.VerdictsAreOwn` | src/netns.rs:472-735 | and each of its verbs is granted or refused as it would be without the others |
| `NetnsParallel.VerbActsOnView` | src/netns.rs:472-735 | an instance's part of the kernel alone decides whether a verb of its can be done and what it makes of that part |
| `Netns.SetupIsIdempotent` | src/netns.rs:457-656 | setting up twice is setting up once |
| `Netns.SameConfiguration` | src/netns.rs:753-800 | whatever came before, two setups reach the same state exactly when they write the drop-in or find the same one |
| `Netns.DropInOutlivesItsSetup` | src/netns.rs:753-800 | a drop-in left behind is still there after a static setup |
| `Netns.RunCleanup` | src/netns.rs:901-935 | accepts by what the tool answered: success, or a marker of absence in its message |
| `Netns.SwallowedExactly` | src/netns.rs:901-935 | a verb is reported done with its resource still there exactly when there was something to do, the tool failed without doing it, and mentioned a marker |
| `Netns.SucceededIsGone` | src/netns.rs:901-935 | a verb that succeeded or found nothing to do has left nothing |
| `Netns.MarkersExactly` | src/netns.rs:885-925 | a message tells of an absent resource exactly if one of five phrases is somewhere in it |
| `Netns.BusyNamespaceIsSwallowed` | src/netns.rs:910-919 | a busy namespace's message is taken for an absent one |
| `CappedRead.ReadBodyCapped` | src/github.rs:667-685 | for every chunking: the verdict on the body, reading at most one byte past the cap |
| `CappedRead.LargestCapIsNoCap` | src/github.rs:651-664 | exactly for which bodies the largest cap still gives that verdict |
| `CappedRead.DownloadCapped` | src/extract.rs:160-233 | the saturating-counter loop: same verdict, exact bytes, never more than the cap in the destination, unlinked on overflow if possible |
| `CappedRead.BothAgree` | src/extract.rs:160-233 | both readers accept exactly the bodies that arrive whole and are no longer than the cap, if the destination does not fail, and return the same bytes |

## Left out

- The tar, gzip and digest crates themselves; hard links and missing parent directories in `PlainCrate`.
- HTTP, D-Bus, `ip`, `sysctl` and `systemctl` themselves: nondeterministic steps on the model state. The Content-Length check before the download loop is not modelled.
- What a disk loses that was not flushed: of fsync only the possible error and, for the runner home, when it succeeded; `fsync_dir_tree`, whose errors the code ignores, is not modelled. Modification times and clock readings are inputs.
- Symbolic links on the paths of the state directory, the staging area and the runner home: an install is modelled from states where these are directories or absent (`InstallLayout.World`), a requirement it keeps.
- Owners, ACLs, special inodes and hard-link sharing: inodes are files with data and mode, directories with mode, symbolic links with target.
- The umask: new directories have mode 0755, the lock file 0600.
- Retries after `EINTR`, and non-UTF-8 names, which the code skips.
- The apply lock is modelled as a transition system, one step per system call, not as methods; nobody else changes the lock file's mode, and PIDs stay below the kernel's own limit of 2^22.
- `gc_stale_temp_files`: only its names; its loop is that of the staging directories with files instead.
- The order of the drop-in bodies in `UnitText.RenderMerged` is that of the sequence given, which the renderer takes from a sorted map.
- IPv4 and IPv6 text in annotations: a printer and a parser that invert each other over non-empty text of hexadecimal digits, dots and colons.
- Root checks, instance-name validation, logging and error texts.
- A unit directory that changes, or becomes unreadable, between the two passes of discovery.
- NetnsLives.LiveThenSetup: the crash points are those after each kernel verb and each file write, not inside a verb.
