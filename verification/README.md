# storage-bot, verified model

A Dafny model of the algorithmic parts of storage-bot, with proofs of what they promise.
`dafny verify dfyconfig.toml` checks the whole project. The modules, hardest first:

- **Inspection runs** (`FanOut`, `BondDelta`, `Readings`, `Ordering`, `Store`, `Runs`, `Inspect`). `FanOut` is the
  per-node fan-out of `runWith` as a step system: program counters, semaphore slots, the mutex and its
  holder, the wait group and the shared list of findings, with the append under the lock split into its
  read and its write. `BondDelta` is the two-window rule for link failures, `Store` the pruned history
  directory, and `Runs` puts them together: one run reads the two newest reports, adjusts, finalizes, saves and
  prunes. `Readings` says when a run leaves the next ones the same counts whatever its schedule was. The results
  speak of whole sequences of runs, on any history that is already there.
- **Path algebra** (`Paths`, `Recycle`, `Paging`). Normalization as a component stack, the prefix test
  through `filepath.Rel`, the choice of the deepest recycle bin, the guard before a real clear, and the
  pagination loop.
- **Bonding probe** (`BondText`, `BondParser`, `HardwareBond`, `NicControl`, `NicAnswers`, `NicSteps`, `NicDark`). The
  text a host prints, three parsers of it, and the `nic_down` / `nic_up` gate whose decision must be right for the
  hosts behind the text.
- **Migration, grouping, PCIe** (`Migrate`, `MigrateResults`, `Grouping`, `PcieLinks`).
- **Audit ring buffer, CSV, word search** (`Audit`, `Csv`, `Words`). `Text` holds the string operations all
  modules share.

Code that updates things in place is imperative here: reports, the history, the parser's shared records, the fleet of
hosts and the audit log are classes whose methods are proved equal to a function of the old state, and the
results are lemmas about those functions.

## Where the code and its documentation differ

The model follows the code. For each point one lemma gives a concrete input and another the exact condition.

- `nic_down` says it never takes the last live link of a bond offline (skill/builtin.go:438-442). That fails in two
  ways. A bond with a single member passes the check and goes dark (`OneMemberBondGoesDark`). And every message has
  its own goroutine (main.go:123-127) with nothing held from a command's probe to its link command
  (skill/builtin.go:479-519), so two downs of one bond that both probe first are both accepted and leave no live link
  (`OverlappingDownsGoDark`, `OverlapGoesDark`). Exactly: an all-live bond goes dark if and only if every member is
  taken down by a command that had probed before the first link command on the bond (`GoesDarkIff`); two downs of a
  two-member bond leave a live link if and only if one probes after the other's link command (`TwoDownsIff`). For
  commands that do not overlap on a bond the promise holds for all bonds of two or more members
  (`NoOverlapKeepsALiveLink`), and for a single command exactly for those (`LastLinkIsKeptIff`).
- `ClearRecycleFiles` promises to act under the bin that owns the path (storage/yanrong.go:208-217). The checks
  trim the path, the posted text is not trimmed, so a blank at the end or at the start makes it name a path outside
  the bin that was chosen (`TrailingBlankEscapesTheBin`, `LeadingBlankEscapesTheBin`). The posted text, read as it
  stands, names the checked path exactly when it has no white space at its end or at the end of its last part that
  counts, and any at its start is in a part that a later ".." cancels (`PostedIsCheckedIff`).
- `normalizeQuotaPath` "canonicalizes", but a second pass changes "/foo /" (`SecondPassChanges`); normalizing twice
  equals once exactly when the last part that counts, found by a scan of the raw parts from the end, does not end
  in white space (`IdempotentIff`).
- The migration comment lists what it recovers (inspect/migrate.go:13-25). A total below zero, which the parser
  accepts from malformed text, is recovered as 0 (`NegativeTotalIsLost`); what is rebuilt is stated exactly
  (`MigrationRebuilds`).
- docs/superpowers/specs/2026-07-07-bond-link-failure-delta-design.md compares with the last run only; the code
  compares with the last two. For counts 0, 1, 1 they disagree (`TwoWindowsDiffer`), and exactly when
  (`TwoWindowsDifferIff`).

## Model

| member | source | states |
|---|---|---|
| Inspect.MaxLevel | inspect/inspector.go:66-75 | Critical if and only if some finding is Critical, else Warn if some is Warn, else Unknown if some is Unknown, else OK |
| Inspect.WorstOfPermutation | inspect/inspector.go:63-75 | the overall level depends only on which findings there are, not on their order |
| Inspect.Report.Finalize | inspect/report.go:22 | sets the overall level to the worst finding and changes nothing else |
| FanOut.Next | inspect/runner.go:145-175 | one step of the main goroutine or of a node's goroutine, blocked where the program blocks; no step changes the number of goroutines |
| FanOut.StepKeepsInv | inspect/runner.go:141-175 | every step keeps: slots in use equal holders and stay within the capacity, the wait counter equals the unfinished goroutines, the lock has one holder, findings are the cluster part and whole blocks |
| FanOut.StepDecreases | inspect/runner.go:148-175 | every step lowers the measure of remaining steps by one |
| FanOut.NoDeadlock | inspect/runner.go:144-175 | until the call has returned some goroutine can take a step |
| FanOut.StuckIffReturned | inspect/runner.go:175-180 | a reachable state is stuck exactly when the call has returned |
| FanOut.HeldUpIff | inspect/runner.go:145-153 | a goroutine that wants a slot is held up exactly while max(1, maxNodePar) hold one |
| FanOut.EverySchedule | inspect/runner.go:141-175 | in every interleaving at most max(1, maxNodePar) hold a slot, at most one is inside the lock, and the schedule is bounded and can always be continued to the return |
| FanOut.ReturnedFindings | inspect/runner.go:133-180 | on return the findings are the cluster findings followed by every node's whole block, inspector order kept, in some node order |
| FanOut.EveryFindingHasItsPlace | inspect/runner.go:133-175 | in every completed call each finding of each inspector that did not fail has its own place and there are no others: the cluster inspectors' findings in order, then node after node in inspector order, blank node names and addresses filled with the node's and nothing else changed |
| FanOut.ClusterPartAppend | inspect/runner.go:133-139 | what some inspectors and then others find is the one followed by the other, so a failing inspector takes nothing of the rest away |
| FanOut.EveryOrderHappens | inspect/runner.go:141-181 | for every node order some schedule returns the cluster findings followed by the blocks in that order, so those are exactly the possible results |
| FanOut.ScheduleIndependent | inspect/runner.go:141-180 | the multiset of findings and the overall level are those of the sequential run, for every schedule |
| BondDelta.BondBaseline | inspect/bond_delta.go:84-98 | the last recorded count of each node, none for a missing report |
| BondDelta.ApplyNodeDelta | inspect/bond_delta.go:53-80 | level, summary and metrics after the two-window comparison |
| BondDelta.ApplyBondDelta | inspect/bond_delta.go:29-49 | every finding is adjusted against the two baselines and nothing else in the report changes |
| BondDelta.BaselineUntouched | inspect/bond_delta.go:84-111 | the adjustment never changes a stored count, so an adjusted report is the same baseline as the raw one |
| BondDelta.LevelRule | inspect/bond_delta.go:29-80 | a Warn stays exactly when there is no baseline or the count grew since either, so a rise since the last run is Warn however large an older baseline is; other levels are left alone |
| BondDelta.DeltasAreTheGrowth | inspect/bond_delta.go:53-80 | which delta is written and its value: the growth since the last run whenever positive, the two-run growth when it is the larger or the only one; so both are positive and the second is larger |
| BondDelta.NothingElseChanges | inspect/bond_delta.go:29-80 | only level, summary and the two delta metrics change, and only in a warning with a recorded total |
| BondDelta.SummaryShowsTheGrowth | inspect/bond_delta.go:53-80 | the numbers in the summary of an adjusted warning are the growth since the last run if any, the two-run growth if larger or alone, and the total, in that order |
| BondDelta.TwoWindowsDifferIff | inspect/bond_delta.go:16-17 | the two-window level differs from the last-run-only rule of the design document exactly when a count unchanged since the last run grew since the one before, or the last run has no reading and it did not |
| BondDelta.TwoWindowsDiffer | inspect/bond_delta.go:16-17 | counts 0, 1, 1 are warned about again, which the last-run-only rule would not do |
| BondDelta.BaselineOfPermutation | inspect/bond_delta.go:84-98 | the baseline does not depend on the order of the findings when no node has two different counts |
| Readings.ReadingsAreScheduleFreeIff | inspect/runner.go:148-175 | every schedule of a run leaves the same readings if and only if blocks that read the same node end with the same count for it |
| Readings.DifferentReadingsShow | inspect/bond_delta.go:53-80 | two different readings of a node make some finding of the next run end with different levels |
| Readings.OwnNodesAreCompatible | inspect/runner.go:158-169 | the condition holds when nodes have different names and inspectors report on their own node only |
| Ordering.FileNameOrder | inspect/store.go:33 | names sort as their UTC seconds do and coincide within one second, for four-digit years |
| Ordering.FileNameReadsBack | inspect/store.go:33 | year, month, day, hour, minute and second read back from the name's 20 characters, for four-digit years |
| Ordering.ListingUnique | inspect/store.go:45-61 | a descending sequence of the report names is the listing, so it is determined by the set |
| Ordering.TopAfterTop | inspect/store.go:110-118 | keeping the greatest names before or after adding one gives the same set |
| Store.History.List | inspect/store.go:45-61 | exactly the .json files that are no folders, newest first |
| Store.History.Clusters | inspect/store.go:65-81 | the cluster directories, sorted |
| Store.History.Load | inspect/store.go:83-93 | the stored report, or nothing when it is absent or unreadable |
| Store.History.Save | inspect/store.go:28-42 | makes the directory, writes the report under its second's name and prunes; a fault or a folder in the way leaves what such a write leaves and skips the pruning; other clusters are untouched |
| Store.History.Prune | inspect/store.go:110-119 | of the report files exactly the keep greatest names stay |
| Store.History.RewriteReport | inspect/store.go:99-108 | writes one file, whatever was there, and nothing else; fails for a missing directory, a folder in the way or a fault |
| Store.PruneSavePrune | inspect/store.go:28-42 | in any directory, pruning before a report file is written leaves nothing that pruning after it would not |
| Store.SavesKeepNewest | inspect/store.go:28-42 | after any sequence of saves in any order, on any directory and with any disk faults, the keep greatest report names ever there are there, each with what the last save under it left, and other entries are untouched; they are the only report files unless a write has broken off since the last success; nothing changes if no call could write |
| Store.EverIsTheLastWrite | inspect/store.go:28-42 | what a name ever held last is the report of the last call that wrote under it, nothing readable if that write broke off, what was there before if none did |
| Store.SaveMeans | inspect/store.go:28-42 | a save succeeds exactly without a fault and without a folder of that name; then the report is there and of the .json files those with fewer than keep greater names stay; a write that breaks off leaves an unreadable file, any other failure leaves all as it was |
| Store.WithoutFaults | inspect/store.go:28-42 | without disk faults the directory is unchanged, every file being blocked by a folder, or pruned to exactly those names |
| Runs.Runner.RecentReports | inspect/runner.go:102-126 | the two newest reports, none without a store, for an unlistable directory or for an unreadable file |
| Runs.Runner.Run | inspect/runner.go:73-93 | the report is the collected findings adjusted against the two newest reports, its level the worst of them, and it is saved; a failed save is ignored |
| Runs.ReportIsConsistent | inspect/runner.go:73-93 | in any history a report bears its cluster and moment, one finding for each one collected, and as overall level the worst of the findings it holds after the adjustment |
| Runs.LastTracesDecide | inspect/runner.go:102-126 | over runs in increasing seconds on any older history, with any disk faults, a run is compared with the last run before it that left a file and, if the store keeps two, with the one before that; a broken file gives nothing to compare with |
| Runs.PruningSparesRecent | inspect/store.go:110-119 | for any clocks and faults the files a run is compared with are the newest of all ever written, as many as the store keeps |
| Runs.KeepOneForgets | inspect/store.go:110-119 | a store that keeps one report gives no second one to compare with after a successful save |
| Runs.RawReadingsDecide | inspect/runner.go:74-93 | for any clocks, disk faults and directories, each run's findings are its raw findings adjusted against the raw findings in the two newest files, in spite of the feedback through the store |
| Runs.LevelByReadings | inspect/bond_delta.go:11-27 | over any sequence of runs, whatever the clocks and the disk do, a node's bond level is decided by the raw readings of the two newest files alone, by the stated rule |
| Runs.LevelByHosts | inspect/bond_delta.go:11-27 | from printed hosts to reports: when the two runs before were saved, the level is decided by the link states and failure counts the node's host shows at this run and showed at those two |
| Runs.RiseIsReportedTwice | inspect/bond_delta.go:16-19 | a rise between saved runs that does not fall back is Warn in that report and in the next, so one unread report loses no alert |
| Runs.SteadyCountClears | inspect/bond_delta.go:21-23 | after three equal readings, the first two saved, the third report is OK |
| Runs.RunHistory | inspect/runner.go:60-95 | any sequence of runs on any clusters and any history, with any disk faults, leaves in each cluster's directory what that cluster's own runs leave |
| Runs.ClustersAreIndependent | inspect/store.go:23-25 | a cluster's directory depends on what it held and on its own runs only |
| Runs.OrderDoesNotMatter | inspect/runner.go:60-95 | reordering each run's findings, if it leaves the same readings, changes no report but by that order, over whole histories |
| Runs.HistoryIsScheduleIndependent | inspect/runner.go:60-181 | over whole histories, whatever the clocks and the disk do, every report has the same findings and overall level however each run's goroutines interleaved, given the condition that makes each run's readings free of its schedule |
| BondText.Step | skill/builtin.go:357-395 | one line's effect on the records and the cursor; the cursor stays the last slave of a bond already seen |
| BondText.LineMeans | skill/builtin.go:357-395 | for any line: other bonds' records stay, its own is made if missing, a mode, slave, status or count line changes just that, the latter two on the last slave and only if the cursor is in this bond, and other keys change no record |
| BondText.FoldBond | skill/builtin.go:347-351 | a file's lines add exactly its record; its own MII line is credited to no slave of this or the previous bond |
| BondText.ParseOfPrint | skill/builtin.go:338-397 | parsing undoes printing: bonds, modes, member order, status and count come back for every printable list and choice of keys |
| BondParser.ParseBonds | skill/builtin.go:351-397 | the loop over shared records returns records that show exactly the parsed values and share nothing |
| HardwareBond.ParseBond | inspect/hardware_parse.go:198-237 | total, level and summary of the bond finding |
| HardwareBond.ParseNIC | inspect/hardware_parse.go:159-196 | the members that are not up, in order, and the level |
| HardwareBond.BondFindingMeans | inspect/hardware_parse.go:198-237 | for any text: Critical if a line shows a link that is not up, else Warn if the total is positive, else OK; the total and the text are kept |
| HardwareBond.NicFindingMeans | inspect/hardware_parse.go:159-196 | for any text: Warn exactly when there is a member to report, with all of them in the summary, else OK |
| HardwareBond.ParsersAgree | inspect/hardware_parse.go:159-237 | on printed text the total is the sum of the counts parseBonds recovers, Critical means some link is not up, and parseNIC lists the parsed members that are not up |
| NicControl.FindBondForSlave | skill/builtin.go:610-619 | finds the first bond that lists the interface, with its whole slave list |
| NicControl.Fleet.NicDown | skill/builtin.go:450-528 | one whole command: refusals, preview, execution, and the hosts afterwards |
| NicControl.Fleet.NicUp | skill/builtin.go:544-605 | the same for bringing a port up |
| NicControl.DecideDown | skill/builtin.go:485-517 | the decision taken from the probe text |
| NicControl.DownGateIsPhysical | skill/builtin.go:485-517 | the link command runs exactly when confirmed, the port is in a bond and every member is live on the host |
| NicControl.UpGateIsPhysical | skill/builtin.go:578-595 | bringing up runs exactly when confirmed and the port is in a bond |
| NicAnswers.TargetIff | skill/builtin.go:450-474 | a command goes on exactly when its node is given and contained in one host's name only and the port's name is well formed, and then with that host; no match, several matches with their names in order, and a missing or malformed port are told exactly |
| NicAnswers.DownAnswers | skill/builtin.go:485-517 | refused as no member, refused with the members that are not up, previewed or run, each exactly when the bond on the host says so, with the other members in order |
| NicAnswers.UpAnswers | skill/builtin.go:578-595 | the same for bringing a port up, whatever the other members are |
| NicAnswers.CommandIff | skill/builtin.go:450-528 | a whole command runs its link command exactly when confirmed, its node names one host that answers, the port is in a bond there and, for a down, every member is live; it changes the status of that one port at most, on no other host, and otherwise nothing |
| NicControl.CommandKeepsSafe | skill/builtin.go:438-442 | one command, however it turns out, leaves at most one member of each bond down |
| NicControl.BondsKeepALiveLink | skill/builtin.go:438-442 | over every sequence of commands run one after the other each bond of two or more members keeps a live link |
| NicControl.LastLinkIsKeptIff | skill/builtin.go:438-442 | a single accepted nic_down, nothing coming between its probe and its link command, leaves a live link if and only if the bond has two or more members |
| NicControl.OneMemberBondGoesDark | skill/builtin.go:491-519 | a bond with one member loses its only link |
| NicControl.OverlappingDownsGoDark | skill/builtin.go:479-519 | two downs accepted from the same probe leave a two-member bond dark |
| NicSteps.Next | skill/builtin.go:479-519 | a command in two steps, its probe with the decision and its link command on the hosts as they are by then |
| NicSteps.OneAtATime | skill/builtin.go:450-528 | with nothing between the two steps they have the effect and the reply of the whole command |
| NicSteps.NoOverlapKeepsALiveLink | skill/builtin.go:438-442 | however commands interleave, if no two accepted downs overlap on one bond from probe to link command, no bond has two members down and each of two or more members keeps a live link |
| NicDark.GoesDarkIff | skill/builtin.go:438-442 | whatever downs interleave, an all-live bond goes dark if and only if every member was taken down by a command that had probed before the first link command on the bond |
| NicDark.TwoDownsIff | skill/builtin.go:438-442 | two downs of a two-member bond, once over, leave a live link if and only if one probed after the other's link command |
| NicDark.OverlapGoesDark | skill/builtin.go:479-519 | for any two such downs the schedule with both probes first runs, and the bond is dark |
| Paths.NormalizeIsCanonical | storage/yanrong.go:538-556 | the result is rooted with canonical components only, and the "." branch is never taken |
| Paths.IdempotentIff | storage/yanrong.go:543-556 | normalizing twice equals once if and only if the last part that counts, by a scan of the raw parts from the end, does not end in white space |
| Paths.StableIsComps | storage/yanrong.go:543-556 | that scan finds exactly the last component that normalization leaves |
| Paths.SecondPassChanges | storage/yanrong.go:543-556 | "/foo /" becomes "/foo " and then "/foo" |
| Paths.StableWithoutBlanks | storage/yanrong.go:543-556 | no white space before a slash is enough for that |
| Paths.SlashIsHarmlessIff | storage/yanrong.go:241-246 | a trailing slash names the same path if and only if the text has no trailing white space |
| Paths.VerbatimIsCheckedIff | storage/yanrong.go:241-246 | a text read as it stands names what two normalizations name if and only if it has no white space at its end or at the end of its last part that counts, and any at its start is in a part that a ".." cancels |
| Paths.RelLeadsToTarget | storage/yanrong.go:337-349 | walking the relative path from the base arrives at the target |
| Paths.PrefixIsComponentPrefix | storage/yanrong.go:301-349 | the prefix test is the prefix relation of normalized components, the strict test its strict part, on all inputs |
| Paths.PrefixIsPreorder | storage/yanrong.go:331-349 | the test is reflexive and transitive, and antisymmetric up to normalization |
| Recycle.PickRecycleForPath | storage/yanrong.go:314-329 | returns the first of the longest matching bins, none if none matches |
| Recycle.PickIsDeepest | storage/yanrong.go:311-329 | a bin is found exactly when one covers the path; it is the deepest, ties are equal paths and the first wins |
| Recycle.ClearRecycleFiles | storage/yanrong.go:220-261 | the outcome of a clear up to the request it sends |
| Recycle.GuardIsComponents | storage/yanrong.go:269-309 | the guard passes exactly when the path is strictly under a configured prefix |
| Recycle.PreviewNeverDeletes | storage/yanrong.go:220-261 | for every input: a preview never posts, a real clear is never only previewed, the guard refuses real clears only, and a blank path or a failed listing stop both |
| Recycle.PreviewIff | storage/yanrong.go:254-260 | a preview is given exactly when a bin covers the path, whatever the prefixes are, and names the first of the deepest such bins and the path with a slash behind |
| Recycle.ClearIff | storage/yanrong.go:220-309 | what a real clear comes to: no bin, no prefix configured, refused or posted, each exactly when |
| Recycle.ClearIsSafe | storage/yanrong.go:208-261 | a clear is posted exactly when a bin covers the path and it is strictly under a configured prefix; the posted text, read as it stands, names that path, under the first of the deepest covering bins |
| Recycle.PostedIsCheckedIff | storage/yanrong.go:224-252 | for every input that reaches the request or its preview, the text it names, read as it stands, is the path the checks looked at if and only if the caller's path is tidy in that sense |
| Recycle.TrailingBlankEscapesTheBin | storage/yanrong.go:224-252 | a trailing blank posts a path outside the chosen bin |
| Recycle.LeadingBlankEscapesTheBin | storage/yanrong.go:224-252 | so does a leading blank |
| Paging.ListPaginated | storage/yanrong.go:462-509 | the loop collects what the page-by-page definition says, with the same number of requests, and always ends |
| Paging.WalkEndsWhere | storage/yanrong.go:462-509 | for any server the pages are asked for in order up to the first that fails, cannot be read or is final; a failed or unreadable one loses everything, otherwise the result is what all the pages hold, in order |
| Paging.StopsInTime | storage/yanrong.go:499-505 | with totals of at most B there are at most B + 1 requests, whatever the server answers |
| Paging.PaginationResult | storage/yanrong.go:458-509 | against a fixed list of N in pages of c with total T: result and number of requests for T = N, T > N, 0 < T < N and T <= 0 |
| Migrate.BackfillBondFinding | inspect/migrate.go:26-42 | the finding afterwards and whether it changed |
| Migrate.MigrateReport | inspect/migrate.go:59-67 | every finding backfilled, and how many changed |
| Migrate.CountIsRecovered | inspect/migrate.go:46-50 | the count in a warning's summary is read back for every number |
| Migrate.MigrationRebuilds | inspect/migrate.go:13-25 | a pre-metric finding becomes what the parser makes now if and only if there is no bond, or it is not Critical and its total is not negative |
| Migrate.NegativeTotalIsLost | inspect/migrate.go:46-56 | a negative total from malformed text is not rebuilt |
| Migrate.MigrationIsIdempotent | inspect/migrate.go:23-25 | a second pass changes nothing and counts no change |
| Migrate.FileAfterMigration | inspect/migrate.go:82-112 | a listed report file afterwards: with each total its summaries show added and nothing else changed, unreadable if its rewrite broke off, and as it was if the rewrite failed or nothing was missing |
| Migrate.ChangedCountMeans | inspect/migrate.go:59-67 | the number reported is the number of bond findings that lack a total their summary shows |
| Migrate.MigrateStore | inspect/migrate.go:82-112 | every report file that can be read is migrated, no file is added or removed, and the results list the changed, failed and unreadable files and the unlistable clusters in order; none if the history cannot be read |
| MigrateResults.ResultsAreThoseDue | inspect/migrate.go:82-112 | the lines returned are exactly those due, each once: unlistable clusters, unreadable files, and files that lacked totals with how many and whether the rewrite went well; clusters ascending, files newest first |
| Migrate.MigrationCanBeRepeated | inspect/migrate.go:78-81 | whatever failed before, short of a file cut off, migrating again gives what one faultless migration gives; so a second one changes nothing, and file sets are kept |
| Grouping.Counts | inspect/report.go:24-38 | each count is the number of findings of its level; they add up to the findings, the abnormal ones to the abnormal list |
| Grouping.Abnormal | inspect/report.go:41-55 | every finding that is not OK, once: Critical before Warn before Unknown, and those of one level as they stand in the report |
| Grouping.AbnormalByNode | inspect/report.go:69-88 | strictly ordered groups, cluster scope first, each exactly its node's abnormal findings in order, covering all |
| Grouping.GroupsArePermutation | inspect/report.go:65-88 | the groups together are a permutation of the abnormal findings |
| Grouping.GroupingIsUnique | inspect/report.go:65-88 | the grouping is determined by those conditions |
| PcieLinks.EvalPCIeLinks | inspect/hardware_parse.go:400-466 | one finding per downgrade shape in first-seen order, or the one quiet finding; never empty |
| PcieLinks.Partition | inspect/hardware_parse.go:388-447 | every device is unparseable, healthy, silenced or in exactly one group of its shape; shapes are distinct and the sizes add up |
| PcieLinks.GroupsKeepOrder | inspect/hardware_parse.go:439-446 | a device's place in its group is the number of earlier devices of the same shape |
| PcieLinks.ShapesFirstSeen | inspect/hardware_parse.go:439-451 | when a shape is first met, no shape reported after it has been met |
| PcieLinks.CountMetric | inspect/hardware_parse.go:494-498 | the count a finding carries is the size of its group |
| PcieLinks.ReturnedLevels | inspect/hardware_parse.go:419-465 | on the returned list: a finding is Critical if and only if some device lost a lane, Warn if and only if some device is only slow and not silenced, and when neither is so there is one finding, of level OK |
| PcieLinks.QuietSaysWhy | inspect/hardware_parse.go:453-463 | the quiet finding says that nothing could be read exactly when so, else how many devices are slow on purpose, else that all is well |
| PcieLinks.FindingSpeaksOf | inspect/hardware_parse.go:470-512 | a group's finding shows the kind, address and name of every device in it, their speeds and any lost lanes, the raw links of the first and the number of all |
| PcieLinks.WidthLossIsCritical | inspect/hardware_parse.go:392-451 | for every floor, each device with a lost lane is in a group whose returned finding is Critical, and no other device is |
| PcieLinks.ReportedIff | inspect/hardware_parse.go:419-451 | a device is in some finding exactly when it lost a lane, or is only slow and no positive floor it reaches silences it |
| Audit.AuditLog.constructor | security/audit.go:29-37 | an empty log of the given size, 10000 for a size that is not positive |
| Audit.AuditLog.Record | security/audit.go:39-69 | appends to the unbounded log the buffer stands for |
| Audit.AuditLog.Recent | security/audit.go:71-96 | the last min(n, maxSize, recorded) entries, oldest first |
| Audit.RecordAll | security/audit.go:39-96 | after any sequence of records into a fresh log: as many of the newest entries as are asked for, kept and recorded, in the order they were recorded |
| Csv.FormatHWTableCSV | skill/builtin.go:1182-1217 | the printed table, row by row |
| Csv.FieldComesBack | skill/builtin.go:1219-1226 | an escaped field followed by a comma or line feed decodes to itself |
| Csv.TableComesBack | skill/builtin.go:1180-1217 | decoding by section 2 of RFC 4180, with a line feed alone as the record end, gives the header and exactly the rows, whatever the fields hold |
| Csv.ValuesStandUnderTheirNames | skill/builtin.go:1182-1217 | each value comes back in its own row under the name of its column, and no two columns share a name |
| Csv.EscapeIsInjective | skill/builtin.go:1219-1226 | no two fields are escaped alike |
| Csv.TableIsInjective | skill/builtin.go:1182-1217 | no two tables print alike, the text for no rows included |
| Words.ContainsWord | intent/parser.go:538-558 | true exactly when a bounded occurrence exists, overlapping ones included |
| Words.NameCharIff | intent/parser.go:560-568 | letters, digits and the three signs "-", "_" and "." join a word |
| Words.WordIsToken | intent/parser.go:538-568 | for names of name characters that is membership among the maximal runs of name characters |
| Words.LongestKnownCluster | intent/parser.go:387-397 | returns a longest known cluster that occurs as a word, none exactly when none occurs |

## Left out

- Kubernetes exec, SSH, HTTP, JSON and YAML coding, the LLM providers, cards and web pages: input and output. Loading a saved report gives back what was saved; a probe's text is the printed state of the host.
- Text.Atoi: reads unbounded integers, so counts past 64 bits neither wrap nor fail.
- Inspect.Finding: is a value; a metrics map shared between two findings cannot be expressed, and the program never shares one.
- FanOut.Next: `wg.Add` and `go` are one step, as no other step can tell them apart; an inspector is an arbitrary function of itself and its node, so a node's findings do not depend on timing, and it does not panic.
- Runs.Runner.Run: takes what `runWith` returned as a parameter, leaves out the LLM summary and the duration, and ignores a failed save as the program does.
- Runs.LastTracesDecide: asks that the runs start in increasing seconds and come after everything the directory holds, as file names are ordered by second; `RawReadingsDecide` and `PruningSparesRecent` do not.
- Store.History.Prune: removing a file never fails, and listing fails only where `RecentReports` and `MigrateStore` say so.
- Ordering.FileNameOrder: moments are given by their UTC calendar fields; the calendar behind them is the Go library's.
- BondText.ParseOfPrint: speaks of the text hosts print; on other text the parser is modelled but nothing is claimed.
- HardwareBond.ParsersAgree: leaves out text that contains the marker "(no bonds)", where both inspection parsers stop at once; `ParseBond` and `ParseNIC` cover it.
- NicControl.Apply: is one command in one piece, `NicSteps` takes it apart; each host name stands for one host, lower-casing is an arbitrary function, and a port brought up that is already live stays live.
- NicAnswers.CommandIff: and the answers ask that every port is in one bond of its host, once, and that names and statuses are single lines without white space around them, as a host prints them; `TargetIff` asks for nothing.
- NicDark.GoesDarkIff: is about downs only; a port brought up in between is covered by `NoOverlapKeepsALiveLink`. Link states change by these commands only.
- Recycle.ClearIsSafe: asks for a tidy path and for bins and prefixes whose last part does not end in white space; `PostedIsCheckedIff` says exactly what happens to other paths.
- Recycle.ClearIff: and `PreviewIff` ask for a path, bins and prefixes whose last part does not end in white space; `PreviewNeverDeletes` does not.
- Recycle.ClearRecycleFiles: ends at the request it would send; the reply is not modelled.
- Paths.Normalize: texts are sequences of Unicode characters, so lengths count characters and not bytes; among ancestors of one path the order of lengths is the same.
- PcieLinks.Build: speeds are reals and their shortest decimal form is a parameter.
- Words.LongestKnownCluster: the later fallbacks of `extractClusterName`, by numeric fragment and by pattern, are first-match tests and left out; texts are bytes and lower-casing is a parameter.
- Audit.AuditLog.Record: the clock and the log line are left out, and the mutex makes each call one step.
- The cluster manager's caches, the command allow and deny lists, the alias table, `parseLspciLinks`, the threshold-only parsers, emoji and rendering: easy members or patterns that are their own specification.
