/** `Runner.Run` over stored history: read the two newest reports, adjust the bond findings,
    finalize, save, prune; and what that means over whole sequences of runs. */
module Runs {
  import opened Text
  import opened Inspect
  import opened Ordering
  import opened Store
  import opened BondDelta
  import opened BondText
  import opened HardwareBond
  import opened Readings
  import FanOut

  // ---- one run ----

  /** What a run gets and what happens to it: the moment it starts, what `runWith` returns,
      whatever the schedule was, whether the cluster's directory can be listed before, and what
      the disk does to the save. */
  datatype RunInput = RunInput(startedAt: Instant, collected: seq<Finding>, listable: bool, fault: Fault)

  ghost function NthReport(d: Dir, k: nat): Option<seq<Finding>> {
    var names := Listing(ReportNames(d));
    if k < |names| && names[k] in d && d[names[k]].File? then Some(d[names[k]].data.findings) else None
  }

  /** The readings of the `k`-th newest report in a directory, none if it cannot be listed. */
  ghost function Recent(d: Dir, listable: bool, k: nat): map<string, int> {
    if listable then BaselineOf(NthReport(d, k)) else map[]
  }

  /** The report a run makes, given its cluster's directory. */
  ghost function RunReport(d: Dir, cluster: string, run: RunInput): ReportData {
    var fs := AdjustedAll(run.collected, Recent(d, run.listable, 0), Recent(d, run.listable, 1));
    ReportData(cluster, run.startedAt, Worst(fs), fs)
  }

  class Runner {
    const store: History?

    constructor (store: History?)
      ensures this.store == store
    {
      this.store := store;
    }

    /** Nothing to compare with when there is no store or the cluster's directory cannot be listed. */
    method RecentReports(cluster: string, listable: bool) returns (prev1: Report?, prev2: Report?)
      ensures prev1 != null ==> fresh(prev1)
      ensures prev2 != null ==> fresh(prev2)
      ensures FindingsOf(prev1) == if store == null || !listable then None else NthReport(store.DirOf(cluster), 0)
      ensures FindingsOf(prev2) == if store == null || !listable then None else NthReport(store.DirOf(cluster), 1)
    {
      hide Listing, ReportNames;
      prev1, prev2 := null, null;
      if store == null { return; }
      if !listable { return; }
      var names := store.List(cluster);
      if |names| > 0 { prev1 := store.Load(cluster, names[0]); }
      if |names| > 1 { prev2 := store.Load(cluster, names[1]); }
    }

    /** A failed save is ignored. */
    method Run(cluster: string, run: RunInput) returns (rep: Report)
      modifies if store == null then {} else {store}
      ensures store == null ==>
        var fs := AdjustedAll(run.collected, map[], map[]);
        rep.Data() == ReportData(cluster, run.startedAt, Worst(fs), fs)
      ensures store != null ==>
        && rep.Data() == RunReport(old(store.DirOf(cluster)), cluster, run)
        && store.dirs == SavedIn(old(store.dirs), store.keep, rep.Data(), run.fault)
    {
      hide NthReport, AdjustedAll, SavedIn, Succeeds, BaselineOf;
      var prev1, prev2 := RecentReports(cluster, run.listable);
      rep := new Report(cluster, run.startedAt);
      rep.findings := run.collected;
      rep.Finalize();
      NoBaseline();
      ApplyBondDelta(rep, prev1, prev2);
      rep.Finalize();
      if store != null {
        var ok := store.Save(rep, run.fault);
      }
    }
  }

  lemma NoBaseline()
    ensures BaselineOf(None) == map[]
  {
  }

  // ---- sequences of runs on one cluster, on any directory ----

  /** The saves a sequence of runs makes, oldest first, when the directory is `d` before. */
  ghost function Calls(d: Dir, runs: seq<RunInput>, keep: nat, cluster: string): (calls: seq<SaveCall>)
    ensures |calls| == |runs|
  {
    if runs == [] then []
    else
      var n := |runs| - 1;
      var before := Calls(d, runs[..n], keep, cluster);
      before + [NextCall(d, before, keep, cluster, runs[n])]
  }

  /** The save of a run after the saves `before`. */
  ghost function NextCall(d: Dir, before: seq<SaveCall>, keep: nat, cluster: string, run: RunInput): SaveCall {
    SaveCall(RunReport(SaveAll(d, before, keep), cluster, run), run.fault)
  }

  /** The report of run `i`. */
  ghost function ReportAt(d: Dir, runs: seq<RunInput>, keep: nat, cluster: string, i: nat): ReportData
    requires i < |runs|
  {
    Calls(d, runs, keep, cluster)[i].report
  }

  lemma CallsSnoc(d: Dir, runs: seq<RunInput>, keep: nat, cluster: string)
    requires runs != []
    ensures var n := |runs| - 1;
      var before := Calls(d, runs[..n], keep, cluster);
      Calls(d, runs, keep, cluster) == before + [NextCall(d, before, keep, cluster, runs[n])]
  {
    hide NextCall;
  }

  lemma {:induction false} CallsPrefix(d: Dir, runs: seq<RunInput>, keep: nat, cluster: string, i: nat)
    requires i < |runs|
    ensures var before := Calls(d, runs[..i], keep, cluster);
      && Calls(d, runs, keep, cluster)[..i] == before
      && Calls(d, runs, keep, cluster)[i] == NextCall(d, before, keep, cluster, runs[i])
  {
    hide NextCall, Calls;
    var n := |runs| - 1;
    CallsSnoc(d, runs, keep, cluster);
    var before := Calls(d, runs[..n], keep, cluster);
    assert Calls(d, runs, keep, cluster)[..n] == before;
    if i < n {
      CallsPrefix(d, runs[..n], keep, cluster, i);
      assert runs[..n][..i] == runs[..i];
    }
  }

  // ---- the feedback through the store distorts no reading ----

  /** Files that hold the same readings. */
  predicate AlikeEntry(x: Store.Entry, y: Store.Entry) {
    if x.File? && y.File? then Baseline(x.data.findings) == Baseline(y.data.findings) else x == y
  }

  ghost predicate AlikeDirs(d: Dir, e: Dir) {
    d.Keys == e.Keys && forall n <- d :: AlikeEntry(d[n], e[n])
  }

  predicate AlikeCall(x: SaveCall, y: SaveCall) {
    && x.report.startedAt == y.report.startedAt && x.fault == y.fault
    && Baseline(x.report.findings) == Baseline(y.report.findings)
  }

  ghost predicate AlikeCalls(xs: seq<SaveCall>, ys: seq<SaveCall>) {
    |xs| == |ys| && forall k :: 0 <= k < |xs| ==> AlikeCall(xs[k], ys[k])
  }

  lemma AlikeNames(d: Dir, e: Dir)
    requires AlikeDirs(d, e)
    ensures ReportNames(d) == ReportNames(e)
  {
    hide HasSuffix, Baseline;
  }

  lemma AlikeRecent(d: Dir, e: Dir, listable: bool, k: nat)
    requires AlikeDirs(d, e)
    ensures Recent(d, listable, k) == Recent(e, listable, k)
  {
    hide Baseline, Listing, ReportNames;
    AlikeNames(d, e);
  }

  lemma AlikePruned(d: Dir, e: Dir, keep: nat)
    requires AlikeDirs(d, e)
    ensures AlikeDirs(Pruned(d, keep), Pruned(e, keep))
  {
    hide Top, HasSuffix, Baseline;
    AlikeNames(d, e);
  }

  lemma AlikeSaved(d: Dir, e: Dir, keep: nat, x: SaveCall, y: SaveCall)
    requires AlikeDirs(d, e) && AlikeCall(x, y)
    ensures AlikeDirs(Saved(d, keep, x.report, x.fault), Saved(e, keep, y.report, y.fault))
  {
    hide FileName, Pruned, Baseline;
    var name := NameOf(x);
    var wd, we := Written(d, name, x.report, x.fault), Written(e, name, y.report, y.fault);
    assert Blocked(d, name) <==> Blocked(e, name);
    assert AlikeDirs(wd, we);
    AlikePruned(wd, we, keep);
  }

  lemma {:induction false} AlikeSaves(d: Dir, xs: seq<SaveCall>, ys: seq<SaveCall>, keep: nat)
    requires AlikeCalls(xs, ys)
    ensures AlikeDirs(SaveAll(d, xs, keep), SaveAll(d, ys, keep))
  {
    hide Saved, AlikeCall, Baseline;
    if xs != [] {
      var k := |xs| - 1;
      AlikeSaves(d, xs[..k], ys[..k], keep);
      AlikeSaved(SaveAll(d, xs[..k], keep), SaveAll(d, ys[..k], keep), keep, xs[k], ys[k]);
    }
  }

  /** The save of a run that stored its findings as they were collected. */
  function Raw(run: RunInput): SaveCall {
    SaveCall(ReportData("", run.startedAt, OK, run.collected), run.fault)
  }

  function RawCalls(runs: seq<RunInput>): (calls: seq<SaveCall>)
    ensures |calls| == |runs| && forall k :: 0 <= k < |runs| ==> calls[k] == Raw(runs[k])
  {
    seq(|runs|, k requires 0 <= k < |runs| => Raw(runs[k]))
  }

  /** The readings of the `k`-th newest report that run `i` finds, had every run before it stored
      its findings as they were collected. */
  ghost function RawRecent(d: Dir, runs: seq<RunInput>, keep: nat, i: nat, k: nat): map<string, int>
    requires i < |runs|
  {
    Recent(SaveAll(d, RawCalls(runs[..i]), keep), runs[i].listable, k)
  }

  lemma RunLikeRaw(d: Dir, runs: seq<RunInput>, keep: nat, cluster: string, i: nat)
    requires i < |runs|
    ensures AlikeCall(Calls(d, runs, keep, cluster)[i], Raw(runs[i]))
  {
    hide Calls, SaveAll, Recent, AdjustedAll, Baseline, Worst;
    CallsPrefix(d, runs, keep, cluster, i);
    var now := SaveAll(d, Calls(d, runs[..i], keep, cluster), keep);
    BaselineUntouched(runs[i].collected, Recent(now, runs[i].listable, 0), Recent(now, runs[i].listable, 1));
  }

  /** Main result: whatever the clocks, the disk and the directory do, the findings of a run are
      its raw findings adjusted against the raw findings in the two newest files: the feedback
      through the store never distorts a reading. */
  lemma RawReadingsDecide(d: Dir, runs: seq<RunInput>, keep: nat, cluster: string, i: nat)
    requires i < |runs|
    ensures ReportAt(d, runs, keep, cluster, i).findings
         == AdjustedAll(runs[i].collected, RawRecent(d, runs, keep, i, 0), RawRecent(d, runs, keep, i, 1))
  {
    hide Calls, SaveAll, Recent, AdjustedAll, AlikeDirs, AlikeCall, Worst;
    CallsPrefix(d, runs, keep, cluster, i);
    var before, raw := Calls(d, runs[..i], keep, cluster), RawCalls(runs[..i]);
    forall k | 0 <= k < i ensures AlikeCall(before[k], raw[k]) { RunLikeRaw(d, runs[..i], keep, cluster, k); }
    AlikeSaves(d, before, raw, keep);
    AlikeRecent(SaveAll(d, before, keep), SaveAll(d, raw, keep), runs[i].listable, 0);
    AlikeRecent(SaveAll(d, before, keep), SaveAll(d, raw, keep), runs[i].listable, 1);
  }

  /** A report bears its cluster and its moment, a finding for each one collected, and as overall
      level the worst of the findings that it holds, not of those that were collected. */
  lemma ReportIsConsistent(d: Dir, runs: seq<RunInput>, keep: nat, cluster: string, i: nat)
    requires i < |runs|
    ensures var r := ReportAt(d, runs, keep, cluster, i);
      && r.cluster == cluster && r.startedAt == runs[i].startedAt && |r.findings| == |runs[i].collected|
      && (r.overall == Critical <==> HasLevel(r.findings, Critical))
      && (r.overall == Warn <==> HasLevel(r.findings, Warn) && !HasLevel(r.findings, Critical))
      && (r.overall == Unknown <==>
            HasLevel(r.findings, Unknown) && !HasLevel(r.findings, Warn) && !HasLevel(r.findings, Critical))
  {
    hide Calls, SaveAll, Recent, HasLevel, Adjusted;
    CallsPrefix(d, runs, keep, cluster, i);
    WorstMeans(ReportAt(d, runs, keep, cluster, i).findings);
  }

  // ---- which files the two newest are ----

  lemma NthOfPruned(d: Dir, keep: nat, k: nat)
    requires k < keep
    ensures NthReport(Pruned(d, keep), k) == NthReport(d, k)
  {
    hide Listing, Top, HasSuffix;
    var names := Listing(ReportNames(d));
    PrunedNames(d, keep);
    ListingOfTop(ReportNames(d), keep);
    if k < |names| {
      var kept := Listing(Top(ReportNames(d), keep));
      assert kept[k] == names[k] && kept[k] in kept;
    }
  }

  /** Pruning never takes away what a run compares with: of everything ever written, the newest
      file is there, and the next one if the store keeps two. */
  lemma PruningSparesRecent(d: Dir, runs: seq<RunInput>, keep: nat, i: nat, k: nat)
    requires i < |runs| && k < keep
    ensures RawRecent(d, runs, keep, i, k) == Recent(Ever(d, RawCalls(runs[..i])), runs[i].listable, k)
  {
    hide Pruned, Ever, SaveAll, NthReport, BaselineOf;
    var calls := RawCalls(runs[..i]);
    PrunedAlike(d, calls, keep);
    NthOfPruned(SaveAll(d, calls, keep), keep, k);
    NthOfPruned(Ever(d, calls), keep, k);
  }

  /** A store that keeps one report has none to compare with second, once a save has succeeded
      and no later write has broken off. */
  lemma KeepOneForgets(d: Dir, runs: seq<RunInput>, i: nat)
    requires i < |runs| && Tidied(d, RawCalls(runs[..i]))
    ensures RawRecent(d, runs, 1, i, 1) == map[]
  {
    hide Ever, Tidied, Listing, Top, HasSuffix, Baseline;
    var calls := RawCalls(runs[..i]);
    PrunedAlike(d, calls, 1);
    PrunedNames(Ever(d, calls), 1);
    ListingOfTop(ReportNames(Ever(d, calls)), 1);
  }

  /** Runs start in strictly increasing seconds of four-digit years. */
  predicate Increasing(runs: seq<RunInput>) {
    && (forall i :: 0 <= i < |runs| ==> FourDigitYear(runs[i].startedAt))
    && (forall i, j :: 0 <= i < j < |runs| ==> EarlierSecond(runs[i].startedAt, runs[j].startedAt))
  }

  /** A file of that name would be the newest report file, and no folder is in its way. */
  predicate Newer(d: Dir, name: string) {
    !Blocked(d, name) && forall n <- ReportNames(d) :: Less(n, name)
  }

  /** The runs come after everything the directory already holds. */
  predicate Follows(d: Dir, runs: seq<RunInput>) {
    forall i :: 0 <= i < |runs| ==> Newer(d, FileName(runs[i].startedAt))
  }

  lemma OrderlyPrefix(d: Dir, runs: seq<RunInput>, i: nat)
    requires Increasing(runs) && Follows(d, runs) && i <= |runs|
    ensures Increasing(runs[..i]) && Follows(d, runs[..i])
  {
    hide FourDigitYear, EarlierSecond, Newer;
  }

  predicate LeavesFile(run: RunInput) {
    run.fault == NoFault || run.fault == CutShort
  }

  /** The runs whose save left a file, readable or not. */
  function Traces(runs: seq<RunInput>): seq<RunInput> {
    if runs == [] then []
    else
      var n := |runs| - 1;
      Traces(runs[..n]) + if LeavesFile(runs[n]) then [runs[n]] else []
  }

  /** What can be read back from the file a run left. */
  function TraceReport(run: RunInput): Option<seq<Finding>> {
    if run.fault == CutShort then None else Some(run.collected)
  }

  /** The `k`-th newest report after the runs: of the runs that left a file, and then of what
      the directory held. */
  ghost function NthTrace(d: Dir, runs: seq<RunInput>, k: nat): Option<seq<Finding>> {
    var ts := Traces(runs);
    if k < |ts| then TraceReport(ts[|ts| - 1 - k]) else NthReport(d, k - |ts|)
  }

  lemma StillNewer(d: Dir, runs: seq<RunInput>)
    requires Increasing(runs) && Follows(d, runs) && runs != []
    ensures var k := |runs| - 1;
      Newer(Ever(d, RawCalls(runs[..k])), FileName(runs[k].startedAt))
  {
    hide FileName, Less, Ever, ReportNames, EarlierSecond, FourDigitYear;
    var k := |runs| - 1;
    var name, calls := FileName(runs[k].startedAt), RawCalls(runs[..k]);
    FoldersStay(d, calls, 0, name);
    forall n | n in ReportNames(Ever(d, calls)) ensures Less(n, name) {
      NamesComeFrom(d, calls, n);
      if c :| c in calls && n == NameOf(c) {
        var j :| 0 <= j < |calls| && calls[j] == c;
        FileNameOrder(runs[j].startedAt, runs[k].startedAt);
      }
    }
  }

  /** Writing the newest file puts it before all others. */
  lemma NewestFirst(d: Dir, name: string, e: Store.Entry, k: nat)
    requires Newer(d, name) && IsReport(name, e)
    ensures NthReport(d[name := e], k) ==
      if k > 0 then NthReport(d, k - 1) else if e.File? then Some(e.data.findings) else None
  {
    hide Less, Listing, HasSuffix;
    NamesAfter(d, name, e);
    ListingOfGreatest(ReportNames(d), name);
    var old_ := Listing(ReportNames(d));
    if 0 < k <= |old_| {
      assert old_[k - 1] in old_;
      LessIrreflexive(name);
    }
  }

  lemma TraceStep(d: Dir, runs: seq<RunInput>, k: nat)
    requires runs != []
    ensures var n := |runs| - 1;
      NthTrace(d, runs, k) ==
        if !LeavesFile(runs[n]) then NthTrace(d, runs[..n], k)
        else if k > 0 then NthTrace(d, runs[..n], k - 1) else TraceReport(runs[n])
  {
    hide NthReport;
  }

  lemma EverStep(d: Dir, runs: seq<RunInput>)
    requires runs != []
    ensures var n := |runs| - 1;
      Ever(d, RawCalls(runs)) ==
        Written(Ever(d, RawCalls(runs[..n])), FileName(runs[n].startedAt), Raw(runs[n]).report, runs[n].fault)
  {
    hide FileName, Written;
    assert RawCalls(runs)[..|runs| - 1] == RawCalls(runs[..|runs| - 1]);
  }

  /** After runs in increasing seconds the newest files are those of the last runs that left one,
      in turn, and before them what the directory held. */
  lemma {:induction false} NewestAreTraces(d: Dir, runs: seq<RunInput>, k: nat)
    requires Increasing(runs) && Follows(d, runs)
    ensures NthReport(Ever(d, RawCalls(runs)), k) == NthTrace(d, runs, k)
  {
    hide FileName, NthReport, Ever, NthTrace, Increasing, Follows, IsReport, ReportNames, Less;
    if runs == [] {
      NoTraces(d, k);
    } else {
      var n := |runs| - 1;
      OrderlyPrefix(d, runs, n);
      NewestAreTraces(d, runs[..n], k);
      if k > 0 { NewestAreTraces(d, runs[..n], k - 1); }
      EverStep(d, runs);
      TraceStep(d, runs, k);
      StillNewer(d, runs);
      if LeavesFile(runs[n]) {
        var e := if runs[n].fault == NoFault then File(Raw(runs[n]).report) else Corrupt;
        FileNameIsReport(runs[n].startedAt, e);
        NewestFirst(Ever(d, RawCalls(runs[..n])), FileName(runs[n].startedAt), e, k);
      }
    }
  }

  lemma NoTraces(d: Dir, k: nat)
    ensures NthReport(Ever(d, RawCalls([])), k) == NthTrace(d, [], k)
  {
    hide NthReport;
    assert RawCalls([]) == [];
  }

  /** Main result: over runs in increasing seconds on any older history, whatever the disk does,
      a run is compared with the last run before it that left a file and, if the store keeps two,
      with the one before that; the first ones with what the history held. */
  lemma LastTracesDecide(d: Dir, runs: seq<RunInput>, keep: nat, i: nat, k: nat)
    requires Increasing(runs) && Follows(d, runs) && i < |runs| && k < keep
    ensures RawRecent(d, runs, keep, i, k) == if runs[i].listable then BaselineOf(NthTrace(d, runs[..i], k)) else map[]
  {
    hide Ever, NthReport, NthTrace, BaselineOf, RawRecent, Increasing, Follows;
    PruningSparesRecent(d, runs, keep, i, k);
    OrderlyPrefix(d, runs, i);
    NewestAreTraces(d, runs[..i], k);
  }

  /** The run before, if it was saved, is the newest trace; and the one before it the next. */
  lemma SavedTraces(d: Dir, runs: seq<RunInput>, i: nat)
    requires 1 <= i <= |runs| && runs[i - 1].fault == NoFault
    ensures NthTrace(d, runs[..i], 0) == Some(runs[i - 1].collected)
    ensures i >= 2 && runs[i - 2].fault == NoFault ==> NthTrace(d, runs[..i], 1) == Some(runs[i - 2].collected)
    ensures i == 1 ==> NthTrace(d, runs[..i], 1) == NthReport(d, 0)
  {
    hide NthTrace, NthReport, Traces;
    assert runs[..i][..i - 1] == runs[..i - 1];
    TraceStep(d, runs[..i], 0);
    TraceStep(d, runs[..i], 1);
    if i >= 2 {
      assert runs[..i - 1][..i - 2] == runs[..i - 2];
      TraceStep(d, runs[..i - 1], 0);
    } else {
      NoTraces(d, 0);
      assert runs[..0] == [] && Ever(d, RawCalls([])) == d;
    }
  }

  // ---- the alert rule over a history ----

  /** The reading of a node in one run. */
  function Reading(run: RunInput, node: string): Option<int> {
    Lookup(Baseline(run.collected), node)
  }

  /** The level a count ends with, given the readings in the two newest files. */
  function LevelFor(total: int, down: bool, r1: Option<int>, r2: Option<int>): Level {
    if down then Critical
    else if total <= 0 then OK
    else if (r1.None? && r2.None?) || Grew(total, r1) || Grew(total, r2) then Warn
    else OK
  }

  /** A finding as the bond inspector makes it for a node from the probe's text. */
  predicate FromProbe(f: Finding, raw: string, node: string) {
    f == BondFinding(raw).(node := node, nodeIP := f.nodeIP)
  }

  lemma ProbeLevel(f: Finding, raw: string, node: string, base1: map<string, int>, base2: map<string, int>)
    requires FromProbe(f, raw, node)
    ensures var level := Adjusted(f, base1, base2).level;
      var now := CountAll(Tally(0, false), Split(raw, '\n'));
      if Contains(raw, NO_BONDS) then level == OK
      else level == LevelFor(now.total, now.down, Lookup(base1, node), Lookup(base2, node))
  {
    hide Contains, CountAll, Split, Itoa, Atoi;
    var now := CountAll(Tally(0, false), Split(raw, '\n'));
    AtoiOfItoa(now.total);
    if !Contains(raw, NO_BONDS) { LevelRule(f, base1, base2); }
  }

  /** Main result: over any sequence of runs, whatever the clocks and the disk do, the level of a
      node's bond finding is decided by raw readings alone. It is OK without bonds, Critical if a
      link is down, OK if the total is not positive, Warn if neither of the two newest files has a
      reading, and else Warn exactly when the total exceeds one of those readings. */
  lemma LevelByReadings(d: Dir, runs: seq<RunInput>, keep: nat, cluster: string, i: nat,
                        p: nat, raw: string, node: string)
    requires i < |runs| && p < |runs[i].collected| && FromProbe(runs[i].collected[p], raw, node)
    ensures p < |ReportAt(d, runs, keep, cluster, i).findings|
    ensures
      var level := ReportAt(d, runs, keep, cluster, i).findings[p].level;
      var now := CountAll(Tally(0, false), Split(raw, '\n'));
      var r1, r2 := Lookup(RawRecent(d, runs, keep, i, 0), node), Lookup(RawRecent(d, runs, keep, i, 1), node);
      level == if Contains(raw, NO_BONDS) then OK else LevelFor(now.total, now.down, r1, r2)
  {
    hide *;
    RawReadingsDecide(d, runs, keep, cluster, i);
    ProbeLevel(runs[i].collected[p], raw, node, RawRecent(d, runs, keep, i, 0), RawRecent(d, runs, keep, i, 1));
  }

  /** A warned bond finding of a run, with the count the run's reading records. */
  predicate Warned(run: RunInput, p: nat, node: string) {
    && p < |run.collected|
    && run.collected[p].item == "hw_bond" && run.collected[p].node == node && run.collected[p].level == Warn
    && BondTotal(run.collected[p]).Some?
    && Reading(run, node) == BondTotal(run.collected[p])
  }

  lemma WarnedLevel(d: Dir, runs: seq<RunInput>, keep: nat, cluster: string, i: nat, p: nat, node: string)
    requires i < |runs| && Warned(runs[i], p, node)
    ensures p < |ReportAt(d, runs, keep, cluster, i).findings|
    ensures
      var cur := Reading(runs[i], node).value;
      var level := ReportAt(d, runs, keep, cluster, i).findings[p].level;
      var r1, r2 := Lookup(RawRecent(d, runs, keep, i, 0), node), Lookup(RawRecent(d, runs, keep, i, 1), node);
      && (level == Warn <==> (r1.None? && r2.None?) || Grew(cur, r1) || Grew(cur, r2))
      && (level == Warn || level == OK)
  {
    hide ReportAt, RawRecent, Baseline, Adjusted, Atoi;
    RawReadingsDecide(d, runs, keep, cluster, i);
    LevelRule(runs[i].collected[p], RawRecent(d, runs, keep, i, 0), RawRecent(d, runs, keep, i, 1));
  }

  /** What run `i` reads for the node one and two runs back, when those runs were saved and it
      could list the directory. */
  lemma ReadingsBack(d: Dir, runs: seq<RunInput>, keep: nat, i: nat, node: string)
    requires Increasing(runs) && Follows(d, runs) && keep >= 2 && 1 <= i < |runs|
    requires runs[i].listable && runs[i - 1].fault == NoFault
    ensures Lookup(RawRecent(d, runs, keep, i, 0), node) == Reading(runs[i - 1], node)
    ensures i >= 2 && runs[i - 2].fault == NoFault ==>
              Lookup(RawRecent(d, runs, keep, i, 1), node) == Reading(runs[i - 2], node)
    ensures i == 1 ==> RawRecent(d, runs, keep, i, 1) == BaselineOf(NthReport(d, 0))
  {
    hide RawRecent, NthTrace, NthReport, Baseline, Increasing, Follows;
    LastTracesDecide(d, runs, keep, i, 0);
    LastTracesDecide(d, runs, keep, i, 1);
    SavedTraces(d, runs, i);
  }

  /** The count of a warned node rises at run `i` and does not fall at the next, and these runs
      were saved and see the runs before. */
  predicate Rises(runs: seq<RunInput>, i: nat, p: nat, q: nat, node: string)
    requires 1 <= i && i + 1 < |runs|
  {
    && runs[i - 1].fault == NoFault && runs[i].fault == NoFault && runs[i].listable && runs[i + 1].listable
    && Warned(runs[i], p, node) && Warned(runs[i + 1], q, node) && Reading(runs[i - 1], node).Some?
    && Reading(runs[i - 1], node).value < Reading(runs[i], node).value <= Reading(runs[i + 1], node).value
  }

  /** No missed alert: a rise from one run to the next is Warn in that report and, unless the
      count falls, also in the report after it, so skipping one report loses nothing. */
  lemma RiseIsReportedTwice(d: Dir, runs: seq<RunInput>, keep: nat, cluster: string, i: nat,
                            p: nat, q: nat, node: string)
    requires Increasing(runs) && Follows(d, runs) && keep >= 2 && 1 <= i && i + 1 < |runs|
    ensures Rises(runs, i, p, q, node) ==>
      var fs, gs := ReportAt(d, runs, keep, cluster, i).findings, ReportAt(d, runs, keep, cluster, i + 1).findings;
      p < |fs| && fs[p].level == Warn && q < |gs| && gs[q].level == Warn
  {
    hide ReportAt, RawRecent, Reading, Increasing, Follows, Warned, Lookup, NthReport, BaselineOf;
    if Rises(runs, i, p, q, node) {
      ReadingsBack(d, runs, keep, i, node);
      ReadingsBack(d, runs, keep, i + 1, node);
      WarnedLevel(d, runs, keep, cluster, i, p, node);
      WarnedLevel(d, runs, keep, cluster, i + 1, q, node);
    }
  }

  /** A warned node's count is the same in three runs up to `i`, of which the first two were
      saved and the third sees them. */
  predicate Steady(runs: seq<RunInput>, i: nat, p: nat, node: string)
    requires 2 <= i < |runs|
  {
    && runs[i - 2].fault == NoFault && runs[i - 1].fault == NoFault && runs[i].listable
    && Warned(runs[i], p, node)
    && Reading(runs[i - 2], node) == Reading(runs[i - 1], node) == Reading(runs[i], node)
  }

  /** The alert ends: after three equal readings the third report says OK. */
  lemma SteadyCountClears(d: Dir, runs: seq<RunInput>, keep: nat, cluster: string, i: nat, p: nat, node: string)
    requires Increasing(runs) && Follows(d, runs) && keep >= 2 && 2 <= i < |runs|
    ensures Steady(runs, i, p, node) ==>
      var fs := ReportAt(d, runs, keep, cluster, i).findings;
      p < |fs| && fs[p].level == OK
  {
    hide ReportAt, RawRecent, Baseline, Increasing, Follows, Lookup, NthReport, BaselineOf, Atoi;
    if Steady(runs, i, p, node) {
      ReadingsBack(d, runs, keep, i, node);
      WarnedLevel(d, runs, keep, cluster, i, p, node);
    }
  }

  // ---- from the hosts' bonds to the level ----

  /** What the bond inspector asks grep for. */
  const BOND_PROBE := Keys(false, true)

  /** The run's only bond finding for the node, at `p`, is made from what its host printed. */
  predicate Probed(run: RunInput, node: string, p: nat, bonds: seq<BondFile>) {
    var raw := Print(bonds, BOND_PROBE, NO_BONDS);
    && Printable(bonds) && bonds != [] && !Contains(raw, NO_BONDS)
    && p < |run.collected| && FromProbe(run.collected[p], raw, node)
    && OnlyBondFinding(run.collected, p, node)
  }

  predicate OnlyBondFinding(fs: seq<Finding>, p: nat, node: string) {
    forall q :: 0 <= q < |fs| && q != p && fs[q].item == "hw_bond" ==> fs[q].node != node
  }

  lemma {:induction false} OnlyReading(fs: seq<Finding>, p: nat, node: string)
    requires p < |fs| && fs[p].item == "hw_bond" && fs[p].node == node && BondTotal(fs[p]).Some?
    requires OnlyBondFinding(fs, p, node)
    ensures Lookup(Baseline(fs), node) == BondTotal(fs[p])
  {
    hide BondTotal;
    var n := |fs| - 1;
    if p < n {
      OnlyReading(fs[..n], p, node);
    }
  }

  lemma ProbedReading(run: RunInput, node: string, p: nat, bonds: seq<BondFile>)
    requires Probed(run, node, p, bonds)
    ensures Reading(run, node) == Some(HostFailures(bonds))
  {
    hide Print, Printable, Contains, CountAll, Split, Itoa, Atoi, SomeDown, HostFailures, Baseline;
    PrintedTally(bonds, BOND_PROBE);
    HostFailuresSeen(bonds, BOND_PROBE);
    AtoiOfItoa(HostFailures(bonds));
    OnlyReading(run.collected, p, node);
  }

  ghost predicate AllProbed(runs: seq<RunInput>, node: string, ps: seq<nat>, hosts: seq<seq<BondFile>>) {
    && |ps| == |hosts| == |runs|
    && forall k :: 0 <= k < |runs| ==> Probed(runs[k], node, ps[k], hosts[k])
  }

  /** Run `i` can list the directory, and the two runs before it, as far as there are any, were saved. */
  predicate SeesBack(runs: seq<RunInput>, i: nat)
    requires i < |runs|
  {
    && runs[i].listable
    && (i >= 1 ==> runs[i - 1].fault == NoFault)
    && (i >= 2 ==> runs[i - 2].fault == NoFault)
  }

  /** Main result, from the hosts to the reports: if run `i` sees the two runs before it, the level
      a node's bond finding ends with is decided by the link states and failure counts its host
      showed at this run and at those two; at the first runs by what the history held. */
  lemma LevelByHosts(d: Dir, runs: seq<RunInput>, keep: nat, cluster: string, i: nat,
                     node: string, ps: seq<nat>, hosts: seq<seq<BondFile>>)
    requires Increasing(runs) && Follows(d, runs) && keep >= 2 && i < |runs| && SeesBack(runs, i)
    ensures AllProbed(runs, node, ps, hosts) ==>
      var r1 := if i >= 1 then Some(HostFailures(hosts[i - 1])) else Lookup(BaselineOf(NthReport(d, 0)), node);
      var r2 := if i >= 2 then Some(HostFailures(hosts[i - 2]))
                else Lookup(BaselineOf(NthReport(d, 1 - i)), node);
      var fs := ReportAt(d, runs, keep, cluster, i).findings;
      ps[i] < |fs| && fs[ps[i]].level == LevelFor(HostFailures(hosts[i]), SomeDown(hosts[i]), r1, r2)
  {
    hide ReportAt, RawRecent, Increasing, Follows, Print, Printable, Contains, CountAll, Split, SomeDown, HostFailures,
      Reading, BaselineOf, NthReport, FromProbe, LevelFor, Lookup;
    if AllProbed(runs, node, ps, hosts) {
      var raw := Print(hosts[i], BOND_PROBE, NO_BONDS);
      assert Probed(runs[i], node, ps[i], hosts[i]);
      LevelByReadings(d, runs, keep, cluster, i, ps[i], raw, node);
      PrintedTally(hosts[i], BOND_PROBE);
      HostFailuresSeen(hosts[i], BOND_PROBE);
      if i == 0 {
        FirstRunReads(d, runs, keep);
      } else {
        ReadingsBack(d, runs, keep, i, node);
        ProbedReading(runs[i - 1], node, ps[i - 1], hosts[i - 1]);
        if i >= 2 { ProbedReading(runs[i - 2], node, ps[i - 2], hosts[i - 2]); }
      }
    }
  }

  lemma FirstRunReads(d: Dir, runs: seq<RunInput>, keep: nat)
    requires runs != [] && runs[0].listable
    ensures forall k: nat :: RawRecent(d, runs, keep, 0, k) == BaselineOf(NthReport(d, k))
  {
    hide NthReport, BaselineOf;
    assert RawCalls(runs[..0]) == [];
  }

  // ---- clusters do not disturb each other ----

  datatype Tagged = Tagged(cluster: string, run: RunInput)

  function OfCluster(all: seq<Tagged>, cluster: string): seq<RunInput> {
    if all == [] then []
    else
      var n := |all| - 1;
      OfCluster(all[..n], cluster) + if all[n].cluster == cluster then [all[n].run] else []
  }

  /** The whole store after interleaved runs on any clusters. */
  ghost function StoreAfter(dirs: map<string, Dir>, all: seq<Tagged>, keep: nat): map<string, Dir> {
    if all == [] then dirs
    else
      var n := |all| - 1;
      StoreStep(StoreAfter(dirs, all[..n], keep), all[n], keep)
  }

  ghost function StoreStep(dirs: map<string, Dir>, t: Tagged, keep: nat): map<string, Dir> {
    SavedIn(dirs, keep, RunReport(DirIn(dirs, t.cluster), t.cluster, t.run), t.run.fault)
  }

  /** What a cluster's own runs leave in its directory. */
  ghost function OwnRuns(d: Dir, runs: seq<RunInput>, keep: nat, cluster: string): Dir {
    SaveAll(d, Calls(d, runs, keep, cluster), keep)
  }

  lemma OwnRunsSnoc(d: Dir, runs: seq<RunInput>, run: RunInput, keep: nat, cluster: string)
    ensures var now := OwnRuns(d, runs, keep, cluster);
      OwnRuns(d, runs + [run], keep, cluster) == Saved(now, keep, RunReport(now, cluster, run), run.fault)
  {
    hide Saved, RunReport, Calls;
    var all := runs + [run];
    assert all[..|runs|] == runs;
    CallsSnoc(d, all, keep, cluster);
    var before := Calls(d, runs, keep, cluster);
    var c := NextCall(d, before, keep, cluster, run);
    assert (before + [c])[..|before|] == before;
  }

  lemma OwnRunsNone(d: Dir, keep: nat, cluster: string)
    ensures OwnRuns(d, [], keep, cluster) == d
  {
  }

  /** One run changes its own cluster's directory only. */
  lemma StepDir(dirs: map<string, Dir>, t: Tagged, keep: nat, cluster: string)
    ensures var d := DirIn(dirs, cluster);
      DirIn(StoreStep(dirs, t, keep), cluster) ==
        if t.cluster == cluster then Saved(d, keep, RunReport(d, cluster, t.run), t.run.fault) else d
  {
    hide Recent, AdjustedAll, Worst, FileName, Pruned;
  }

  /** A cluster's directory depends on what it held and on that cluster's own runs only. */
  lemma {:induction false} ClustersAreIndependent(dirs: map<string, Dir>, all: seq<Tagged>, keep: nat, cluster: string)
    ensures DirIn(StoreAfter(dirs, all, keep), cluster)
         == OwnRuns(DirIn(dirs, cluster), OfCluster(all, cluster), keep, cluster)
  {
    hide Saved, RunReport, OwnRuns, DirIn, StoreStep;
    var d := DirIn(dirs, cluster);
    if all == [] {
      OwnRunsNone(d, keep, cluster);
    } else {
      var n := |all| - 1;
      ClustersAreIndependent(dirs, all[..n], keep, cluster);
      StepDir(StoreAfter(dirs, all[..n], keep), all[n], keep, cluster);
      var mine := OfCluster(all[..n], cluster);
      if all[n].cluster == cluster {
        OwnRunsSnoc(d, mine, all[n].run, keep, cluster);
      } else {
        assert mine + [] == mine;
      }
    }
  }

  /** Any sequence of runs on any store, whatever the disk does: afterwards each cluster's
      directory holds what that cluster's own runs leave. */
  method RunHistory(store: History, all: seq<Tagged>)
    modifies store
    ensures forall c :: store.DirOf(c) == OwnRuns(old(store.DirOf(c)), OfCluster(all, c), store.keep, c)
  {
    hide StoreAfter, StoreStep, OwnRuns, DirIn;
    var runner := new Runner(store);
    ghost var dirs := store.dirs;
    NoRunsYet(dirs, store.keep);
    for i := 0 to |all|
      invariant runner.store == store
      invariant store.dirs == StoreAfter(dirs, all[..i], store.keep)
    {
      StoreAfterSnoc(dirs, all, i, store.keep);
      OneStep(store.dirs, all[i], store.keep);
      var rep := runner.Run(all[i].cluster, all[i].run);
    }
    assert all[..|all|] == all;
    forall c ensures store.DirOf(c) == OwnRuns(old(store.DirOf(c)), OfCluster(all, c), store.keep, c) {
      ClustersAreIndependent(dirs, all, store.keep, c);
    }
  }

  lemma NoRunsYet(dirs: map<string, Dir>, keep: nat)
    ensures StoreAfter(dirs, [], keep) == dirs
  {
  }

  lemma OneStep(dirs: map<string, Dir>, t: Tagged, keep: nat)
    ensures StoreStep(dirs, t, keep)
         == SavedIn(dirs, keep, RunReport(DirIn(dirs, t.cluster), t.cluster, t.run), t.run.fault)
  {
  }

  lemma StoreAfterSnoc(dirs: map<string, Dir>, all: seq<Tagged>, i: nat, keep: nat)
    requires i < |all|
    ensures StoreAfter(dirs, all[..i + 1], keep) == StoreStep(StoreAfter(dirs, all[..i], keep), all[i], keep)
  {
    hide StoreStep;
    assert all[..i + 1][..i] == all[..i];
  }

  // ---- scheduling does not matter, over whole histories ----

  /** Two runs that differ only in the order of their findings, and leave the same readings. */
  predicate SameButOrder(x: RunInput, y: RunInput) {
    && x.startedAt == y.startedAt && x.listable == y.listable && x.fault == y.fault
    && multiset(x.collected) == multiset(y.collected)
    && Baseline(x.collected) == Baseline(y.collected)
  }

  ghost predicate SameUpToOrder(xs: seq<RunInput>, ys: seq<RunInput>) {
    |xs| == |ys| && forall k :: 0 <= k < |xs| ==> SameButOrder(xs[k], ys[k])
  }

  lemma SameRecent(d: Dir, xs: seq<RunInput>, ys: seq<RunInput>, keep: nat, i: nat, k: nat)
    requires SameUpToOrder(xs, ys) && i < |xs|
    ensures RawRecent(d, xs, keep, i, k) == RawRecent(d, ys, keep, i, k)
  {
    hide Baseline, SaveAll, Recent, AlikeDirs;
    assert SameButOrder(xs[i], ys[i]);
    var a, b := RawCalls(xs[..i]), RawCalls(ys[..i]);
    forall j | 0 <= j < i ensures AlikeCall(a[j], b[j]) { assert SameButOrder(xs[j], ys[j]); }
    AlikeSaves(d, a, b, keep);
    AlikeRecent(SaveAll(d, a, keep), SaveAll(d, b, keep), xs[i].listable, k);
  }

  lemma OverallIsWorst(d: Dir, runs: seq<RunInput>, keep: nat, cluster: string, i: nat)
    requires i < |runs|
    ensures var r := ReportAt(d, runs, keep, cluster, i); r.overall == Worst(r.findings)
  {
    hide Calls, SaveAll, Recent, AdjustedAll, Worst;
    CallsPrefix(d, runs, keep, cluster, i);
  }

  /** The order in which a run's findings were collected changes no report but by that order. */
  lemma OrderDoesNotMatter(d: Dir, xs: seq<RunInput>, ys: seq<RunInput>, keep: nat, cluster: string, i: nat)
    requires SameUpToOrder(xs, ys) && i < |xs|
    ensures var rx, ry := ReportAt(d, xs, keep, cluster, i), ReportAt(d, ys, keep, cluster, i);
      multiset(rx.findings) == multiset(ry.findings) && rx.overall == ry.overall
  {
    hide ReportAt, AdjustedAll, Baseline, RawRecent, Worst;
    assert SameButOrder(xs[i], ys[i]);
    RawReadingsDecide(d, xs, keep, cluster, i);
    RawReadingsDecide(d, ys, keep, cluster, i);
    SameRecent(d, xs, ys, keep, i, 0);
    SameRecent(d, xs, ys, keep, i, 1);
    AdjustedOfPermutation(xs[i].collected, ys[i].collected, RawRecent(d, xs, keep, i, 0), RawRecent(d, xs, keep, i, 1));
    OverallIsWorst(d, xs, keep, cluster, i);
    OverallIsWorst(d, ys, keep, cluster, i);
    WorstOfPermutation(ReportAt(d, xs, keep, cluster, i).findings, ReportAt(d, ys, keep, cluster, i).findings);
  }

  datatype Inspection = Inspection(job: FanOut.Job, at: Instant, listable: bool, fault: Fault)

  /** One complete schedule for each inspection. */
  predicate AllComplete(ins: seq<Inspection>, schedules: seq<seq<FanOut.Actor>>) {
    && |ins| == |schedules|
    && forall k :: 0 <= k < |ins| ==> FanOut.Completes(ins[k].job, schedules[k])
  }

  /** The run an inspection yields under a schedule. */
  function InputOf(ins: Inspection, schedule: seq<FanOut.Actor>): RunInput
    requires FanOut.Completes(ins.job, schedule)
  {
    RunInput(ins.at, FanOut.Collected(ins.job, schedule), ins.listable, ins.fault)
  }

  function Inputs(ins: seq<Inspection>, schedules: seq<seq<FanOut.Actor>>): (r: seq<RunInput>)
    requires AllComplete(ins, schedules)
    ensures |r| == |ins|
    ensures forall k :: 0 <= k < |ins| ==> r[k] == InputOf(ins[k], schedules[k])
  {
    seq(|ins|, k requires 0 <= k < |ins| => InputOf(ins[k], schedules[k]))
  }

  /** Main result, end to end: over a whole history of runs on any store, whatever the clocks and
      the disk do, however the goroutines of each run were interleaved, every report has the same
      findings and the same overall level, provided that in each run blocks that read the same
      node end with the same count. */
  lemma HistoryIsScheduleIndependent(d: Dir, ins: seq<Inspection>, sa: seq<seq<FanOut.Actor>>,
                                     sb: seq<seq<FanOut.Actor>>, keep: nat, cluster: string, i: nat)
    requires AllComplete(ins, sa) && AllComplete(ins, sb) && i < |ins|
    requires forall k :: 0 <= k < |ins| ==> Compatible(ins[k].job)
    ensures var ra := ReportAt(d, Inputs(ins, sa), keep, cluster, i);
      var rb := ReportAt(d, Inputs(ins, sb), keep, cluster, i);
      multiset(ra.findings) == multiset(rb.findings) && ra.overall == rb.overall
  {
    hide ReportAt, FanOut.Completes, FanOut.Collected, FanOut.Sequential, Compatible, Baseline;
    var xs, ys := Inputs(ins, sa), Inputs(ins, sb);
    forall k | 0 <= k < |ins| ensures SameButOrder(xs[k], ys[k]) {
      FanOut.ScheduleIndependent(ins[k].job, sa[k]);
      FanOut.ScheduleIndependent(ins[k].job, sb[k]);
      SameReadings(ins[k].job, sa[k], sb[k]);
    }
    OrderDoesNotMatter(d, xs, ys, keep, cluster, i);
  }
}
