/** The report history on disk: one directory per cluster, one JSON file per run, pruned to
    the newest `keep` after every save. */
module Store {
  import opened Text
  import opened Inspect
  import opened Ordering

  /** A directory entry: a readable report, a file that does not parse, or a folder. */
  datatype Entry = File(data: ReportData) | Corrupt | Folder

  type Dir = map<string, Entry>

  /** What `List` picks: files whose extension is .json. */
  predicate IsReport(name: string, e: Entry) {
    !e.Folder? && HasSuffix(name, ".json")
  }

  function ReportNames(d: Dir): set<string> {
    set n | n in d && IsReport(n, d[n])
  }

  /** A directory after `prune`: of the report files only the `keep` greatest names stay. */
  ghost function Pruned(d: Dir, keep: nat): Dir {
    map n | n in d && (IsReport(n, d[n]) ==> n in Top(ReportNames(d), keep)) :: d[n]
  }

  /** What the disk does to one write: nothing goes wrong, the cluster's directory cannot be
      made, the file cannot be opened, or the write breaks off and leaves an unreadable file. */
  datatype Fault = NoFault | NoDirectory | NotOpened | CutShort

  /** A folder of that name stands in the way of a file. */
  predicate Blocked(d: Dir, name: string) {
    name in d && d[name].Folder?
  }

  predicate Succeeds(d: Dir, name: string, fault: Fault) {
    fault == NoFault && !Blocked(d, name)
  }

  /** A directory after one file has been written, or after the attempt. */
  function Written(d: Dir, name: string, r: ReportData, fault: Fault): Dir {
    if Blocked(d, name) then d
    else
      match fault
      case NoFault => d[name := File(r)]
      case CutShort => d[name := Corrupt]
      case _ => d
  }

  /** A directory after `Save`: only a successful write is followed by pruning. */
  ghost function Saved(d: Dir, keep: nat, r: ReportData, fault: Fault): Dir {
    var name := FileName(r.startedAt);
    var w := Written(d, name, r, fault);
    if Succeeds(d, name, fault) then Pruned(w, keep) else w
  }

  function DirIn(dirs: map<string, Dir>, cluster: string): Dir {
    if cluster in dirs then dirs[cluster] else map[]
  }

  /** The whole history after `Save`. */
  ghost function SavedIn(dirs: map<string, Dir>, keep: nat, r: ReportData, fault: Fault): map<string, Dir> {
    if fault == NoDirectory then dirs
    else dirs[r.cluster := Saved(DirIn(dirs, r.cluster), keep, r, fault)]
  }

  class History {
    const keep: nat
    var dirs: map<string, Dir>

    constructor (keep: int)
      ensures this.keep == (if keep <= 0 then 30 else keep) && this.keep >= 1
      ensures dirs == map[]
    {
      this.keep := if keep <= 0 then 30 else keep;
      dirs := map[];
    }

    function DirOf(cluster: string): Dir
      reads this
    {
      DirIn(dirs, cluster)
    }

    /** Report file names, newest first. */
    method List(cluster: string) returns (names: seq<string>)
      ensures names == Listing(ReportNames(DirOf(cluster)))
      ensures Descending(names)
      ensures forall n :: n in names <==>
                cluster in dirs && n in dirs[cluster] && !dirs[cluster][n].Folder? && HasSuffix(n, ".json")
    {
      var todo := ReportNames(DirOf(cluster));
      names := [];
      while todo != {}
        invariant Descending(names)
        invariant forall n :: n in names <==> n in ReportNames(DirOf(cluster)) - todo
        invariant todo <= ReportNames(DirOf(cluster))
        decreases todo
      {
        var n :| n in todo;
        names := InsertDescending(names, n);
        todo := todo - {n};
      }
      ListingUnique(names, ReportNames(DirOf(cluster)));
    }

    /** Cluster names, sorted. */
    method Clusters() returns (names: seq<string>)
      ensures names == Reversed(Listing(dirs.Keys))
    {
      var todo := dirs.Keys;
      var down := [];
      while todo != {}
        invariant Descending(down)
        invariant forall n :: n in down <==> n in dirs.Keys - todo
        invariant todo <= dirs.Keys
        decreases todo
      {
        var n :| n in todo;
        down := InsertDescending(down, n);
        todo := todo - {n};
      }
      ListingUnique(down, dirs.Keys);
      names := Reversed(down);
    }

    method Load(cluster: string, name: string) returns (r: Report?)
      ensures r == null <==> !(name in DirOf(cluster) && DirOf(cluster)[name].File?)
      ensures r != null ==> fresh(r) && r.Data() == DirOf(cluster)[name].data
    {
      var d := DirOf(cluster);
      if name in d && d[name].File? {
        r := new Report.Load(d[name].data);
      } else {
        r := null;
      }
    }

    method Save(r: Report, fault: Fault) returns (ok: bool)
      modifies this
      ensures dirs == SavedIn(old(dirs), keep, r.Data(), fault)
      ensures ok <==> Succeeds(old(DirOf(r.cluster)), FileName(r.startedAt), fault)
    {
      hide FileName, Pruned;
      if fault == NoDirectory { return false; }
      var d := DirOf(r.cluster);
      var name := FileName(r.startedAt);
      dirs := dirs[r.cluster := Written(d, name, r.Data(), fault)];
      if !Succeeds(d, name, fault) { return false; }
      Prune(r.cluster);
      ok := true;
    }

    method Prune(cluster: string)
      requires cluster in dirs
      modifies this
      ensures dirs == old(dirs)[cluster := Pruned(old(dirs)[cluster], keep)]
    {
      hide Pruned, Listing, Descending, Less, ReportNames, DirOf;
      var names := List(cluster);
      ghost var d := dirs[cluster];
      assert DirOf(cluster) == d by { OwnDir(this, cluster); }
      var i := if |names| < keep then |names| else keep;
      ghost var from := i;
      while i < |names|
        invariant from <= i <= |names|
        invariant cluster in dirs && dirs[cluster] == d - Members(names[from..i])
        invariant dirs == old(dirs)[cluster := dirs[cluster]]
      {
        MembersSnoc(names, from, i);
        dirs := dirs[cluster := dirs[cluster] - {names[i]}];
        i := i + 1;
      }
      assert names[from..] == names[from..|names|];
      KeptNames(d, keep, names, from);
      assert dirs[cluster] == Pruned(d, keep);
    }

    /** Writes one file and touches nothing else; a missing directory makes the write fail. */
    method RewriteReport(cluster: string, name: string, r: Report, fault: Fault) returns (ok: bool)
      modifies this
      ensures dirs == if cluster in old(dirs)
                      then old(dirs)[cluster := Written(old(dirs)[cluster], name, r.Data(), fault)] else old(dirs)
      ensures ok <==> cluster in old(dirs) && Succeeds(old(dirs)[cluster], name, fault)
    {
      if cluster !in dirs { return false; }
      ok := Succeeds(dirs[cluster], name, fault);
      dirs := dirs[cluster := Written(dirs[cluster], name, r.Data(), fault)];
    }
  }

  lemma OwnDir(h: History, cluster: string)
    requires cluster in h.dirs
    ensures h.DirOf(cluster) == h.dirs[cluster]
  {
  }

  function Reversed(s: seq<string>): (r: seq<string>)
    ensures |r| == |s| && forall k :: 0 <= k < |s| ==> r[k] == s[|s| - 1 - k]
  {
    seq(|s|, k requires 0 <= k < |s| => s[|s| - 1 - k])
  }

  method InsertDescending(names: seq<string>, n: string) returns (r: seq<string>)
    requires Descending(names) && n !in names
    ensures Descending(r) && forall m :: m in r <==> m in names || m == n
  {
    var k := 0;
    while k < |names| && Less(n, names[k])
      invariant 0 <= k <= |names|
      invariant forall j :: 0 <= j < k ==> Less(n, names[j])
    {
      k := k + 1;
    }
    r := names[..k] + [n] + names[k..];
    if k < |names| {
      assert names[k] in names;
      LessTotal(n, names[k]);
      forall j | k <= j < |names| ensures Less(names[j], n) {
        if j > k { LessTransitive(names[j], names[k], n); }
      }
    }
    assert forall m :: m in names ==> m in names[..k] || m in names[k..];
  }

  ghost function Members(names: seq<string>): set<string> {
    set n | n in names
  }

  lemma MembersSnoc(names: seq<string>, from: nat, i: nat)
    requires from <= i < |names|
    ensures Members(names[from..i + 1]) == Members(names[from..i]) + {names[i]}
  {
    assert names[from..i + 1] == names[from..i] + [names[i]];
  }

  lemma KeptNames(d: Dir, keep: nat, names: seq<string>, from: nat)
    requires names == Listing(ReportNames(d))
    requires from == if |names| < keep then |names| else keep
    ensures d - Members(names[from..]) == Pruned(d, keep)
  {
    hide Less, HasSuffix, Listing;
    var s := ReportNames(d);
    forall n | n in s ensures n in names[from..] <==> n !in Top(s, keep) {
      OutsideTop(s, keep, names, from, n);
    }
    assert forall n :: n in names[from..] ==> n in names;
  }

  lemma OutsideTop(s: set<string>, keep: nat, names: seq<string>, from: nat, n: string)
    requires names == Listing(s) && n in s
    requires from == if |names| < keep then |names| else keep
    ensures n in names[from..] <==> n !in Top(s, keep)
  {
    hide Less, Listing;
    ListingAt(n, s);
    var k := |Greater(n, s)|;
    DescendingDistinct(names);
    if k >= from {
      assert names[from..][k - from] == n;
    } else {
      assert forall j :: 0 <= j < |names| - from ==> names[from..][j] == names[from + j];
    }
  }

  // ---- every sequence of saves, on any directory, whatever the disk does ----

  /** One call of `Save` and what the disk does to it. */
  datatype SaveCall = SaveCall(report: ReportData, fault: Fault)

  function NameOf(c: SaveCall): string {
    FileName(c.report.startedAt)
  }

  /** What the directory would hold if nothing were ever pruned: what was there, and the file
      each call left, the last one under each name. */
  function Ever(d: Dir, calls: seq<SaveCall>): Dir {
    if calls == [] then d
    else
      var k := |calls| - 1;
      Written(Ever(d, calls[..k]), NameOf(calls[k]), calls[k].report, calls[k].fault)
  }

  /** The directory after the calls. */
  ghost function SaveAll(d: Dir, calls: seq<SaveCall>, keep: nat): Dir {
    if calls == [] then d
    else
      var k := |calls| - 1;
      Saved(SaveAll(d, calls[..k], keep), keep, calls[k].report, calls[k].fault)
  }

  /** The call leaves the directory as it is. */
  predicate LeavesAlone(d: Dir, c: SaveCall) {
    Blocked(d, NameOf(c)) || c.fault == NoDirectory || c.fault == NotOpened
  }

  predicate AllLeaveAlone(d: Dir, calls: seq<SaveCall>) {
    forall k :: 0 <= k < |calls| ==> LeavesAlone(d, calls[k])
  }

  /** Since the last successful call no write has broken off. */
  predicate Tidied(d: Dir, calls: seq<SaveCall>) {
    && calls != []
    && var k := |calls| - 1;
       || Succeeds(d, NameOf(calls[k]), calls[k].fault)
       || (LeavesAlone(d, calls[k]) && Tidied(d, calls[..k]))
  }

  lemma FileNameIsReport(t: Instant, e: Entry)
    requires !e.Folder?
    ensures IsReport(FileName(t), e)
  {
    var head := Pad(t.year, 4) + Pad(t.month, 2) + Pad(t.day, 2) + "-"
      + Pad(t.hour, 2) + Pad(t.minute, 2) + Pad(t.second, 2);
    assert FileName(t) == head + ".json";
  }

  lemma TopWithin(s: set<string>, keep: nat)
    ensures Top(s, keep) <= s
  {
  }

  lemma PrunedNames(d: Dir, keep: nat)
    ensures ReportNames(Pruned(d, keep)) == Top(ReportNames(d), keep)
  {
    hide Top, HasSuffix;
    TopWithin(ReportNames(d), keep);
  }

  lemma NamesAfter(d: Dir, name: string, e: Entry)
    requires IsReport(name, e)
    ensures ReportNames(d[name := e]) == ReportNames(d) + {name}
  {
    hide HasSuffix;
  }

  /** Pruning before a file is written changes nothing that pruning after it does not. */
  lemma PruneSavePrune(d: Dir, keep: nat, name: string, e: Entry)
    requires IsReport(name, e)
    ensures Pruned(Pruned(d, keep)[name := e], keep) == Pruned(d[name := e], keep)
  {
    hide Top, HasSuffix;
    var p := Pruned(d, keep);
    PrunedNames(d, keep);
    NamesAfter(d, name, e);
    NamesAfter(p, name, e);
    TopAfterTop(ReportNames(d), keep, name);
    TopWithin(ReportNames(p) + {name}, keep);
  }

  /** Pruning twice is pruning once. */
  lemma PruneTwice(d: Dir, keep: nat)
    ensures Pruned(Pruned(d, keep), keep) == Pruned(d, keep)
  {
    hide Top, HasSuffix;
    PrunedNames(d, keep);
    TopOfTop(ReportNames(d), keep);
  }

  lemma TopOfTop(s: set<string>, keep: nat)
    ensures Top(Top(s, keep), keep) == Top(s, keep)
  {
    hide Less;
    forall n | n in Top(s, keep) ensures |Greater(n, Top(s, keep))| <= |Greater(n, s)| {
      SubsetSize(Greater(n, Top(s, keep)), Greater(n, s));
    }
  }

  /** Folders are neither made nor removed. */
  lemma {:induction false} FoldersStay(d: Dir, calls: seq<SaveCall>, keep: nat, name: string)
    ensures Blocked(SaveAll(d, calls, keep), name) <==> Blocked(d, name)
    ensures Blocked(Ever(d, calls), name) <==> Blocked(d, name)
  {
    hide FileName, Top, HasSuffix;
    if calls != [] { FoldersStay(d, calls[..|calls| - 1], keep, name); }
  }

  /** One call on directories that agree up to pruning. */
  lemma SameCall(now: Dir, ever: Dir, keep: nat, c: SaveCall)
    requires Pruned(now, keep) == Pruned(ever, keep) && (Blocked(now, NameOf(c)) <==> Blocked(ever, NameOf(c)))
    ensures var w := Written(ever, NameOf(c), c.report, c.fault);
      var s := Saved(now, keep, c.report, c.fault);
      && Pruned(s, keep) == Pruned(w, keep)
      && (Succeeds(ever, NameOf(c), c.fault) ==> s == Pruned(w, keep))
  {
    hide FileName, Pruned, Blocked, IsReport;
    if !Blocked(ever, NameOf(c)) && (c.fault == NoFault || c.fault == CutShort) {
      var e := if c.fault == NoFault then File(c.report) else Corrupt;
      FileNameIsReport(c.report.startedAt, e);
      PruneSavePrune(now, keep, NameOf(c), e);
      PruneSavePrune(ever, keep, NameOf(c), e);
      PruneTwice(ever[NameOf(c) := e], keep);
    }
  }

  /** What is kept agrees with everything ever written, up to pruning. */
  lemma {:induction false} PrunedAlike(d: Dir, calls: seq<SaveCall>, keep: nat)
    ensures Pruned(SaveAll(d, calls, keep), keep) == Pruned(Ever(d, calls), keep)
    ensures AllLeaveAlone(d, calls) ==> SaveAll(d, calls, keep) == d
    ensures Tidied(d, calls) ==> SaveAll(d, calls, keep) == Pruned(Ever(d, calls), keep)
  {
    hide FileName, Pruned, Blocked, IsReport;
    if calls != [] {
      var k := |calls| - 1;
      var front, c := calls[..k], calls[k];
      PrunedAlike(d, front, keep);
      FoldersStay(d, front, keep, NameOf(c));
      SameCall(SaveAll(d, front, keep), Ever(d, front), keep, c);
      assert AllLeaveAlone(d, calls) ==> AllLeaveAlone(d, front) && LeavesAlone(d, c);
    }
  }

  lemma {:induction false} Within(d: Dir, calls: seq<SaveCall>, keep: nat)
    ensures var now := SaveAll(d, calls, keep);
      var ever := Ever(d, calls);
      forall n <- now :: n in ever && now[n] == ever[n]
    ensures forall n <- Ever(d, calls) :: !IsReport(n, Ever(d, calls)[n]) ==> n in SaveAll(d, calls, keep)
  {
    hide FileName, Top, HasSuffix;
    if calls != [] {
      var k := |calls| - 1;
      Within(d, calls[..k], keep);
      FoldersStay(d, calls[..k], keep, NameOf(calls[k]));
    }
  }

  /** Main result: after any sequence of saves, in any order of timestamps, on whatever the
      directory held before and whatever the disk did, the `keep` greatest report names ever
      there are all there, each with what the last save under it left; nothing else is there but
      what ever was, and other entries are untouched. The report files are exactly those names
      unless a write has broken off since the last success; and nothing at all has changed, not
      even by pruning, if no call could write. */
  lemma SavesKeepNewest(d: Dir, calls: seq<SaveCall>, keep: nat)
    ensures var now := SaveAll(d, calls, keep);
      var ever := Ever(d, calls);
      && Top(ReportNames(ever), keep) <= ReportNames(now)
      && (forall n <- now :: n in ever && now[n] == ever[n])
      && (forall n <- ever :: !IsReport(n, ever[n]) ==> n in now)
      && (Tidied(d, calls) ==> ReportNames(now) == Top(ReportNames(ever), keep))
      && (AllLeaveAlone(d, calls) ==> now == d)
  {
    hide SaveAll, Ever, Top, HasSuffix, Tidied, AllLeaveAlone;
    PrunedAlike(d, calls, keep);
    Within(d, calls, keep);
    PrunedNames(SaveAll(d, calls, keep), keep);
    PrunedNames(Ever(d, calls), keep);
    TopWithin(ReportNames(SaveAll(d, calls, keep)), keep);
  }

  /** When the disk fails no call, one of the two cases holds: the directory is as it was, or
      it is pruned. */
  lemma {:induction false} WithoutFaults(d: Dir, calls: seq<SaveCall>)
    requires forall k :: 0 <= k < |calls| ==> calls[k].fault == NoFault
    ensures AllLeaveAlone(d, calls) || Tidied(d, calls)
  {
    hide FileName, Blocked;
    if calls != [] { WithoutFaults(d, calls[..|calls| - 1]); }
  }

  /** All report names come from what was there and from the calls. */
  lemma {:induction false} NamesComeFrom(d: Dir, calls: seq<SaveCall>, n: string)
    requires n in ReportNames(Ever(d, calls))
    ensures n in ReportNames(d) || exists c <- calls :: n == NameOf(c)
  {
    hide FileName, HasSuffix;
    if calls != [] {
      var k := |calls| - 1;
      if n == NameOf(calls[k]) {
        assert calls[k] in calls;
      } else {
        NamesComeFrom(d, calls[..k], n);
      }
    }
  }

  /** The last call up to `k` that wrote under the name. */
  predicate LastWrite(d: Dir, calls: seq<SaveCall>, name: string, k: int) {
    && 0 <= k < |calls| && NameOf(calls[k]) == name && !LeavesAlone(d, calls[k])
    && forall m :: k < m < |calls| && NameOf(calls[m]) == name ==> LeavesAlone(d, calls[m])
  }

  predicate NeverWritten(d: Dir, calls: seq<SaveCall>, name: string) {
    forall k :: 0 <= k < |calls| && NameOf(calls[k]) == name ==> LeavesAlone(d, calls[k])
  }

  /** The name holds the report of the last call that wrote under it, nothing readable if that
      write broke off, and what was there before if no call wrote. */
  ghost predicate HoldsLastWrite(d: Dir, calls: seq<SaveCall>, name: string, now: Dir) {
    && (forall k :: LastWrite(d, calls, name, k) ==>
          name in now && now[name] == if calls[k].fault == NoFault then File(calls[k].report) else Corrupt)
    && (NeverWritten(d, calls, name) ==> (name in now <==> name in d) && (name in d ==> now[name] == d[name]))
  }

  /** What `Ever` stands for. */
  lemma {:induction false} EverIsTheLastWrite(d: Dir, calls: seq<SaveCall>, name: string)
    ensures HoldsLastWrite(d, calls, name, Ever(d, calls))
  {
    hide FileName, Blocked, Written, LeavesAlone;
    if calls != [] {
      var k := |calls| - 1;
      var front, c := calls[..k], calls[k];
      EverIsTheLastWrite(d, front, name);
      FoldersStay(d, front, 0, NameOf(c));
      SameFolders(Ever(d, front), d, c);
      WrittenUnder(Ever(d, front), c, name);
      OneMoreWrite(d, calls, name, Ever(d, front), Ever(d, calls));
    }
  }

  lemma SameFolders(d: Dir, e: Dir, c: SaveCall)
    requires Blocked(d, NameOf(c)) <==> Blocked(e, NameOf(c))
    ensures LeavesAlone(d, c) <==> LeavesAlone(e, c)
  {
    hide FileName;
  }

  /** What one call leaves under a name. */
  ghost predicate Leaves(d: Dir, c: SaveCall, name: string, now: Dir) {
    if NameOf(c) == name && !LeavesAlone(d, c)
    then name in now && now[name] == if c.fault == NoFault then File(c.report) else Corrupt
    else (name in now <==> name in d) && (name in d ==> now[name] == d[name])
  }

  lemma WrittenUnder(d: Dir, c: SaveCall, name: string)
    ensures Leaves(d, c, name, Written(d, NameOf(c), c.report, c.fault))
  {
    hide FileName;
  }

  lemma OneMoreWrite(d: Dir, calls: seq<SaveCall>, name: string, before: Dir, now: Dir)
    requires calls != [] && HoldsLastWrite(d, calls[..|calls| - 1], name, before)
    requires var c := calls[|calls| - 1];
      (LeavesAlone(before, c) <==> LeavesAlone(d, c)) && Leaves(before, c, name, now)
    ensures HoldsLastWrite(d, calls, name, now)
  {
    hide FileName, LeavesAlone;
    var k := |calls| - 1;
    var front := calls[..k];
    assert forall m :: 0 <= m < k ==> front[m] == calls[m];
    forall m | LastWrite(d, calls, name, m)
      ensures name in now && now[name] == if calls[m].fault == NoFault then File(calls[m].report) else Corrupt
    {
      if m < k { assert LastWrite(d, front, name, m); }
    }
    if NeverWritten(d, calls, name) { assert NeverWritten(d, front, name); }
  }

  /** One save in plain terms. It succeeds exactly when the disk does nothing wrong and no folder
      has the file's name; then the file holds the report and of the .json files those with fewer
      than `keep` greater ones stay. Otherwise a write that breaks off leaves an unreadable file and
      anything else leaves all as it was. */
  lemma SaveMeans(d: Dir, keep: nat, r: ReportData, fault: Fault)
    ensures var name, after := FileName(r.startedAt), Saved(d, keep, r, fault);
      var free := name in d ==> !d[name].Folder?;
      && (fault == NoFault && free ==>
            var full := d[name := File(r)];
            && (forall n <- after :: n in full && after[n] == full[n])
            && (forall n <- full :: n in after <==>
                  (!full[n].Folder? && HasSuffix(n, ".json") ==> |Greater(n, ReportNames(full))| < keep)))
      && (fault == CutShort && free ==> after == d[name := Corrupt])
      && (fault == NoDirectory || fault == NotOpened || !free ==> after == d)
  {
    hide FileName, HasSuffix, Greater;
  }

  // ---- the newest two ----

  lemma ListingOfTop(s: set<string>, keep: nat)
    ensures Listing(Top(s, keep)) == Listing(s)[..if |Listing(s)| < keep then |Listing(s)| else keep]
  {
    hide Listing, Less, Top;
    var names := Listing(s);
    var from := if |names| < keep then |names| else keep;
    DescendingDistinct(names);
    TopWithin(s, keep);
    forall n ensures n in names[..from] <==> n in Top(s, keep) {
      if n in s {
        OutsideTop(s, keep, names, from, n);
      }
    }
    ListingUnique(names[..from], Top(s, keep));
  }

  lemma ListingOfGreatest(s: set<string>, x: string)
    requires forall n <- s :: Less(n, x)
    ensures Listing(s + {x}) == [x] + Listing(s)
  {
    hide Less, Listing;
    var names := [x] + Listing(s);
    assert forall j :: 1 <= j < |names| ==> names[j] in Listing(s) && Less(names[j], x);
    ListingUnique(names, s + {x});
  }
}
