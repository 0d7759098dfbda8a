/** Backfilling the failure total into reports written before the metric existed. */
module Migrate {
  import opened Text
  import opened Inspect
  import opened Ordering
  import opened Store
  import opened HardwareBond
  import BondText

  const LABEL := "Link Failure "
  const UNIT := " 次"
  const HEALTHY := "bond 链路正常"

  // ---- the pattern `Link Failure (\d+) 次` ----

  function LeadingDigits(s: string): (d: string)
    ensures AllDigits(d) && d <= s
  {
    if s != "" && IsDigit(s[0]) then [s[0]] + LeadingDigits(s[1..]) else ""
  }

  function MatchHere(s: string): Option<string> {
    if !HasPrefix(s, LABEL) then None
    else
      var rest := s[|LABEL|..];
      var ds := LeadingDigits(rest);
      if ds != "" && HasPrefix(rest[|ds|..], UNIT) then Some(ds) else None
  }

  /** The digits of the leftmost match. */
  function FirstMatch(s: string): Option<string>
    ensures FirstMatch(s).Some? ==> AllDigits(FirstMatch(s).value) && FirstMatch(s).value != ""
  {
    if MatchHere(s).Some? then MatchHere(s) else if s == "" then None else FirstMatch(s[1..])
  }

  function RecoverBondTotal(summary: string): Option<int> {
    match FirstMatch(summary)
    case Some(ds) => Some(AtoiOrZero(ds))
    case None => if Contains(summary, HEALTHY) then Some(0) else None
  }

  /** `backfillBondFinding`: the finding afterwards; it was modified when it differs. */
  function Backfilled(f: Finding): Finding {
    if f.item != "hw_bond" || TOTAL in f.metrics then f
    else
      match RecoverBondTotal(f.summary)
      case None => f
      case Some(total) => f.(metrics := f.metrics[TOTAL := Itoa(total)])
  }

  function BackfilledAll(fs: seq<Finding>): (r: seq<Finding>)
    ensures |r| == |fs| && forall i :: 0 <= i < |fs| ==> r[i] == Backfilled(fs[i])
  {
    seq(|fs|, i requires 0 <= i < |fs| => Backfilled(fs[i]))
  }

  function ChangedCount(fs: seq<Finding>): nat {
    if fs == [] then 0
    else ChangedCount(fs[..|fs| - 1]) + if Backfilled(fs[|fs| - 1]) != fs[|fs| - 1] then 1 else 0
  }

  method BackfillBondFinding(f: Finding) returns (g: Finding, changed: bool)
    ensures g == Backfilled(f) && (changed <==> g != f)
  {
    hide RecoverBondTotal, Itoa;
    g := f;
    if f.item != "hw_bond" { return g, false; }
    if TOTAL in f.metrics { return g, false; }
    var total := RecoverBondTotal(f.summary);
    if total.None? { return g, false; }
    g := f.(metrics := f.metrics[TOTAL := Itoa(total.value)]);
    changed := true;
  }

  method MigrateReport(r: Report) returns (changed: nat)
    modifies r`findings
    ensures r.findings == BackfilledAll(old(r.findings))
    ensures changed == ChangedCount(old(r.findings))
  {
    hide Backfilled;
    changed := 0;
    ghost var fs := r.findings;
    for i := 0 to |r.findings|
      invariant |r.findings| == |fs|
      invariant forall k :: 0 <= k < i ==> r.findings[k] == Backfilled(fs[k])
      invariant forall k :: i <= k < |fs| ==> r.findings[k] == fs[k]
      invariant changed == ChangedCount(fs[..i])
    {
      assert fs[..i + 1][..i] == fs[..i];
      var g, c := BackfillBondFinding(r.findings[i]);
      r.findings := r.findings[i := g];
      if c { changed := changed + 1; }
    }
    assert fs[..|fs|] == fs;
  }

  // ---- what migration rebuilds ----

  lemma {:induction false} NoLabel(s: string)
    requires 'L' !in s
    ensures FirstMatch(s).None?
  {
    if s != "" {
      assert s[0] in s;
      NoLabel(s[1..]);
    }
  }

  lemma {:induction false} LeadingDigitsOf(d: string, rest: string)
    requires AllDigits(d) && (rest == "" || !IsDigit(rest[0]))
    ensures LeadingDigits(d + rest) == d
  {
    if d == "" {
      assert d + rest == rest;
    } else {
      assert (d + rest)[1..] == d[1..] + rest;
      LeadingDigitsOf(d[1..], rest);
      assert d == [d[0]] + d[1..];
    }
  }

  lemma {:induction false} SkipPrefix(p: string, s: string)
    requires 'L' !in p
    ensures FirstMatch(p + s) == FirstMatch(s)
  {
    if p == "" {
      assert p + s == s;
    } else {
      assert (p + s)[0] == p[0] && p[0] in p && (p + s)[1..] == p[1..] + s;
      assert !HasPrefix(p + s, LABEL);
      SkipPrefix(p[1..], s);
    }
  }

  lemma MatchAtLabel(n: nat)
    ensures FirstMatch(LABEL + (Itoa(n) + UNIT)) == Some(Itoa(n))
  {
    hide LeadingDigits, Itoa, AllDigits;
    var rest := Itoa(n) + UNIT;
    var s := LABEL + rest;
    assert s[|LABEL|..] == rest;
    assert !IsDigit(UNIT[0]);
    LeadingDigitsOf(Itoa(n), UNIT);
    assert rest[|Itoa(n)|..] == UNIT;
  }

  /** The count in a warning's summary is read back exactly, however large. */
  lemma CountIsRecovered(n: nat)
    ensures RecoverBondTotal("bond 累计 Link Failure " + Itoa(n) + " 次") == Some(n)
  {
    hide FirstMatch, Itoa, Atoi, AllDigits;
    var head := "bond 累计 ";
    var s := LABEL + (Itoa(n) + UNIT);
    assert "bond 累计 Link Failure " == head + LABEL;
    assert "bond 累计 Link Failure " + Itoa(n) + " 次" == head + s;
    SkipPrefix(head, s);
    MatchAtLabel(n);
    AtoiOfItoa(n);
  }

  lemma HealthyIsRecovered()
    ensures RecoverBondTotal(HEALTHY) == Some(0)
  {
    NoLabel(HEALTHY);
    assert OccursAt(HEALTHY, HEALTHY, 0);
  }

  lemma NothingRecovered()
    ensures RecoverBondTotal("无 bond 配置") == None
    ensures RecoverBondTotal("存在 MII Status 非 up 的 bond") == None
  {
    hide RecoverBondTotal;
    NothingWithoutBonds();
    NothingWhenDown();
  }

  lemma NothingWithoutBonds()
    ensures RecoverBondTotal("无 bond 配置") == None
  {
    hide RecoverBondTotal;
    Unrecoverable("无 bond 配置");
  }

  lemma NothingWhenDown()
    ensures RecoverBondTotal("存在 MII Status 非 up 的 bond") == None
  {
    hide RecoverBondTotal;
    Unrecoverable("存在 MII Status 非 up 的 bond");
  }

  lemma Unrecoverable(s: string)
    requires 'L' !in s && '正' !in s
    ensures RecoverBondTotal(s) == None
  {
    hide FirstMatch, Contains;
    NoLabel(s);
    assert HEALTHY[7] == '正';
    MissingChar(s, HEALTHY, 7);
  }

  lemma MissingChar(s: string, sub: string, k: nat)
    requires k < |sub| && sub[k] !in s
    ensures !Contains(s, sub)
  {
    forall i | 0 <= i <= |s| - |sub| ensures !OccursAt(s, sub, i) {
      assert s[i..i + |sub|][k] == s[i + k];
    }
  }

  /** Main result: migration rebuilds, from a finding written before the metric existed,
      exactly the finding the parser makes today if and only if there is no bond at all or
      the finding is not Critical and its total is not negative. */
  lemma MigrationRebuilds(raw: string)
    ensures var now := BondFinding(raw);
      Backfilled(now.(metrics := map[])) == now <==>
        Contains(raw, NO_BONDS) || (now.level != Critical && CountAll(Tally(0, false), Split(raw, '\n')).total >= 0)
  {
    hide RecoverBondTotal, Contains, CountAll, Split, Itoa, Atoi;
    var now := BondFinding(raw);
    var t := CountAll(Tally(0, false), Split(raw, '\n'));
    NothingRecovered();
    HealthyIsRecovered();
    if !Contains(raw, NO_BONDS) {
      assert now.metrics == map[TOTAL := Itoa(t.total)];
      if !t.down && t.total > 0 {
        CountIsRecovered(t.total);
        assert map[][TOTAL := Itoa(t.total)] == now.metrics;
      } else if !t.down {
        AtoiOfItoa(t.total);
        AtoiOfItoa(0);
        assert map[][TOTAL := Itoa(0)][TOTAL] == Itoa(0);
      } else {
        assert Backfilled(now.(metrics := map[])).metrics == map[];
        assert TOTAL in now.metrics;
      }
    }
  }

  const NEGATIVE := BondText.Entry("bond0", "Link Failure Count", "-1")

  /** The malformed line "/proc/net/bonding/bond0:Link Failure Count: -1", with a negative count:
      its finding is not rebuilt. */
  lemma NegativeTotalIsLost()
    ensures var raw := BondText.Line(NEGATIVE);
      var now := BondFinding(raw);
      now.level == OK && now.metrics == map[TOTAL := "-1"] && Backfilled(now.(metrics := map[])) != now
  {
    hide Contains, CountAll, Split, Backfilled, Atoi, Itoa, BondText.Line, BondText.EntryText;
    NegativeLine();
    NegativeTally();
    MinusOne();
    MigrationRebuilds(BondText.Line(NEGATIVE));
  }

  lemma NegativeLine()
    ensures var line := BondText.Line(NEGATIVE);
      '\n' !in line && !Contains(line, NO_BONDS)
    ensures BondText.EntryText(NEGATIVE)
  {
    hide Contains, IsSpace, BondText.EntryText, BondText.Line;
    NegativeText();
    NoParenthesis();
    BondText.LineShape(NEGATIVE);
    MissingChar(BondText.Line(NEGATIVE), NO_BONDS, 0);
  }

  lemma NoParenthesis()
    ensures NO_BONDS[0] !in BondText.Line(NEGATIVE)
  {
    assert '(' !in BondText.BOND_DIR;
    assert '(' !in NEGATIVE.bond && '(' !in NEGATIVE.key && '(' !in NEGATIVE.value;
  }

  lemma NegativeText()
    ensures BondText.EntryText(NEGATIVE)
  {
    assert !IsSpace('-') && !IsSpace('1');
  }

  lemma NegativeTally()
    ensures CountAll(Tally(0, false), Split(BondText.Line(NEGATIVE), '\n')) == Tally(-1, false)
  {
    hide BondText.Line, BondText.EntryText, Count, Atoi, Itoa;
    var line := BondText.Line(NEGATIVE);
    NegativeLine();
    assert Split(line, '\n') == [line];
    LineEffect(Tally(0, false), Scan("", []), NEGATIVE);
    MinusOne();
    assert [line][1..] == [];
  }

  lemma MinusOne()
    ensures Itoa(-1) == "-1" && Atoi("-1") == Some(-1)
  {
    hide Atoi;
    AtoiOfItoa(-1);
    assert Digits(1) == "1";
  }

  lemma BackfillTwice(f: Finding)
    ensures Backfilled(Backfilled(f)) == Backfilled(f)
  {
    hide RecoverBondTotal;
  }

  /** Migrating a second time changes nothing and reports no change. */
  lemma {:induction false} MigrationIsIdempotent(fs: seq<Finding>)
    ensures BackfilledAll(BackfilledAll(fs)) == BackfilledAll(fs)
    ensures ChangedCount(BackfilledAll(fs)) == 0
  {
    hide Backfilled;
    forall i | 0 <= i < |fs| ensures Backfilled(Backfilled(fs[i])) == Backfilled(fs[i]) { BackfillTwice(fs[i]); }
    if fs != [] {
      var n := |fs| - 1;
      assert BackfilledAll(fs)[..n] == BackfilledAll(fs[..n]);
      MigrationIsIdempotent(fs[..n]);
    }
  }

  // ---- the whole store ----

  /** What the disk does to a migration: whether the history's top directory can be read, which
      clusters' directories cannot be listed, and what happens to each rewrite. */
  datatype Faults = Faults(readable: bool, unlisted: set<string>, writes: (string, string) -> Fault)

  const NO_FAULTS := Faults(true, {}, (c: string, n: string) => NoFault)

  datatype MigrateResult =
    | Migrated(cluster: string, file: string, changed: nat, ok: bool)
    | Unreadable(cluster: string, file: string)
    | NotListed(cluster: string)

  function Pending(e: Entry): nat {
    if e.File? then ChangedCount(e.data.findings) else 0
  }

  /** A report file after the walk: rewritten if anything changed. */
  function MigratedEntry(f: Faults, cluster: string, name: string, e: Entry): Entry {
    if Pending(e) == 0 then e
    else
      match f.writes(cluster, name)
      case NoFault => File(e.data.(findings := BackfilledAll(e.data.findings)))
      case CutShort => Corrupt
      case _ => e
  }

  function MigratedDir(f: Faults, cluster: string, d: Dir): Dir {
    map n | n in d :: if IsReport(n, d[n]) then MigratedEntry(f, cluster, n, d[n]) else d[n]
  }

  /** Every listed report file migrated, and no file added, removed or otherwise touched. */
  function MigratedStore(f: Faults, dirs: map<string, Dir>): map<string, Dir> {
    if !f.readable then dirs
    else map c | c in dirs :: if c in f.unlisted then dirs[c] else MigratedDir(f, c, dirs[c])
  }

  /** A bond finding without a recorded total whose summary shows one. */
  predicate Lacks(f: Finding) {
    f.item == "hw_bond" && TOTAL !in f.metrics && RecoverBondTotal(f.summary).Some?
  }

  /** A finding after migration: a bond finding without a recorded total gets the one that its
      summary shows, if it shows one, as a number that reads back; nothing else changes. */
  predicate TotalAdded(f: Finding, g: Finding) {
    && g == f.(metrics := g.metrics)
    && (Lacks(f) ==>
          && g.metrics.Keys == f.metrics.Keys + {TOTAL} && (forall k <- f.metrics :: g.metrics[k] == f.metrics[k])
          && Atoi(g.metrics[TOTAL]) == RecoverBondTotal(f.summary))
    && (!Lacks(f) ==> g.metrics == f.metrics)
  }

  lemma BackfilledMeans(f: Finding)
    ensures TotalAdded(f, Backfilled(f))
  {
    hide RecoverBondTotal, Itoa, Atoi;
    if RecoverBondTotal(f.summary).Some? { AtoiOfItoa(RecoverBondTotal(f.summary).value); }
  }

  /** Main result: a listed report file after the walk. When nothing goes wrong it holds the same
      report with the totals added; if its rewrite breaks off it cannot be read; otherwise, and
      when there is no total to add, it is what it was. Other entries are never touched. */
  lemma FileAfterMigration(f: Faults, dirs: map<string, Dir>, c: string, n: string)
    requires c in dirs && n in dirs[c]
    ensures c in MigratedStore(f, dirs) && n in MigratedStore(f, dirs)[c]
    ensures var before, after := dirs[c][n], MigratedStore(f, dirs)[c][n];
      var walked := f.readable && c !in f.unlisted && IsReport(n, before) && before.File?;
      && (walked && f.writes(c, n) == NoFault ==>
            && after.File? && after.data == before.data.(findings := after.data.findings)
            && |after.data.findings| == |before.data.findings|
            && forall k :: 0 <= k < |before.data.findings| ==>
                 TotalAdded(before.data.findings[k], after.data.findings[k]))
      && (walked && f.writes(c, n) == CutShort ==>
            after == if NothingToAdd(before.data.findings) then before else Corrupt)
      && (!walked || f.writes(c, n) == NoDirectory || f.writes(c, n) == NotOpened ==> after == before)
  {
    hide HasSuffix, Backfilled, TotalAdded;
    var e := dirs[c][n];
    if e.File? {
      var fs := e.data.findings;
      forall k | 0 <= k < |fs| ensures TotalAdded(fs[k], Backfilled(fs[k])) { BackfilledMeans(fs[k]); }
      CountIsNone(fs);
    }
  }

  predicate NothingToAdd(fs: seq<Finding>) {
    forall k :: 0 <= k < |fs| ==> !Lacks(fs[k])
  }

  lemma LacksIff(f: Finding)
    ensures Lacks(f) <==> Backfilled(f) != f
  {
    hide RecoverBondTotal, Itoa;
    if Lacks(f) { assert TOTAL in Backfilled(f).metrics; }
  }

  ghost function LackPlaces(fs: seq<Finding>): set<nat> {
    set k: nat | k < |fs| && Lacks(fs[k])
  }

  /** The number reported is the number of findings that lack a total their summary shows. */
  lemma {:induction false} ChangedCountMeans(fs: seq<Finding>)
    ensures ChangedCount(fs) == |LackPlaces(fs)|
  {
    hide Lacks, Backfilled;
    if fs != [] {
      var n := |fs| - 1;
      ChangedCountMeans(fs[..n]);
      LacksIff(fs[n]);
      forall i: nat ensures i in LackPlaces(fs[..n]) <==> i < n && i in LackPlaces(fs) {
        if i < n { assert fs[..n][i] == fs[i]; }
      }
      OneMorePlace(LackPlaces(fs), LackPlaces(fs[..n]), n, Lacks(fs[n]));
    }
  }

  lemma {:induction false} CountIsNone(fs: seq<Finding>)
    ensures ChangedCount(fs) == 0 <==> NothingToAdd(fs)
    ensures ChangedCount(fs) == 0 ==> BackfilledAll(fs) == fs
  {
    hide Lacks, Backfilled;
    if fs != [] {
      var n := |fs| - 1;
      CountIsNone(fs[..n]);
      LacksIff(fs[n]);
      assert forall k :: 0 <= k < n ==> fs[..n][k] == fs[k];
      if ChangedCount(fs) == 0 {
        forall k | 0 <= k < |fs| ensures BackfilledAll(fs)[k] == fs[k] { LacksIff(fs[k]); }
      }
    }
  }

  /** The result line a file gets, if any. */
  function ResultFor(f: Faults, cluster: string, name: string, e: Entry): seq<MigrateResult> {
    if !e.File? then [Unreadable(cluster, name)]
    else if Pending(e) == 0 then []
    else [Migrated(cluster, name, Pending(e), f.writes(cluster, name) == NoFault)]
  }

  ghost function ResultsFor(f: Faults, cluster: string, d: Dir, names: seq<string>): seq<MigrateResult> {
    if names == [] then []
    else
      var k := |names| - 1;
      ResultsFor(f, cluster, d, names[..k])
      + if names[k] in d then ResultFor(f, cluster, names[k], d[names[k]]) else []
  }

  ghost function DirResults(f: Faults, cluster: string, d: Dir): seq<MigrateResult> {
    if cluster in f.unlisted then [NotListed(cluster)] else ResultsFor(f, cluster, d, Listing(ReportNames(d)))
  }

  ghost function AllResults(f: Faults, dirs: map<string, Dir>, clusters: seq<string>): seq<MigrateResult> {
    if clusters == [] then []
    else
      var k := |clusters| - 1;
      AllResults(f, dirs, clusters[..k])
      + if clusters[k] in dirs then DirResults(f, clusters[k], dirs[clusters[k]]) else []
  }

  /** A directory in which the first `k` of its report files have been walked. */
  ghost predicate MigratedUpTo(f: Faults, cluster: string, d: Dir, names: seq<string>, k: nat, now: Dir)
    requires k <= |names|
  {
    && now.Keys == d.Keys
    && forall n <- d :: now[n] == if n in names[..k] then MigratedEntry(f, cluster, n, d[n]) else d[n]
  }

  lemma MigratedOneMore(f: Faults, cluster: string, d: Dir, names: seq<string>, k: nat, now: Dir, next: Dir)
    requires k < |names| && MigratedUpTo(f, cluster, d, names, k, now)
    requires names[k] in d && names[k] !in names[..k]
    requires next == now[names[k] := MigratedEntry(f, cluster, names[k], d[names[k]])]
    ensures MigratedUpTo(f, cluster, d, names, k + 1, next)
  {
    hide MigratedEntry;
    assert names[..k + 1] == names[..k] + [names[k]];
  }

  lemma MigratedAll(f: Faults, cluster: string, d: Dir, names: seq<string>, now: Dir)
    requires MigratedUpTo(f, cluster, d, names, |names|, now)
    ensures (forall n :: n in names <==> n in ReportNames(d)) ==> now == MigratedDir(f, cluster, d)
  {
    hide MigratedEntry, HasSuffix;
    assert names[..|names|] == names;
  }

  lemma ResultsSnoc(f: Faults, cluster: string, d: Dir, names: seq<string>, k: nat)
    requires k < |names| && names[k] in d
    ensures ResultsFor(f, cluster, d, names[..k + 1])
         == ResultsFor(f, cluster, d, names[..k]) + ResultFor(f, cluster, names[k], d[names[k]])
  {
    hide ResultFor;
    assert names[..k + 1][..k] == names[..k];
  }

  /** The names to walk: each a report file of the directory, none twice. */
  lemma NamesToWalk(d: Dir, names: seq<string>, k: nat)
    requires names == Listing(ReportNames(d)) && k < |names|
    ensures names[k] in d && !d[names[k]].Folder? && names[k] !in names[..k]
  {
    hide Listing, HasSuffix;
    DescendingDistinct(Listing(ReportNames(d)));
    assert names[k] in names;
  }

  /** One file of the walk: the entry and the result line. */
  method MigrateFile(h: History, f: Faults, cluster: string, name: string) returns (out: seq<MigrateResult>)
    requires cluster in h.dirs && name in h.dirs[cluster] && !h.dirs[cluster][name].Folder?
    modifies h
    ensures var d := old(h.dirs)[cluster];
      && h.dirs == old(h.dirs)[cluster := d[name := MigratedEntry(f, cluster, name, d[name])]]
      && out == ResultFor(f, cluster, name, d[name])
  {
    hide BackfilledAll, ChangedCount;
    ghost var d := h.dirs[cluster];
    assert d == d[name := d[name]] && h.dirs == h.dirs[cluster := d];
    OwnDir(h, cluster);
    var r := h.Load(cluster, name);
    if r == null { return [Unreadable(cluster, name)]; }
    var changed := MigrateReport(r);
    if changed == 0 { return []; }
    var ok := h.RewriteReport(cluster, name, r, f.writes(cluster, name));
    return [Migrated(cluster, name, changed, ok)];
  }

  method MigrateCluster(h: History, f: Faults, cluster: string) returns (out: seq<MigrateResult>)
    requires cluster in h.dirs && cluster !in f.unlisted
    modifies h
    ensures h.dirs == old(h.dirs)[cluster := MigratedDir(f, cluster, old(h.dirs)[cluster])]
    ensures out == DirResults(f, cluster, old(h.dirs)[cluster])
  {
    hide Listing, ReportNames, MigratedEntry, ResultFor, MigratedUpTo, ResultsFor, MigratedDir;
    ghost var d := h.dirs[cluster];
    OwnDir(h, cluster);
    var names := h.List(cluster);
    out := [];
    WalkStart(f, cluster, d, names);
    for k := 0 to |names|
      invariant cluster in h.dirs && h.dirs == old(h.dirs)[cluster := h.dirs[cluster]]
      invariant MigratedUpTo(f, cluster, d, names, k, h.dirs[cluster])
      invariant out == ResultsFor(f, cluster, d, names[..k])
    {
      ghost var now := h.dirs[cluster];
      NamesToWalk(d, names, k);
      ResultsSnoc(f, cluster, d, names, k);
      NotYetMigrated(f, cluster, d, names, k, now);
      MigratedOneMore(f, cluster, d, names, k, now, now[names[k] := MigratedEntry(f, cluster, names[k], d[names[k]])]);
      var line := MigrateFile(h, f, cluster, names[k]);
      out := out + line;
    }
    assert names[..|names|] == names;
    MigratedAll(f, cluster, d, names, h.dirs[cluster]);
  }

  lemma WalkStart(f: Faults, cluster: string, d: Dir, names: seq<string>)
    ensures MigratedUpTo(f, cluster, d, names, 0, d) && ResultsFor(f, cluster, d, names[..0]) == []
  {
  }

  lemma NotYetMigrated(f: Faults, cluster: string, d: Dir, names: seq<string>, k: nat, now: Dir)
    requires k < |names| && MigratedUpTo(f, cluster, d, names, k, now) && names[k] in d && names[k] !in names[..k]
    ensures names[k] in now && now[names[k]] == d[names[k]]
  {
  }

  /** No results at all when the clusters cannot be read. */
  method MigrateStore(h: History, f: Faults) returns (out: Option<seq<MigrateResult>>)
    modifies h
    ensures h.dirs == MigratedStore(f, old(h.dirs))
    ensures out == if f.readable then Some(AllResults(f, old(h.dirs), Reversed(Listing(old(h.dirs).Keys)))) else None
  {
    hide MigratedDir, DirResults, Listing, Reversed, Descending, AllResults, StoreUpTo;
    if !f.readable { return None; }
    var clusters := h.Clusters();
    ghost var dirs := h.dirs;
    var results: seq<MigrateResult> := [];
    StoreWalkStart(f, dirs, clusters);
    for i := 0 to |clusters|
      invariant StoreUpTo(f, dirs, clusters, i, h.dirs)
      invariant results == AllResults(f, dirs, clusters[..i])
    {
      ClusterToWalk(f, dirs, clusters, i);
      StoreOneMore(f, dirs, clusters, i, h.dirs);
      if clusters[i] in f.unlisted {
        UnlistedCluster(f, dirs, clusters[i], h.dirs);
        results := results + [NotListed(clusters[i])];
      } else {
        var rs := MigrateCluster(h, f, clusters[i]);
        results := results + rs;
      }
    }
    assert clusters[..|clusters|] == clusters;
    StoreAll(f, dirs, clusters, h.dirs);
    return Some(results);
  }

  /** A cluster's directory after the walk. */
  function WalkedDir(f: Faults, c: string, d: Dir): Dir {
    if c in f.unlisted then d else MigratedDir(f, c, d)
  }

  lemma UnlistedCluster(f: Faults, dirs: map<string, Dir>, c: string, now: map<string, Dir>)
    requires c in dirs && c in now && now[c] == dirs[c] && c in f.unlisted
    ensures now[c := WalkedDir(f, c, dirs[c])] == now && DirResults(f, c, dirs[c]) == [NotListed(c)]
  {
  }

  ghost predicate StoreUpTo(f: Faults, dirs: map<string, Dir>, clusters: seq<string>, i: nat, now: map<string, Dir>)
    requires i <= |clusters|
  {
    && now.Keys == dirs.Keys
    && forall c <- dirs :: now[c] == if c in clusters[..i] then WalkedDir(f, c, dirs[c]) else dirs[c]
  }

  lemma StoreWalkStart(f: Faults, dirs: map<string, Dir>, clusters: seq<string>)
    ensures StoreUpTo(f, dirs, clusters, 0, dirs) && AllResults(f, dirs, clusters[..0]) == []
  {
  }

  lemma ClusterToWalk(f: Faults, dirs: map<string, Dir>, clusters: seq<string>, i: nat)
    requires clusters == Reversed(Listing(dirs.Keys)) && i < |clusters|
    ensures clusters[i] in dirs && clusters[i] !in clusters[..i]
    ensures AllResults(f, dirs, clusters[..i + 1])
         == AllResults(f, dirs, clusters[..i]) + DirResults(f, clusters[i], dirs[clusters[i]])
  {
    hide Listing, Reversed, DirResults;
    ReversedListing(dirs.Keys);
    assert clusters[i] in clusters;
    assert clusters[..i + 1][..i] == clusters[..i];
  }

  lemma StoreOneMore(f: Faults, dirs: map<string, Dir>, clusters: seq<string>, i: nat, now: map<string, Dir>)
    requires i < |clusters| && StoreUpTo(f, dirs, clusters, i, now)
      && clusters[i] in dirs && clusters[i] !in clusters[..i]
    ensures clusters[i] in now && now[clusters[i]] == dirs[clusters[i]]
    ensures StoreUpTo(f, dirs, clusters, i + 1, now[clusters[i] := WalkedDir(f, clusters[i], dirs[clusters[i]])])
  {
    hide WalkedDir;
    assert clusters[..i + 1] == clusters[..i] + [clusters[i]];
  }

  lemma StoreAll(f: Faults, dirs: map<string, Dir>, clusters: seq<string>, now: map<string, Dir>)
    requires f.readable
    requires clusters == Reversed(Listing(dirs.Keys)) && StoreUpTo(f, dirs, clusters, |clusters|, now)
    ensures now == MigratedStore(f, dirs)
  {
    hide Listing, Reversed, MigratedDir;
    ReversedListing(dirs.Keys);
    assert clusters[..|clusters|] == clusters;
  }

  lemma ReversedListing(s: set<string>)
    ensures forall c :: c in Reversed(Listing(s)) <==> c in s
    ensures forall i, j :: 0 <= i < j < |Reversed(Listing(s))| ==> Reversed(Listing(s))[i] != Reversed(Listing(s))[j]
  {
    var a := Listing(s);
    var r := Reversed(a);
    DescendingDistinct(a);
    forall c ensures c in r <==> c in a {
      if k :| 0 <= k < |a| && a[k] == c { assert r[|a| - 1 - k] == c; }
    }
  }

  // ---- migrating again ----

  /** No rewrite breaks off half-way. */
  ghost predicate NothingCutShort(f: Faults) {
    forall c, n :: f.writes(c, n) != CutShort
  }

  lemma EntryAgain(f: Faults, c: string, n: string, e: Entry)
    requires f.writes(c, n) != CutShort
    ensures MigratedEntry(NO_FAULTS, c, n, MigratedEntry(f, c, n, e)) == MigratedEntry(NO_FAULTS, c, n, e)
    ensures IsReport(n, MigratedEntry(f, c, n, e)) == IsReport(n, e)
  {
    hide ChangedCount, BackfilledAll, HasSuffix;
    if e.File? { MigrationIsIdempotent(e.data.findings); }
  }

  lemma DirAgain(f: Faults, c: string, d: Dir)
    requires NothingCutShort(f)
    ensures MigratedDir(NO_FAULTS, c, MigratedDir(f, c, d)) == MigratedDir(NO_FAULTS, c, d)
  {
    hide MigratedEntry, IsReport;
    forall n | n in d
      ensures MigratedDir(NO_FAULTS, c, MigratedDir(f, c, d))[n] == MigratedDir(NO_FAULTS, c, d)[n]
    {
      EntryAgain(f, c, n, d[n]);
    }
  }

  /** Main result: whatever failed the first time, as long as no file was cut short, migrating
      again without faults gives what one faultless migration gives. So a second faultless
      migration changes nothing, and no migration adds or removes a file. */
  lemma MigrationCanBeRepeated(f: Faults, dirs: map<string, Dir>)
    ensures NothingCutShort(f) ==> MigratedStore(NO_FAULTS, MigratedStore(f, dirs)) == MigratedStore(NO_FAULTS, dirs)
    ensures MigratedStore(NO_FAULTS, MigratedStore(NO_FAULTS, dirs)) == MigratedStore(NO_FAULTS, dirs)
    ensures MigratedStore(f, dirs).Keys == dirs.Keys
    ensures forall c <- dirs :: MigratedStore(f, dirs)[c].Keys == dirs[c].Keys
  {
    if NothingCutShort(f) { StoreAgain(f, dirs); }
    StoreAgain(NO_FAULTS, dirs);
    hide MigratedEntry, IsReport;
  }

  lemma StoreAgain(f: Faults, dirs: map<string, Dir>)
    requires NothingCutShort(f)
    ensures MigratedStore(NO_FAULTS, MigratedStore(f, dirs)) == MigratedStore(NO_FAULTS, dirs)
  {
    hide MigratedDir;
    forall c | c in dirs
      ensures MigratedDir(NO_FAULTS, c, MigratedDir(f, c, dirs[c])) == MigratedDir(NO_FAULTS, c, dirs[c])
    {
      DirAgain(f, c, dirs[c]);
    }
  }
}
