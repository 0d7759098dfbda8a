/** Inspection levels, findings and reports. */
module Inspect {
  datatype Level = OK | Warn | Critical | Unknown

  /** Severity order: a parse failure ranks above healthy and below a real warning. */
  function Rank(l: Level): nat {
    match l
    case OK => 0
    case Unknown => 1
    case Warn => 2
    case Critical => 3
  }

  datatype Finding = Finding(item: string, node: string, nodeIP: string, level: Level,
                             summary: string, metrics: map<string, string>, detail: string, advice: string)

  /** The worst level among the findings; OK when there are none. */
  ghost function Worst(fs: seq<Finding>): (l: Level)
    ensures forall f <- fs :: Rank(f.level) <= Rank(l)
    ensures l == OK || exists f <- fs :: f.level == l
  {
    if fs == [] then OK
    else
      var w := Worst(fs[..|fs| - 1]);
      var last := fs[|fs| - 1];
      assert fs == fs[..|fs| - 1] + [last];
      if Rank(last.level) > Rank(w) then last.level else w
  }

  predicate HasLevel(fs: seq<Finding>, l: Level) {
    exists f <- fs :: f.level == l
  }

  /** Critical beats Warn, Warn beats Unknown, Unknown beats OK. */
  lemma WorstMeans(fs: seq<Finding>)
    ensures Worst(fs) == Critical <==> HasLevel(fs, Critical)
    ensures Worst(fs) == Warn <==> HasLevel(fs, Warn) && !HasLevel(fs, Critical)
    ensures Worst(fs) == Unknown <==> HasLevel(fs, Unknown) && !HasLevel(fs, Warn) && !HasLevel(fs, Critical)
    ensures Worst(fs) == OK <==> forall f <- fs :: f.level == OK
  {
    var w := Worst(fs);
    assert w != OK ==> HasLevel(fs, w);
    assert forall l | HasLevel(fs, l) :: Rank(l) <= Rank(w);
  }

  method MaxLevel(findings: seq<Finding>) returns (max: Level)
    ensures max == Worst(findings)
    ensures max == Critical <==> HasLevel(findings, Critical)
    ensures max == Warn <==> HasLevel(findings, Warn) && !HasLevel(findings, Critical)
    ensures max == Unknown <==>
      HasLevel(findings, Unknown) && !HasLevel(findings, Warn) && !HasLevel(findings, Critical)
  {
    WorstMeans(findings);
    max := OK;
    for i := 0 to |findings|
      invariant max == Worst(findings[..i])
    {
      assert findings[..i + 1][..i] == findings[..i];
      if Rank(findings[i].level) > Rank(max) {
        max := findings[i].level;
      }
    }
    assert findings[..|findings|] == findings;
  }

  lemma WithoutOne<T>(s: seq<T>, k: nat)
    requires k < |s|
    ensures multiset(s[..k] + s[k + 1..]) == multiset(s) - multiset{s[k]}
  {
    assert s == s[..k] + [s[k]] + s[k + 1..];
  }

  /** Places below `n`, and then place `n` too or not. */
  lemma OneMorePlace(all: set<nat>, front: set<nat>, n: nat, last: bool)
    requires forall i: nat :: i in front <==> i < n && i in all
    requires forall i: nat :: i in all && i >= n <==> i == n && last
    ensures |all| == |front| + if last then 1 else 0
  {
    if last { assert all == front + {n}; } else { assert all == front; }
  }

  /** Only which findings there are matters, not their order or how they were collected. */
  lemma WorstOfPermutation(a: seq<Finding>, b: seq<Finding>)
    requires multiset(a) == multiset(b)
    ensures Worst(a) == Worst(b)
  {
    var la, lb := Worst(a), Worst(b);
    assert forall f :: f in a <==> f in multiset(a);
    assert forall f :: f in b <==> f in multiset(b);
    assert Rank(la) <= Rank(lb);
    assert Rank(lb) <= Rank(la);
  }

  /** A moment in UTC, by calendar field; `nano` is the part below a second. */
  datatype Instant = Instant(year: nat, month: nat, day: nat, hour: nat, minute: nat, second: nat, nano: nat)

  /** What a report file holds. */
  datatype ReportData = ReportData(cluster: string, startedAt: Instant, overall: Level, findings: seq<Finding>)

  class Report {
    const cluster: string
    const startedAt: Instant
    var overall: Level
    var findings: seq<Finding>

    constructor (cluster: string, startedAt: Instant)
      ensures this.cluster == cluster && this.startedAt == startedAt
      ensures overall == OK && findings == []
    {
      this.cluster, this.startedAt := cluster, startedAt;
      overall, findings := OK, [];
    }

    /** Reading a report file back. */
    constructor Load(data: ReportData)
      ensures Data() == data
    {
      cluster, startedAt := data.cluster, data.startedAt;
      overall, findings := data.overall, data.findings;
    }

    function Data(): ReportData
      reads this
    {
      ReportData(cluster, startedAt, overall, findings)
    }

    method Finalize()
      modifies this`overall
      ensures overall == Worst(findings)
    {
      overall := MaxLevel(findings);
    }
  }
}
