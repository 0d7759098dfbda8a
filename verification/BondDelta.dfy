/** The two-window rule for bond link failures: a Warn is kept only when the failure count
    has grown since one of the last two reports. */
module BondDelta {
  import opened Text
  import opened Inspect
  import HardwareBond

  const TOTAL := HardwareBond.TOTAL
  const DELTA := "link_failure_delta"
  const DELTA2 := "link_failure_delta2"

  /** `bondTotal`: the recorded count, when present and a number. */
  function BondTotal(f: Finding): Option<int> {
    if TOTAL in f.metrics then Atoi(f.metrics[TOTAL]) else None
  }

  /** `bondBaseline`: the last recorded count of each node. */
  function Baseline(fs: seq<Finding>): map<string, int> {
    if fs == [] then map[]
    else
      var m := Baseline(fs[..|fs| - 1]);
      var f := fs[|fs| - 1];
      if f.item == "hw_bond" && BondTotal(f).Some? then m[f.node := BondTotal(f).value] else m
  }

  function BaselineOf(prev: Option<seq<Finding>>): map<string, int> {
    match prev
    case None => map[]
    case Some(fs) => Baseline(fs)
  }

  function NodeDelta(f: Finding, cur: int, b1: Option<int>, b2: Option<int>): Finding {
    var d1 := if b1.Some? then cur - b1.value else 0;
    var d2 := if b2.Some? then cur - b2.value else 0;
    if !(b1.Some? && d1 > 0) && !(b2.Some? && d2 > 0) then
      f.(level := OK, summary := "bond Link Failure 累计 " + Itoa(cur) + " 次，最近无新增")
    else if b1.Some? && d1 > 0 then
      if b2.Some? && d2 > d1 then
        f.(metrics := f.metrics[DELTA := Itoa(d1)][DELTA2 := Itoa(d2)],
           summary := "bond Link Failure 较上次新增 " + Itoa(d1) + " 次、较上上次累计新增 " + Itoa(d2) + " 次（累计 " + Itoa(cur) + " 次）")
      else
        f.(metrics := f.metrics[DELTA := Itoa(d1)],
           summary := "bond Link Failure 较上次新增 " + Itoa(d1) + " 次（累计 " + Itoa(cur) + " 次）")
    else
      f.(metrics := f.metrics[DELTA2 := Itoa(d2)],
         summary := "bond Link Failure 较上次无新增，但较上上次新增 " + Itoa(d2) + " 次（可能漏看上次报告，累计 " + Itoa(cur) + " 次）")
  }

  function Lookup(m: map<string, int>, node: string): Option<int> {
    if node in m then Some(m[node]) else None
  }

  /** One finding after `applyBondDelta`. */
  function Adjusted(f: Finding, base1: map<string, int>, base2: map<string, int>): Finding {
    if f.item != "hw_bond" || f.level != Warn || BondTotal(f).None? then f
    else
      var cur := BondTotal(f).value;
      var b1, b2 := Lookup(base1, f.node), Lookup(base2, f.node);
      if b1.None? && b2.None? then
        f.(summary := "bond 累计 Link Failure " + Itoa(cur) + " 次（首次记录，作为基线）")
      else NodeDelta(f, cur, b1, b2)
  }

  function AdjustedAll(fs: seq<Finding>, base1: map<string, int>, base2: map<string, int>): (r: seq<Finding>)
    ensures |r| == |fs| && forall i :: 0 <= i < |fs| ==> r[i] == Adjusted(fs[i], base1, base2)
  {
    seq(|fs|, i requires 0 <= i < |fs| => Adjusted(fs[i], base1, base2))
  }

  // ---- as it runs ----

  function FindingsOf(r: Report?): Option<seq<Finding>>
    reads if r == null then {} else {r}
  {
    if r == null then None else Some(r.findings)
  }

  method BondBaseline(prev: Report?) returns (m: map<string, int>)
    ensures m == BaselineOf(FindingsOf(prev))
  {
    m := map[];
    if prev == null { return; }
    var fs := prev.findings;
    for i := 0 to |fs|
      invariant m == Baseline(fs[..i])
    {
      assert fs[..i + 1][..i] == fs[..i];
      if fs[i].item != "hw_bond" { continue; }
      var n := BondTotal(fs[i]);
      if n.Some? {
        m := m[fs[i].node := n.value];
      }
    }
    assert fs[..|fs|] == fs;
  }

  method ApplyNodeDelta(f: Finding, cur: int, b1: Option<int>, b2: Option<int>) returns (r: Finding)
    ensures r == NodeDelta(f, cur, b1, b2)
  {
    hide Itoa;
    r := f;
    var d1 := if b1.Some? then cur - b1.value else 0;
    var d2 := if b2.Some? then cur - b2.value else 0;
    var recentInc := b1.Some? && d1 > 0;
    var windowInc := b2.Some? && d2 > 0;
    if !recentInc && !windowInc {
      r := r.(level := OK);
      r := r.(summary := "bond Link Failure 累计 " + Itoa(cur) + " 次，最近无新增");
      return;
    }
    if recentInc {
      r := r.(metrics := r.metrics[DELTA := Itoa(d1)]);
      if b2.Some? && d2 > d1 {
        r := r.(metrics := r.metrics[DELTA2 := Itoa(d2)]);
        r := r.(summary := "bond Link Failure 较上次新增 " + Itoa(d1) + " 次、较上上次累计新增 "
          + Itoa(d2) + " 次（累计 " + Itoa(cur) + " 次）");
        return;
      }
      r := r.(summary := "bond Link Failure 较上次新增 " + Itoa(d1) + " 次（累计 " + Itoa(cur) + " 次）");
      return;
    }
    r := r.(metrics := r.metrics[DELTA2 := Itoa(d2)]);
    r := r.(summary := "bond Link Failure 较上次无新增，但较上上次新增 " + Itoa(d2) + " 次（可能漏看上次报告，累计 " + Itoa(cur) + " 次）");
  }

  method ApplyBondDelta(rep: Report, prev1: Report?, prev2: Report?)
    modifies rep`findings
    ensures rep.findings
         == AdjustedAll(old(rep.findings), BaselineOf(old(FindingsOf(prev1))), BaselineOf(old(FindingsOf(prev2))))
  {
    hide NodeDelta, Itoa, BondTotal, Baseline;
    var base1 := BondBaseline(prev1);
    var base2 := BondBaseline(prev2);
    ghost var fs := rep.findings;
    for i := 0 to |rep.findings|
      invariant |rep.findings| == |fs|
      invariant forall k :: 0 <= k < i ==> rep.findings[k] == Adjusted(fs[k], base1, base2)
      invariant forall k :: i <= k < |fs| ==> rep.findings[k] == fs[k]
    {
      var f := rep.findings[i];
      if f.item != "hw_bond" || f.level != Warn { continue; }
      var cur := BondTotal(f);
      if cur.None? { continue; }
      var b1, b2 := Lookup(base1, f.node), Lookup(base2, f.node);
      if b1.None? && b2.None? {
        f := f.(summary := "bond 累计 Link Failure " + Itoa(cur.value) + " 次（首次记录，作为基线）");
      } else {
        f := ApplyNodeDelta(f, cur.value, b1, b2);
      }
      rep.findings := rep.findings[i := f];
    }
  }

  // ---- what the rule keeps and decides ----

  /** The key invariant: the step never touches the stored count, so a report it has
      adjusted serves as the same baseline as the raw one. */
  lemma TotalsUntouched(f: Finding, base1: map<string, int>, base2: map<string, int>)
    ensures var g := Adjusted(f, base1, base2); g.item == f.item && g.node == f.node && BondTotal(g) == BondTotal(f)
  {
  }

  lemma {:induction false} BaselineUntouched(fs: seq<Finding>, base1: map<string, int>, base2: map<string, int>)
    ensures Baseline(AdjustedAll(fs, base1, base2)) == Baseline(fs)
  {
    hide Adjusted, BondTotal;
    if fs != [] {
      var n := |fs| - 1;
      assert AdjustedAll(fs, base1, base2)[..n] == AdjustedAll(fs[..n], base1, base2);
      BaselineUntouched(fs[..n], base1, base2);
      TotalsUntouched(fs[n], base1, base2);
    }
  }

  /** The count exceeds the baseline, if there is one. */
  predicate Grew(cur: int, b: Option<int>) {
    b.Some? && cur > b.value
  }

  /** Which level a bond finding ends with. In particular a rise since the last run is Warn
      however large the older baseline is. */
  lemma LevelRule(f: Finding, base1: map<string, int>, base2: map<string, int>)
    requires f.item == "hw_bond" && BondTotal(f).Some?
    ensures var g := Adjusted(f, base1, base2);
      var cur := BondTotal(f).value;
      var b1, b2 := Lookup(base1, f.node), Lookup(base2, f.node);
      if f.level == Warn then
        && (g.level == Warn <==> (b1.None? && b2.None?) || Grew(cur, b1) || Grew(cur, b2))
        && (g.level == Warn || g.level == OK)
      else g == f
  {
  }

  /** Which growth a warning reports, and how much: the growth since the last run whenever
      there is one, and the growth over two runs when it is the larger or the only one. So every
      written delta is positive, and the longer window shows the larger one. */
  lemma DeltasAreTheGrowth(f: Finding, base1: map<string, int>, base2: map<string, int>)
    requires f.item == "hw_bond" && f.level == Warn && BondTotal(f).Some?
    requires DELTA !in f.metrics && DELTA2 !in f.metrics
    ensures var m := Adjusted(f, base1, base2).metrics;
      var cur := BondTotal(f).value;
      var b1, b2 := Lookup(base1, f.node), Lookup(base2, f.node);
      && (DELTA in m <==> Grew(cur, b1))
      && (DELTA in m ==> Atoi(m[DELTA]) == Some(cur - b1.value))
      && (DELTA2 in m <==> Grew(cur, b2) && (Grew(cur, b1) ==> b2.value < b1.value))
      && (DELTA2 in m ==> Atoi(m[DELTA2]) == Some(cur - b2.value))
  {
    hide Itoa, Atoi;
    var cur := BondTotal(f).value;
    var b1, b2 := Lookup(base1, f.node), Lookup(base2, f.node);
    if b1.Some? { AtoiOfItoa(cur - b1.value); }
    if b2.Some? { AtoiOfItoa(cur - b2.value); }
  }

  /** Nothing but the level, the summary and the two deltas changes, and those only in a warning
      with a recorded total. */
  lemma NothingElseChanges(f: Finding, base1: map<string, int>, base2: map<string, int>)
    ensures var g := Adjusted(f, base1, base2);
      && g == f.(level := g.level, summary := g.summary, metrics := g.metrics)
      && g.metrics - {DELTA, DELTA2} == f.metrics - {DELTA, DELTA2}
      && (f.item != "hw_bond" || f.level != Warn || BondTotal(f).None? ==> g == f)
  {
    hide Itoa, Atoi;
  }

  // ---- the numbers a reader sees ----

  /** The runs of digits in a text, in order. */
  function Numbers(s: string): seq<string>
    decreases |s|
  {
    if s == "" then []
    else if IsDigit(s[0]) then [s[..DigitRun(s)]] + Numbers(s[DigitRun(s)..])
    else Numbers(s[1..])
  }

  function DigitRun(s: string): (k: nat)
    ensures k <= |s| && (s != "" && IsDigit(s[0]) ==> k > 0)
  {
    if s == "" || !IsDigit(s[0]) then 0 else 1 + DigitRun(s[1..])
  }

  lemma {:induction false} DigitRunOf(d: string, rest: string)
    requires AllDigits(d) && (rest == "" || !IsDigit(rest[0]))
    ensures DigitRun(d + rest) == |d|
  {
    if d == "" {
      assert d + rest == rest;
    } else {
      assert (d + rest)[1..] == d[1..] + rest;
      DigitRunOf(d[1..], rest);
    }
  }

  predicate Wordy(s: string) {
    s != "" && forall k :: 0 <= k < |s| ==> !IsDigit(s[k])
  }

  lemma {:induction false} SkipWords(w: string, rest: string)
    requires forall k :: 0 <= k < |w| ==> !IsDigit(w[k])
    ensures Numbers(w + rest) == Numbers(rest)
  {
    if w == "" {
      assert w + rest == rest;
    } else {
      assert (w + rest)[1..] == w[1..] + rest;
      SkipWords(w[1..], rest);
    }
  }

  /** Words, a number, and more words. */
  lemma OneNumber(a: string, n: nat, rest: string)
    requires Wordy(a) && rest != "" && !IsDigit(rest[0])
    ensures Numbers(a + (Itoa(n) + rest)) == [Itoa(n)] + Numbers(rest)
  {
    hide Itoa;
    SkipWords(a, Itoa(n) + rest);
    DigitRunOf(Itoa(n), rest);
    assert (Itoa(n) + rest)[..|Itoa(n)|] == Itoa(n) && (Itoa(n) + rest)[|Itoa(n)|..] == rest;
  }

  lemma NoNumber(a: string)
    requires Wordy(a)
    ensures Numbers(a) == []
  {
    assert a + "" == a;
    SkipWords(a, "");
  }

  lemma NumbersOfTwo(a: string, m: nat, b: string, n: nat, c: string)
    requires Wordy(a) && Wordy(b) && Wordy(c)
    ensures Numbers(a + Itoa(m) + b + Itoa(n) + c) == [Itoa(m), Itoa(n)]
  {
    hide Itoa, Numbers;
    assert a + Itoa(m) + b + Itoa(n) + c == a + (Itoa(m) + (b + (Itoa(n) + c)));
    OneNumber(a, m, b + (Itoa(n) + c));
    OneNumber(b, n, c);
    NoNumber(c);
  }

  lemma NumbersOfThree(a: string, m: nat, b: string, n: nat, c: string, o: nat, d: string)
    requires Wordy(a) && Wordy(b) && Wordy(c) && Wordy(d)
    ensures Numbers(a + Itoa(m) + b + Itoa(n) + c + Itoa(o) + d) == [Itoa(m), Itoa(n), Itoa(o)]
  {
    hide Itoa, Numbers;
    assert a + Itoa(m) + b + Itoa(n) + c + Itoa(o) + d == a + (Itoa(m) + (b + Itoa(n) + c + Itoa(o) + d));
    OneNumber(a, m, b + Itoa(n) + c + Itoa(o) + d);
    NumbersOfTwo(b, n, c, o, d);
  }

  lemma NumbersOfOne(a: string, m: nat, b: string)
    requires Wordy(a) && Wordy(b)
    ensures Numbers(a + Itoa(m) + b) == [Itoa(m)]
  {
    hide Itoa, Numbers;
    assert a + Itoa(m) + b == a + (Itoa(m) + b);
    OneNumber(a, m, b);
    NoNumber(b);
  }

  lemma GrowthTexts()
    ensures Wordy("bond Link Failure 累计 ") && Wordy(" 次，最近无新增")
    ensures Wordy("bond Link Failure 较上次新增 ") && Wordy(" 次、较上上次累计新增 ")
  {
  }

  lemma MoreGrowthTexts()
    ensures Wordy("bond Link Failure 较上次无新增，但较上上次新增 ") && Wordy(" 次（可能漏看上次报告，累计 ")
    ensures Wordy(" 次（累计 ") && Wordy(" 次）")
  {
  }

  lemma NodeDeltaShows(f: Finding, cur: nat, b1: Option<int>, b2: Option<int>)
    ensures Numbers(NodeDelta(f, cur, b1, b2).summary) == Growths(cur, b1, b2) + [Itoa(cur)]
  {
    hide Itoa, Numbers, Wordy;
    GrowthTexts();
    MoreGrowthTexts();
    if !Grew(cur, b1) && !Grew(cur, b2) {
      NumbersOfOne("bond Link Failure 累计 ", cur, " 次，最近无新增");
    } else if !Grew(cur, b1) {
      NumbersOfTwo("bond Link Failure 较上次无新增，但较上上次新增 ", cur - b2.value,
                   " 次（可能漏看上次报告，累计 ", cur, " 次）");
    } else if Grew(cur, b2) && b2.value < b1.value {
      NumbersOfThree("bond Link Failure 较上次新增 ", cur - b1.value, " 次、较上上次累计新增 ",
                     cur - b2.value, " 次（累计 ", cur, " 次）");
    } else {
      NumbersOfTwo("bond Link Failure 较上次新增 ", cur - b1.value, " 次（累计 ", cur, " 次）");
    }
  }

  /** The growth since the last run if there is any, and the growth over two runs if it is the
      larger or the only one. */
  function Growths(cur: int, b1: Option<int>, b2: Option<int>): seq<string> {
    (if Grew(cur, b1) then [Itoa(cur - b1.value)] else [])
    + if Grew(cur, b2) && (Grew(cur, b1) ==> b2.value < b1.value) then [Itoa(cur - b2.value)] else []
  }

  /** The summary of an adjusted warning shows exactly these numbers: the growths, and the total. */
  lemma SummaryShowsTheGrowth(f: Finding, base1: map<string, int>, base2: map<string, int>)
    requires f.item == "hw_bond" && f.level == Warn && BondTotal(f).Some? && BondTotal(f).value >= 0
    ensures var cur := BondTotal(f).value;
      Numbers(Adjusted(f, base1, base2).summary)
        == Growths(cur, Lookup(base1, f.node), Lookup(base2, f.node)) + [Itoa(cur)]
  {
    hide Itoa, Atoi, Numbers, BondTotal, NodeDelta;
    var cur := BondTotal(f).value;
    NumbersOfOne("bond 累计 Link Failure ", cur, " 次（首次记录，作为基线）");
    NodeDeltaShows(f, cur, Lookup(base1, f.node), Lookup(base2, f.node));
  }

  // ---- one window or two ----

  /** The level by the design document's rule, which looks at the last run only. */
  function LastRunOnly(f: Finding, base1: map<string, int>): Level
    requires f.item == "hw_bond" && f.level == Warn && BondTotal(f).Some?
  {
    if f.node !in base1 || BondTotal(f).value > base1[f.node] then Warn else OK
  }

  /** The code decides otherwise exactly when a count is unchanged since the last run but has
      grown since the one before, or the last run has no reading and it has not. */
  lemma TwoWindowsDifferIff(f: Finding, base1: map<string, int>, base2: map<string, int>)
    requires f.item == "hw_bond" && f.level == Warn && BondTotal(f).Some?
    ensures
      var cur := BondTotal(f).value;
      var b1, b2 := Lookup(base1, f.node), Lookup(base2, f.node);
      Adjusted(f, base1, base2).level != LastRunOnly(f, base1) <==>
        if b1.Some? then !Grew(cur, b1) && Grew(cur, b2) else b2.Some? && !Grew(cur, b2)
  {
    hide Itoa, Atoi;
    LevelRule(f, base1, base2);
  }

  /** Counts 0, 1, 1: the document's rule is silent at the third run, the code warns again. */
  lemma TwoWindowsDiffer()
    ensures var f := Finding("hw_bond", "n1", "", Warn, "", map[TOTAL := "1"], "", "");
      Adjusted(f, map["n1" := 1], map["n1" := 0]).level == Warn
      && BondTotal(f) == Some(1) && LastRunOnly(f, map["n1" := 1]) == OK
  {
    hide Itoa, Atoi, Adjusted;
    var f := Finding("hw_bond", "n1", "", Warn, "", map[TOTAL := "1"], "", "");
    ReadsOne();
    TwoWindowsDifferIff(f, map["n1" := 1], map["n1" := 0]);
    LevelRule(f, map["n1" := 1], map["n1" := 0]);
  }

  lemma ReadsOne()
    ensures Atoi("1") == Some(1)
  {
    AtoiOfItoa(1);
    assert Itoa(1) == Digits(1) == "1";
  }

  // ---- the order of the findings does not matter ----

  /** The finding records a count for its node. */
  predicate Reads(f: Finding) {
    f.item == "hw_bond" && BondTotal(f).Some?
  }

  /** Findings that record a count for the same node record the same one. */
  ghost predicate Agreeing(fs: seq<Finding>) {
    forall f, g :: f in fs && g in fs && Reads(f) && Reads(g) && f.node == g.node ==> BondTotal(f) == BondTotal(g)
  }

  lemma {:induction false} BaselineSource(fs: seq<Finding>, node: string)
    ensures node in Baseline(fs) ==>
      exists f :: f in fs && Reads(f) && f.node == node && BondTotal(f) == Some(Baseline(fs)[node])
    ensures forall f :: f in fs && Reads(f) && f.node == node ==> node in Baseline(fs)
  {
    hide BondTotal;
    if fs != [] {
      var n := |fs| - 1;
      assert fs == fs[..n] + [fs[n]];
      BaselineSource(fs[..n], node);
      if node in Baseline(fs) && !(Reads(fs[n]) && fs[n].node == node) {
        var f :| f in fs[..n] && Reads(f) && f.node == node && BondTotal(f) == Some(Baseline(fs)[node]);
        assert f in fs;
      }
    }
  }

  lemma BaselineOfPermutation(a: seq<Finding>, b: seq<Finding>)
    requires multiset(a) == multiset(b) && Agreeing(a)
    ensures Baseline(a) == Baseline(b)
  {
    hide Baseline, BondTotal, Reads;
    assert forall f :: f in a <==> f in multiset(a);
    assert forall f :: f in b <==> f in multiset(b);
    forall node ensures node in Baseline(a) <==> node in Baseline(b) {
      BaselineSource(a, node);
      BaselineSource(b, node);
    }
    forall node | node in Baseline(a) ensures Baseline(a)[node] == Baseline(b)[node] {
      BaselineSource(a, node);
      BaselineSource(b, node);
    }
  }

  lemma AdjustedWithout(fs: seq<Finding>, k: nat, base1: map<string, int>, base2: map<string, int>)
    requires k < |fs|
    ensures multiset(AdjustedAll(fs, base1, base2))
         == multiset(AdjustedAll(fs[..k] + fs[k + 1..], base1, base2)) + multiset{Adjusted(fs[k], base1, base2)}
  {
    hide Adjusted;
    var r := AdjustedAll(fs, base1, base2);
    assert AdjustedAll(fs[..k] + fs[k + 1..], base1, base2) == r[..k] + r[k + 1..];
    assert r == r[..k] + [r[k]] + r[k + 1..];
  }

  lemma FirstAndRest(fs: seq<Finding>)
    requires fs != []
    ensures multiset(fs) == multiset{fs[0]} + multiset(fs[1..])
  {
    assert fs == [fs[0]] + fs[1..];
  }

  lemma AdjustedFirst(fs: seq<Finding>, base1: map<string, int>, base2: map<string, int>)
    requires fs != []
    ensures AdjustedAll(fs, base1, base2)[0] == Adjusted(fs[0], base1, base2)
    ensures AdjustedAll(fs, base1, base2)[1..] == AdjustedAll(fs[1..], base1, base2)
  {
    hide Adjusted;
  }

  lemma {:induction false} AdjustedOfPermutation(a: seq<Finding>, b: seq<Finding>,
                              base1: map<string, int>, base2: map<string, int>)
    requires multiset(a) == multiset(b)
    ensures multiset(AdjustedAll(a, base1, base2)) == multiset(AdjustedAll(b, base1, base2))
    decreases |a|
  {
    hide Adjusted, AdjustedAll;
    if a == [] {
      assert |multiset(b)| == 0;
    } else {
      assert a[0] in multiset(a);
      var k :| 0 <= k < |b| && b[k] == a[0];
      var rest := b[..k] + b[k + 1..];
      FirstAndRest(a);
      FirstAndRest(AdjustedAll(a, base1, base2));
      AdjustedFirst(a, base1, base2);
      WithoutOne(b, k);
      AdjustedOfPermutation(a[1..], rest, base1, base2);
      AdjustedWithout(b, k, base1, base2);
    }
  }
}
