/** `evalPCIeLinks`: turning a node's PCIe devices into one finding per downgrade shape. */
module PcieLinks {
  import opened Text
  import opened Inspect

  datatype Device = Device(bdf: string, kind: string, name: string, model: string,
                           capSpeed: real, capWidth: int, staSpeed: real, staWidth: int,
                           capRaw: string, staRaw: string)

  /** The shape devices are merged by. */
  datatype Sig = Sig(kind: string, level: Level, capSpeed: real, staSpeed: real, capWidth: int, staWidth: int)

  /** What becomes of one device. */
  datatype Fate = Unparseable | Healthy | Silenced | Reported(sig: Sig)

  function FateOf(d: Device, floor: real): Fate {
    if d.capSpeed == 0.0 || d.capWidth == 0 || d.staSpeed == 0.0 || d.staWidth == 0 then Unparseable
    else if !(d.staWidth < d.capWidth) && !(d.staSpeed < d.capSpeed) then Healthy
    else if !(d.staWidth < d.capWidth) && floor > 0.0 && d.staSpeed >= floor then Silenced
    else Reported(Sig(d.kind, if d.staWidth < d.capWidth then Critical else Warn,
                      d.capSpeed, d.staSpeed, d.capWidth, d.staWidth))
  }

  /** The devices with a given fate, in input order. */
  function With(devs: seq<Device>, floor: real, fate: Fate): seq<Device> {
    if devs == [] then []
    else With(devs[..|devs| - 1], floor, fate)
         + if FateOf(devs[|devs| - 1], floor) == fate then [devs[|devs| - 1]] else []
  }

  /** The reported shapes, in the order first seen. */
  function Shapes(devs: seq<Device>, floor: real): seq<Sig> {
    if devs == [] then []
    else
      AddShape(Shapes(devs[..|devs| - 1], floor), FateOf(devs[|devs| - 1], floor))
  }

  function AddShape(seen: seq<Sig>, fate: Fate): seq<Sig> {
    if fate.Reported? && fate.sig !in seen then seen + [fate.sig] else seen
  }

  // ---- rendering a group ----

  function Id(d: Device): string {
    if d.name == "" then d.bdf else d.name + "(" + d.bdf + ")"
  }

  function Ids(devs: seq<Device>): (ids: seq<string>)
    ensures |ids| == |devs|
  {
    seq(|devs|, i requires 0 <= i < |devs| => Id(devs[i]))
  }

  /** `buildPCIeFinding`; `show` stands for the shortest decimal form of a speed. */
  function Build(devs: seq<Device>, s: Sig, show: real -> string): Finding
    requires devs != []
  {
    var d0 := devs[0];
    var names := JoinWith(Ids(devs), ", ");
    var subject := if |devs| > 1 then d0.kind + " ×" + Itoa(|devs|) else d0.kind + " " + Id(d0);
    var metrics := map["kind" := d0.kind, "count" := Itoa(|devs|),
                       "names" := names, "cap" := d0.capRaw, "sta" := d0.staRaw];
    var detail := d0.kind + " " + d0.model + "\nLnkCap: " + d0.capRaw + "\nLnkSta: " + d0.staRaw
      + "\n受影响设备(" + Itoa(|devs|) + ")：" + names;
    var summary :=
      if s.level == Critical then
        subject + " PCIe 链路降级：宽度 x" + Itoa(s.capWidth) + "→x" + Itoa(s.staWidth)
        + "，速率 " + show(s.capSpeed) + "GT/s→" + show(s.staSpeed) + "GT/s"
      else
        subject + " PCIe 链路速率降级：" + show(s.capSpeed) + "GT/s→" + show(s.staSpeed)
        + "GT/s（宽度 x" + Itoa(s.staWidth) + " 正常）";
    var advice :=
      if s.level == Critical then "PCIe lane 数下降，检查插槽接触/插拔重插，性能会显著受损"
      else "PCIe 速率未跑满，检查 BIOS PCIe 配置/信号质量，吞吐会下降";
    Finding("hw_pcie_link", "", "", s.level, summary, metrics, detail, advice)
  }

  function Quiet(checked: int, silenced: int, floor: real, show: real -> string): Finding {
    var summary :=
      if checked == 0 then "未发现可检测的 NVMe/网卡 PCIe 链路"
      else if silenced > 0 then "PCIe 链路正常（" + Itoa(silenced) + " 块仅速率降级但 ≥" + show(floor) + "GT/s，视为故意配置）"
      else "PCIe 链路速率/宽度正常";
    Finding("hw_pcie_link", "", "", OK, summary, map[], "", "")
  }

  // ---- facts the loop and the results share ----

  lemma WithSnoc(devs: seq<Device>, d: Device, floor: real, fate: Fate)
    ensures With(devs + [d], floor, fate) == With(devs, floor, fate) + if FateOf(d, floor) == fate then [d] else []
  {
    assert (devs + [d])[..|devs|] == devs;
  }

  lemma ShapesSnoc(devs: seq<Device>, d: Device, floor: real)
    ensures Shapes(devs + [d], floor) == AddShape(Shapes(devs, floor), FateOf(d, floor))
  {
    assert (devs + [d])[..|devs|] == devs;
  }

  lemma {:induction false} ShapeHasDevices(devs: seq<Device>, floor: real, s: Sig)
    ensures s in Shapes(devs, floor) <==> With(devs, floor, Reported(s)) != []
  {
    if devs != [] { ShapeHasDevices(devs[..|devs| - 1], floor, s); }
  }

  predicate Unique(ss: seq<Sig>) {
    forall i, j :: 0 <= i < j < |ss| ==> ss[i] != ss[j]
  }

  lemma {:induction false} ShapesDistinct(devs: seq<Device>, floor: real)
    ensures Unique(Shapes(devs, floor))
  {
    hide FateOf;
    if devs != [] {
      ShapesDistinct(devs[..|devs| - 1], floor);
    }
  }

  /** The devices behind each returned finding; empty when the one quiet finding is returned. */
  function GroupsOf(devs: seq<Device>, floor: real): (gs: seq<seq<Device>>)
    ensures |gs| == |Shapes(devs, floor)|
    ensures forall i :: 0 <= i < |gs| ==> gs[i] == With(devs, floor, Reported(Shapes(devs, floor)[i]))
  {
    var ss := Shapes(devs, floor);
    seq(|ss|, i requires 0 <= i < |ss| => With(devs, floor, Reported(ss[i])))
  }

  // ---- as it runs ----

  /** What the first loop has built after the devices `devs`. */
  ghost predicate Grouped(devs: seq<Device>, floor: real, order: seq<Sig>, groups: map<Sig, seq<Device>>,
                          checked: int, silenced: int) {
    && order == Shapes(devs, floor)
    && (forall s :: s in groups <==> s in order)
    && (forall s <- groups :: groups[s] == With(devs, floor, Reported(s)))
    && checked == |devs| - |With(devs, floor, Unparseable)|
    && silenced == |With(devs, floor, Silenced)|
  }

  lemma GroupedSnoc(devs: seq<Device>, d: Device, floor: real, order: seq<Sig>,
                    groups: map<Sig, seq<Device>>, checked: int, silenced: int)
    requires Grouped(devs, floor, order, groups, checked, silenced)
    ensures match FateOf(d, floor)
      case Unparseable => Grouped(devs + [d], floor, order, groups, checked, silenced)
      case Healthy => Grouped(devs + [d], floor, order, groups, checked + 1, silenced)
      case Silenced => Grouped(devs + [d], floor, order, groups, checked + 1, silenced + 1)
      case Reported(x) =>
        Grouped(devs + [d], floor, AddShape(order, Reported(x)),
                groups[x := (if x in groups then groups[x] else []) + [d]], checked + 1, silenced)
  {
    hide FateOf, With, Shapes;
    var fate := FateOf(d, floor);
    ShapesSnoc(devs, d, floor);
    WithSnoc(devs, d, floor, Unparseable);
    WithSnoc(devs, d, floor, Silenced);
    forall y | y in order || fate == Reported(y)
      ensures With(devs + [d], floor, Reported(y))
           == With(devs, floor, Reported(y)) + if fate == Reported(y) then [d] else []
    {
      WithSnoc(devs, d, floor, Reported(y));
    }
    if fate.Reported? { ShapeHasDevices(devs, floor, fate.sig); }
  }

  method GroupDevices(devs: seq<Device>, floor: real)
    returns (order: seq<Sig>, groups: map<Sig, seq<Device>>, checked: int, silenced: int)
    ensures Grouped(devs, floor, order, groups, checked, silenced)
  {
    hide FateOf, With, Shapes, Grouped;
    groups := map[];
    order := [];
    checked, silenced := 0, 0;
    assert devs[..0] == [];
    GroupedNone(floor);
    for k := 0 to |devs|
      invariant Grouped(devs[..k], floor, order, groups, checked, silenced)
    {
      var d := devs[k];
      assert devs[..k + 1] == devs[..k] + [d];
      GroupedSnoc(devs[..k], d, floor, order, groups, checked, silenced);
      DecideFate(d, floor);
      if d.capSpeed == 0.0 || d.capWidth == 0 || d.staSpeed == 0.0 || d.staWidth == 0 { continue; }
      checked := checked + 1;
      var widthDown := d.staWidth < d.capWidth;
      var speedDown := d.staSpeed < d.capSpeed;
      if !widthDown && !speedDown { continue; }
      if !widthDown && floor > 0.0 && d.staSpeed >= floor {
        silenced := silenced + 1;
        continue;
      }
      var level := Warn;
      if widthDown { level := Critical; }
      var s := Sig(d.kind, level, d.capSpeed, d.staSpeed, d.capWidth, d.staWidth);
      GroupedKeys(devs[..k], floor, order, groups, checked - 1, silenced, s);
      ghost var before := groups;
      if s !in groups {
        groups := groups[s := []];
        order := order + [s];
      }
      groups := groups[s := groups[s] + [d]];
      assert groups == before[s := (if s in before then before[s] else []) + [d]];
    }
    assert devs[..|devs|] == devs;
  }

  lemma GroupedNone(floor: real)
    ensures Grouped([], floor, [], map[], 0, 0)
  {
  }

  lemma GroupedKeys(devs: seq<Device>, floor: real, order: seq<Sig>,
                    groups: map<Sig, seq<Device>>, checked: int, silenced: int, s: Sig)
    requires Grouped(devs, floor, order, groups, checked, silenced)
    ensures s in groups <==> s in order
  {
  }

  lemma GroupNotEmpty(devs: seq<Device>, floor: real, i: nat)
    requires i < |GroupsOf(devs, floor)|
    ensures GroupsOf(devs, floor)[i] != []
  {
    var ss := Shapes(devs, floor);
    assert ss[i] in ss;
    ShapeHasDevices(devs, floor, ss[i]);
  }

  /** The finding of the group at `i`. */
  function GroupFinding(devs: seq<Device>, floor: real, show: real -> string, i: nat): Finding
    requires i < |Shapes(devs, floor)|
  {
    GroupNotEmpty(devs, floor, i);
    Build(GroupsOf(devs, floor)[i], Shapes(devs, floor)[i], show)
  }

  /** What `evalPCIeLinks` returns: a finding for each shape, or the one quiet finding. */
  function Findings(devs: seq<Device>, floor: real, show: real -> string): (out: seq<Finding>)
    ensures out != []
    ensures Shapes(devs, floor) != [] ==> |out| == |Shapes(devs, floor)|
    ensures forall i :: 0 <= i < |Shapes(devs, floor)| ==> out[i] == GroupFinding(devs, floor, show, i)
  {
    var n := |Shapes(devs, floor)|;
    if n == 0 then [Quiet(|devs| - |With(devs, floor, Unparseable)|, |With(devs, floor, Silenced)|, floor, show)]
    else seq(n, i requires 0 <= i < n => GroupFinding(devs, floor, show, i))
  }

  method EvalPCIeLinks(devs: seq<Device>, floor: real, show: real -> string) returns (out: seq<Finding>)
    ensures out == Findings(devs, floor, show)
  {
    hide Build, Quiet, FateOf, With, Shapes;
    var order, groups, checked, silenced := GroupDevices(devs, floor);
    out := [];
    for i := 0 to |order|
      invariant |out| == i
      invariant forall j :: 0 <= j < i ==> out[j] == GroupFinding(devs, floor, show, j)
    {
      assert order[i] in order;
      ShapeHasDevices(devs, floor, order[i]);
      out := out + [Build(groups[order[i]], order[i], show)];
    }
    if |out| == 0 {
      out := [Quiet(checked, silenced, floor, show)];
    }
  }

  lemma DecideFate(d: Device, floor: real)
    ensures FateOf(d, floor) ==
      if d.capSpeed == 0.0 || d.capWidth == 0 || d.staSpeed == 0.0 || d.staWidth == 0 then Unparseable
      else if !(d.staWidth < d.capWidth) && !(d.staSpeed < d.capSpeed) then Healthy
      else if !(d.staWidth < d.capWidth) && floor > 0.0 && d.staSpeed >= floor then Silenced
      else Reported(Sig(d.kind, if d.staWidth < d.capWidth then Critical else Warn,
                        d.capSpeed, d.staSpeed, d.capWidth, d.staWidth))
  {
  }

  // ---- nothing is lost, nothing counted twice ----

  function TotalSize(gs: seq<seq<Device>>): nat {
    if gs == [] then 0 else TotalSize(gs[..|gs| - 1]) + |gs[|gs| - 1]|
  }

  function SizesFor(devs: seq<Device>, floor: real, ss: seq<Sig>): nat {
    if ss == [] then 0 else SizesFor(devs, floor, ss[..|ss| - 1]) + |With(devs, floor, Reported(ss[|ss| - 1]))|
  }

  lemma {:induction false} SizesSnoc(devs: seq<Device>, d: Device, floor: real, ss: seq<Sig>)
    requires Unique(ss)
    ensures SizesFor(devs + [d], floor, ss) == SizesFor(devs, floor, ss)
      + if FateOf(d, floor).Reported? && FateOf(d, floor).sig in ss then 1 else 0
  {
    hide FateOf, With;
    if ss != [] {
      var n := |ss| - 1;
      SizesSnoc(devs, d, floor, ss[..n]);
      WithSnoc(devs, d, floor, Reported(ss[n]));
      assert ss == ss[..n] + [ss[n]];
    }
  }

  lemma {:induction false} SizesAddUp(devs: seq<Device>, floor: real)
    ensures |With(devs, floor, Unparseable)| + |With(devs, floor, Healthy)| + |With(devs, floor, Silenced)|
      + SizesFor(devs, floor, Shapes(devs, floor)) == |devs|
  {
    hide FateOf;
    if devs != [] {
      var n := |devs| - 1;
      var front, d := devs[..n], devs[n];
      assert devs == front + [d];
      SizesAddUp(front, floor);
      var before := Shapes(front, floor);
      ShapesDistinct(front, floor);
      SizesSnoc(front, d, floor, before);
      ShapesSnoc(front, d, floor);
      if FateOf(d, floor).Reported? && FateOf(d, floor).sig !in before {
        var s := FateOf(d, floor).sig;
        ShapeHasDevices(front, floor, s);
        WithSnoc(front, d, floor, Reported(s));
        assert (before + [s])[..|before|] == before;
      }
    }
  }

  lemma {:induction false} SizesAreGroups(devs: seq<Device>, floor: real, gs: seq<seq<Device>>, ss: seq<Sig>)
    requires |gs| == |ss| && forall i :: 0 <= i < |gs| ==> gs[i] == With(devs, floor, Reported(ss[i]))
    ensures TotalSize(gs) == SizesFor(devs, floor, ss)
  {
    if gs != [] { SizesAreGroups(devs, floor, gs[..|gs| - 1], ss[..|ss| - 1]); }
  }

  lemma {:induction false} WithMeans(devs: seq<Device>, floor: real, fate: Fate, d: Device)
    ensures d in With(devs, floor, fate) <==> d in devs && FateOf(d, floor) == fate
  {
    hide FateOf;
    if devs != [] {
      var n := |devs| - 1;
      assert devs == devs[..n] + [devs[n]];
      WithMeans(devs[..n], floor, fate, d);
    }
  }

  /** Main result: the input is partitioned. Every device is unparseable, healthy, silenced or
      in exactly one group; a group shares one shape; shapes are distinct; and the sizes, which
      are the counts the findings carry, add up to the input length. */
  lemma Partition(devs: seq<Device>, floor: real)
    ensures var gs := GroupsOf(devs, floor);
      var ss := Shapes(devs, floor);
      && |With(devs, floor, Unparseable)| + |With(devs, floor, Healthy)| + |With(devs, floor, Silenced)|
         + TotalSize(gs) == |devs|
      && Unique(ss)
      && (forall i :: 0 <= i < |gs| ==> gs[i] != [])
      && (forall i, d :: 0 <= i < |gs| ==> InGroup(devs, floor, i, d))
      && (forall d <- devs :: FateOf(d, floor).Reported? ==> exists i :: 0 <= i < |gs| && d in gs[i])
  {
    hide FateOf, With, Shapes, InGroup;
    var gs, ss := GroupsOf(devs, floor), Shapes(devs, floor);
    SizesAddUp(devs, floor);
    SizesAreGroups(devs, floor, gs, ss);
    ShapesDistinct(devs, floor);
    forall i | 0 <= i < |gs| ensures gs[i] != [] { GroupNotEmpty(devs, floor, i); }
    forall i, d | 0 <= i < |gs| ensures InGroup(devs, floor, i, d) { GroupMembers(devs, floor, i, d); }
    forall d | d in devs && FateOf(d, floor).Reported? ensures exists i :: 0 <= i < |gs| && d in gs[i] {
      var i := GroupFound(devs, floor, d);
    }
  }

  /** A group holds exactly the devices of its shape. */
  ghost predicate InGroup(devs: seq<Device>, floor: real, i: int, d: Device)
    requires 0 <= i < |GroupsOf(devs, floor)|
  {
    d in GroupsOf(devs, floor)[i] <==> d in devs && FateOf(d, floor) == Reported(Shapes(devs, floor)[i])
  }

  lemma GroupMembers(devs: seq<Device>, floor: real, i: nat, d: Device)
    requires i < |GroupsOf(devs, floor)|
    ensures InGroup(devs, floor, i, d)
  {
    WithMeans(devs, floor, Reported(Shapes(devs, floor)[i]), d);
  }

  lemma GroupFound(devs: seq<Device>, floor: real, d: Device) returns (i: nat)
    requires d in devs && FateOf(d, floor).Reported?
    ensures i < |GroupsOf(devs, floor)| && d in GroupsOf(devs, floor)[i]
  {
    var s := FateOf(d, floor).sig;
    WithMeans(devs, floor, Reported(s), d);
    ShapeHasDevices(devs, floor, s);
    var ss := Shapes(devs, floor);
    i :| 0 <= i < |ss| && ss[i] == s;
  }

  /** A group keeps input order: a device's place in it is the number of earlier devices of
      the same fate. */
  lemma {:induction false} GroupsKeepOrder(devs: seq<Device>, floor: real, fate: Fate, i: nat)
    requires i < |devs| && FateOf(devs[i], floor) == fate
    ensures var k := |With(devs[..i], floor, fate)|;
      k < |With(devs, floor, fate)| && With(devs, floor, fate)[k] == devs[i]
    ensures |With(devs[..i + 1], floor, fate)| == |With(devs[..i], floor, fate)| + 1
    decreases |devs|
  {
    hide FateOf, With;
    var n := |devs| - 1;
    assert devs == devs[..n] + [devs[n]] && devs[..i + 1] == devs[..i] + [devs[i]];
    WithSnoc(devs[..n], devs[n], floor, fate);
    WithSnoc(devs[..i], devs[i], floor, fate);
    if i < n {
      assert devs[..n][..i] == devs[..i];
      GroupsKeepOrder(devs[..n], floor, fate, i);
    }
  }

  /** Shapes are in first-seen order: when the shape at `i` is first met, no later one has been. */
  lemma {:induction false} ShapesFirstSeen(devs: seq<Device>, floor: real, i: nat, j: nat) returns (a: nat)
    requires i < j < |Shapes(devs, floor)|
    ensures a < |devs| && FateOf(devs[a], floor) == Reported(Shapes(devs, floor)[i])
    ensures forall b :: 0 <= b <= a ==> FateOf(devs[b], floor) != Reported(Shapes(devs, floor)[j])
  {
    hide FateOf, With;
    var n := |devs| - 1;
    var before, ss := Shapes(devs[..n], floor), Shapes(devs, floor);
    if j < |before| {
      a := ShapesFirstSeen(devs[..n], floor, i, j);
    } else {
      assert ss[j] !in before;
      assert before[i] in before;
      ShapeHasDevices(devs[..n], floor, before[i]);
      a := SomeDevice(devs[..n], floor, Reported(before[i]));
      ShapeHasDevices(devs[..n], floor, ss[j]);
      forall b | 0 <= b <= a ensures FateOf(devs[b], floor) != Reported(ss[j]) {
        assert devs[..n][b] == devs[b];
        WithMeans(devs[..n], floor, Reported(ss[j]), devs[b]);
      }
    }
  }

  lemma SomeDevice(devs: seq<Device>, floor: real, fate: Fate) returns (a: nat)
    requires With(devs, floor, fate) != []
    ensures a < |devs| && FateOf(devs[a], floor) == fate
  {
    hide FateOf;
    var d := With(devs, floor, fate)[0];
    WithMeans(devs, floor, fate, d);
    a :| 0 <= a < |devs| && devs[a] == d;
  }

  /** The count a group's finding carries is the size of the group. */
  lemma CountMetric(devs: seq<Device>, s: Sig, show: real -> string)
    requires devs != []
    ensures var m := Build(devs, s, show).metrics; "count" in m && Atoi(m["count"]) == Some(|devs|)
  {
    hide Itoa, Atoi;
    AtoiOfItoa(|devs|);
  }

  /** The device's links are reported, and it runs on fewer lanes than it could. */
  predicate LostLane(d: Device) {
    && d.capSpeed != 0.0 && d.capWidth != 0 && d.staSpeed != 0.0 && d.staWidth != 0
    && d.staWidth < d.capWidth
  }

  /** Main result: for every speed floor, every device with a lost lane is in a group whose
      finding is Critical, and a finding is Critical for no other device. */
  lemma WidthLossIsCritical(devs: seq<Device>, floor: real, show: real -> string, d: Device)
    requires d in devs
    ensures LostLane(d) ==> exists i :: 0 <= i < |Shapes(devs, floor)| && Holds(devs, floor, i, d)
    ensures forall i :: 0 <= i < |Shapes(devs, floor)| && Holds(devs, floor, i, d) ==>
              (Findings(devs, floor, show)[i].level == Critical <==> LostLane(d))
  {
    hide With, Shapes, FateOf, Build, Quiet;
    LaneFate(d, floor);
    if LostLane(d) {
      var i := GroupFound(devs, floor, d);
      assert Holds(devs, floor, i, d);
    }
    forall i | 0 <= i < |Shapes(devs, floor)| && Holds(devs, floor, i, d)
      ensures Findings(devs, floor, show)[i].level == Critical <==> LostLane(d)
    {
      GroupMembers(devs, floor, i, d);
      FindingLevel(devs, floor, show, i);
    }
  }

  predicate Holds(devs: seq<Device>, floor: real, i: int, d: Device)
    requires 0 <= i < |Shapes(devs, floor)|
  {
    d in GroupsOf(devs, floor)[i]
  }

  lemma LaneFate(d: Device, floor: real)
    ensures LostLane(d) ==> FateOf(d, floor).Reported?
    ensures FateOf(d, floor).Reported? ==> (FateOf(d, floor).sig.level == Critical <==> LostLane(d))
  {
  }

  lemma FindingLevel(devs: seq<Device>, floor: real, show: real -> string, i: nat)
    requires i < |Shapes(devs, floor)|
    ensures Findings(devs, floor, show)[i].level == Shapes(devs, floor)[i].level
  {
    hide With, Shapes, FateOf, Quiet, JoinWith, Itoa;
  }

  /** The device's links are reported, with its full lanes but at a lower speed than it could. */
  predicate SlowOnly(d: Device) {
    && d.capSpeed != 0.0 && d.capWidth != 0 && d.staSpeed != 0.0 && d.staWidth != 0
    && d.staWidth >= d.capWidth && d.staSpeed < d.capSpeed
  }

  /** Which devices any finding speaks of: those with a lost lane, and those that are only slow
      unless there is a positive floor that they still reach. */
  lemma ReportedIff(devs: seq<Device>, floor: real, d: Device)
    requires d in devs
    ensures (exists i :: 0 <= i < |Shapes(devs, floor)| && Holds(devs, floor, i, d)) <==>
      LostLane(d) || (SlowOnly(d) && !(floor > 0.0 && d.staSpeed >= floor))
  {
    hide With, Shapes, FateOf;
    ReportedFate(d, floor);
    if FateOf(d, floor).Reported? {
      var i := GroupFound(devs, floor, d);
      assert Holds(devs, floor, i, d);
    }
    forall i | 0 <= i < |Shapes(devs, floor)| && Holds(devs, floor, i, d) ensures FateOf(d, floor).Reported? {
      GroupMembers(devs, floor, i, d);
    }
  }

  lemma ReportedFate(d: Device, floor: real)
    ensures FateOf(d, floor).Reported? <==> LostLane(d) || (SlowOnly(d) && !(floor > 0.0 && d.staSpeed >= floor))
  {
  }

  /** The device is spoken of: a lost lane, or slow without a positive floor that it reaches. */
  predicate Degraded(d: Device, floor: real) {
    LostLane(d) || (SlowOnly(d) && !(floor > 0.0 && d.staSpeed >= floor))
  }

  lemma ShapesIffDegraded(devs: seq<Device>, floor: real)
    ensures Shapes(devs, floor) == [] <==> forall d <- devs :: !Degraded(d, floor)
  {
    hide With, Shapes, FateOf;
    forall d | d in devs && Degraded(d, floor) ensures Shapes(devs, floor) != [] {
      ReportedFate(d, floor);
      var i := GroupFound(devs, floor, d);
    }
    if Shapes(devs, floor) != [] {
      var d := DeviceOf(devs, floor, 0);
    }
  }

  /** Some device of the group at `i`, and what its finding's level says of it. */
  lemma DeviceOf(devs: seq<Device>, floor: real, i: nat) returns (d: Device)
    requires i < |Shapes(devs, floor)|
    ensures d in devs && Degraded(d, floor) && Holds(devs, floor, i, d)
  {
    hide With, Shapes, FateOf;
    GroupNotEmpty(devs, floor, i);
    d := GroupsOf(devs, floor)[i][0];
    GroupMembers(devs, floor, i, d);
    ReportedFate(d, floor);
  }

  /** Main result, on the list that is returned: a finding is Critical if and only if some device
      lost a lane; a finding is Warn if and only if some device is only slow and not silenced; and
      when neither is so, the one finding there is has level OK. */
  lemma ReturnedLevels(devs: seq<Device>, floor: real, show: real -> string)
    ensures var out := Findings(devs, floor, show);
      var quiet := forall d <- devs :: !Degraded(d, floor);
      && (HasLevel(out, Critical) <==> exists d <- devs :: LostLane(d))
      && (HasLevel(out, Warn) <==> exists d <- devs :: Degraded(d, floor) && !LostLane(d))
      && (quiet ==> |out| == 1 && out[0].level == OK)
      && (!quiet ==> forall f <- out :: f.level == Critical || f.level == Warn)
  {
    hide With, Shapes, FateOf, Build;
    var out, n := Findings(devs, floor, show), |Shapes(devs, floor)|;
    ShapesIffDegraded(devs, floor);
    forall d | d in devs && Degraded(d, floor)
      ensures HasLevel(out, if LostLane(d) then Critical else Warn)
    {
      ReportedFate(d, floor);
      var i := GroupFound(devs, floor, d);
      assert Holds(devs, floor, i, d);
      LevelOf(devs, floor, show, i, d);
      assert out[i] in out;
    }
    if n > 0 {
      forall f | f in out
        ensures f.level == Critical || f.level == Warn
        ensures exists d <- devs :: Degraded(d, floor) && (f.level == Critical <==> LostLane(d))
      {
        var i :| 0 <= i < n && out[i] == f;
        var d := DeviceOf(devs, floor, i);
        LevelOf(devs, floor, show, i, d);
      }
    }
  }

  lemma LevelOf(devs: seq<Device>, floor: real, show: real -> string, i: nat, d: Device)
    requires i < |Shapes(devs, floor)| && Holds(devs, floor, i, d)
    ensures Findings(devs, floor, show)[i].level == if LostLane(d) then Critical else Warn
  {
    hide With, Shapes, Build, Quiet;
    GroupMembers(devs, floor, i, d);
    FindingLevel(devs, floor, show, i);
  }

  lemma ContainsMiddle(a: string, b: string, c: string)
    ensures Contains(a + b + c, b)
  {
    assert OccursAt(a + b + c, b, |a|);
  }

  lemma {:induction false} JoinedContains(parts: seq<string>, sep: string, k: nat) returns (a: string, b: string)
    requires k < |parts|
    ensures JoinWith(parts, sep) == a + parts[k] + b
  {
    if k == 0 {
      a, b := "", if |parts| == 1 then "" else sep + JoinWith(parts[1..], sep);
    } else {
      var front;
      front, b := JoinedContains(parts[1..], sep, k - 1);
      a := parts[0] + sep + front;
    }
  }

  /** What the finding says of a device: its kind, address and name are there, its links' speeds
      are in the summary, and its lanes where some were lost. */
  predicate SpeaksOf(f: Finding, d: Device, show: real -> string) {
    && {"kind", "names", "count", "cap", "sta"} <= f.metrics.Keys && f.metrics["kind"] == d.kind
    && Contains(f.metrics["names"], d.bdf) && Contains(f.metrics["names"], d.name)
    && Contains(f.summary, show(d.capSpeed) + "GT/s→" + show(d.staSpeed))
    && (LostLane(d) <==> HasPrefix(f.advice, "PCIe lane"))
    && (LostLane(d) ==> Contains(f.summary, Itoa(d.capWidth) + "→x" + Itoa(d.staWidth)))
  }

  lemma NamesContain(devs: seq<Device>, k: nat)
    requires k < |devs|
    ensures var names := JoinWith(Ids(devs), ", "); Contains(names, devs[k].bdf) && Contains(names, devs[k].name)
  {
    hide Contains, Id, JoinWith;
    var a, b := JoinedContains(Ids(devs), ", ", k);
    IdContains(devs[k], a, b);
  }

  lemma IdContains(d: Device, a: string, b: string)
    ensures Contains(a + Id(d) + b, d.bdf) && Contains(a + Id(d) + b, d.name)
  {
    hide Contains;
    if d.name == "" {
      ContainsMiddle(a, d.bdf, b);
      ContainsMiddle(a + d.bdf + b, "", "");
      assert a + d.bdf + b == a + d.bdf + b + "" + "";
    } else {
      IdWithName(d, a, b);
    }
  }

  lemma IdWithName(d: Device, a: string, b: string)
    requires d.name != ""
    ensures Contains(a + Id(d) + b, d.bdf) && Contains(a + Id(d) + b, d.name)
  {
    hide Contains;
    assert a + Id(d) + b == a + d.name + ("(" + d.bdf + ")" + b);
    ContainsMiddle(a, d.name, "(" + d.bdf + ")" + b);
    assert a + Id(d) + b == (a + d.name + "(") + d.bdf + (")" + b);
    ContainsMiddle(a + d.name + "(", d.bdf, ")" + b);
  }

  lemma ContainsTwo(front: string, a: string, m: string, b: string, mid: string,
                    c: string, n: string, d: string, back: string)
    ensures Contains(front + a + m + b + mid + c + n + d + back, a + m + b)
    ensures Contains(front + a + m + b + mid + c + n + d + back, c + n + d)
  {
    hide Contains;
    var text := front + a + m + b + mid + c + n + d + back;
    assert text == front + (a + m + b) + (mid + c + n + d + back);
    ContainsMiddle(front, a + m + b, mid + c + n + d + back);
    assert text == (front + a + m + b + mid) + (c + n + d) + back;
    ContainsMiddle(front + a + m + b + mid, c + n + d, back);
  }

  lemma ContainsOne(front: string, a: string, m: string, b: string, x: string, y: string, z: string)
    ensures Contains(front + a + m + b + x + y + z, a + m + b)
  {
    hide Contains;
    assert front + a + m + b + x + y + z == front + (a + m + b) + (x + y + z);
    ContainsMiddle(front, a + m + b, x + y + z);
  }

  lemma SummaryShows(devs: seq<Device>, s: Sig, show: real -> string)
    requires devs != []
    ensures var text := Build(devs, s, show).summary;
      && Contains(text, show(s.capSpeed) + "GT/s→" + show(s.staSpeed))
      && (s.level == Critical ==> Contains(text, Itoa(s.capWidth) + "→x" + Itoa(s.staWidth)))
  {
    hide Contains, Itoa, JoinWith, Ids, Id;
    var d0 := devs[0];
    var subject := if |devs| > 1 then d0.kind + " ×" + Itoa(|devs|) else d0.kind + " " + Id(d0);
    if s.level == Critical {
      ContainsTwo(subject + " PCIe 链路降级：宽度 x", Itoa(s.capWidth), "→x", Itoa(s.staWidth), "，速率 ",
                  show(s.capSpeed), "GT/s→", show(s.staSpeed), "GT/s");
    } else {
      ContainsOne(subject + " PCIe 链路速率降级：", show(s.capSpeed), "GT/s→", show(s.staSpeed),
                  "GT/s（宽度 x", Itoa(s.staWidth), " 正常）");
    }
  }

  /** Every device of a group is spoken of by its finding, which shows the raw links of the
      first of them and counts them all. */
  lemma FindingSpeaksOf(devs: seq<Device>, floor: real, show: real -> string, i: nat, k: nat)
    requires i < |Shapes(devs, floor)| && k < |GroupsOf(devs, floor)[i]|
    ensures var f, group := Findings(devs, floor, show)[i], GroupsOf(devs, floor)[i];
      && f.item == "hw_pcie_link" && SpeaksOf(f, group[k], show)
      && f.metrics["cap"] == group[0].capRaw && f.metrics["sta"] == group[0].staRaw
      && Contains(f.detail, "\nLnkCap: " + group[0].capRaw + "\nLnkSta: " + group[0].staRaw + "\n")
      && Atoi(f.metrics["count"]) == Some(|group|)
  {
    hide With, Shapes, Contains, Itoa, Atoi, JoinWith, Ids, Build, FateOf;
    var group, s := GroupsOf(devs, floor)[i], Shapes(devs, floor)[i];
    GroupMembers(devs, floor, i, group[k]);
    GroupMembers(devs, floor, i, group[0]);
    assert group[k] in group && group[0] in group;
    SameShape(group[k], floor, s);
    SameShape(group[0], floor, s);
    MetricsShow(group, s, show);
    NamesContain(group, k);
    SummaryShows(group, s, show);
    CountMetric(group, s, show);
    DetailShows(group, s, show);
    AdviceByLevel(group, s, show);
  }

  lemma SameShape(d: Device, floor: real, s: Sig)
    requires FateOf(d, floor) == Reported(s)
    ensures d.kind == s.kind && d.capSpeed == s.capSpeed && d.staSpeed == s.staSpeed
    ensures d.capWidth == s.capWidth && d.staWidth == s.staWidth && (LostLane(d) <==> s.level == Critical)
  {
  }

  lemma MetricsShow(devs: seq<Device>, s: Sig, show: real -> string)
    requires devs != []
    ensures var f := Build(devs, s, show);
      && f.item == "hw_pcie_link" && f.metrics.Keys == {"kind", "count", "names", "cap", "sta"}
      && f.metrics["kind"] == devs[0].kind && f.metrics["names"] == JoinWith(Ids(devs), ", ")
      && f.metrics["cap"] == devs[0].capRaw && f.metrics["sta"] == devs[0].staRaw
  {
    hide Itoa, JoinWith, Ids, Id;
  }

  lemma AdviceByLevel(devs: seq<Device>, s: Sig, show: real -> string)
    requires devs != []
    ensures HasPrefix(Build(devs, s, show).advice, "PCIe lane") <==> s.level == Critical
  {
    hide Itoa, JoinWith, Ids, Id;
    var advice := Build(devs, s, show).advice;
    if s.level == Critical {
      assert advice[..9] == "PCIe lane";
    } else {
      assert advice[5] != 'l';
    }
  }

  lemma DetailShows(devs: seq<Device>, s: Sig, show: real -> string)
    requires devs != []
    ensures Contains(Build(devs, s, show).detail,
                     "\nLnkCap: " + devs[0].capRaw + "\nLnkSta: " + devs[0].staRaw + "\n")
  {
    hide Contains, Itoa, JoinWith, Ids, Id;
    var d0 := devs[0];
    var names := JoinWith(Ids(devs), ", ");
    var links := "\nLnkCap: " + d0.capRaw + "\nLnkSta: " + d0.staRaw + "\n";
    var front, back := d0.kind + " " + d0.model, "受影响设备(" + Itoa(|devs|) + ")：" + names;
    assert Build(devs, s, show).detail == front + links + back;
    ContainsMiddle(front, links, back);
  }

  ghost function PlacesWith(devs: seq<Device>, floor: real, fate: Fate): set<nat> {
    set k: nat | k < |devs| && FateOf(devs[k], floor) == fate
  }

  lemma {:induction false} WithCount(devs: seq<Device>, floor: real, fate: Fate)
    ensures |With(devs, floor, fate)| == |PlacesWith(devs, floor, fate)|
  {
    hide FateOf, PlacesWith;
    if devs == [] {
      NoPlacesWith(floor, fate);
    } else {
      WithCount(devs[..|devs| - 1], floor, fate);
      PlacesWithSnoc(devs, floor, fate);
    }
  }

  lemma NoPlacesWith(floor: real, fate: Fate)
    ensures |PlacesWith([], floor, fate)| == 0
  {
  }

  lemma PlacesWithSnoc(devs: seq<Device>, floor: real, fate: Fate)
    requires devs != []
    ensures var n := |devs| - 1;
      |PlacesWith(devs, floor, fate)|
        == |PlacesWith(devs[..n], floor, fate)| + if FateOf(devs[n], floor) == fate then 1 else 0
  {
    hide FateOf;
    var n := |devs| - 1;
    var all, front := PlacesWith(devs, floor, fate), PlacesWith(devs[..n], floor, fate);
    forall i: nat ensures i in front <==> i < n && i in all {
      if i < n { assert devs[..n][i] == devs[i]; }
    }
    OneMorePlace(all, front, n, FateOf(devs[n], floor) == fate);
  }

  /** All four numbers of the device's links could be read. */
  predicate Readable(d: Device) {
    d.capSpeed != 0.0 && d.capWidth != 0 && d.staSpeed != 0.0 && d.staWidth != 0
  }

  ghost function SlowPlaces(devs: seq<Device>): set<nat> {
    set k: nat | k < |devs| && SlowOnly(devs[k])
  }

  lemma QuietFates(devs: seq<Device>, floor: real)
    requires forall d <- devs :: !Degraded(d, floor)
    ensures |With(devs, floor, Unparseable)| == |devs| <==> forall d <- devs :: !Readable(d)
    ensures |With(devs, floor, Unparseable)| <= |devs|
    ensures |With(devs, floor, Silenced)| == |SlowPlaces(devs)|
  {
    hide With, FateOf;
    forall d | d in devs
      ensures FateOf(d, floor) == Unparseable <==> !Readable(d)
      ensures FateOf(d, floor) == Silenced <==> SlowOnly(d)
    {
      QuietFate(d, floor);
    }
    WithAll(devs, floor, Unparseable);
    WithCount(devs, floor, Silenced);
    assert PlacesWith(devs, floor, Silenced) == SlowPlaces(devs);
  }

  lemma QuietFate(d: Device, floor: real)
    requires !Degraded(d, floor)
    ensures FateOf(d, floor) == Unparseable <==> !Readable(d)
    ensures FateOf(d, floor) == Silenced <==> SlowOnly(d)
  {
  }

  lemma {:induction false} WithAll(devs: seq<Device>, floor: real, fate: Fate)
    ensures |With(devs, floor, fate)| <= |devs|
    ensures |With(devs, floor, fate)| == |devs| <==> forall d <- devs :: FateOf(d, floor) == fate
  {
    hide FateOf;
    if devs != [] {
      var n := |devs| - 1;
      assert devs == devs[..n] + [devs[n]];
      WithAll(devs[..n], floor, fate);
    }
  }

  /** What the one quiet finding says: that nothing could be read, that some devices are slow on
      purpose and how many, or that all is well. */
  lemma QuietSaysWhy(devs: seq<Device>, floor: real, show: real -> string)
    requires forall d <- devs :: !Degraded(d, floor)
    ensures var f, slow := Findings(devs, floor, show)[0], |SlowPlaces(devs)|;
      && f.item == "hw_pcie_link" && f.metrics == map[]
      && ((forall d <- devs :: !Readable(d)) ==> f.summary == "未发现可检测的 NVMe/网卡 PCIe 链路")
      && ((exists d <- devs :: Readable(d)) && slow == 0 ==> f.summary == "PCIe 链路速率/宽度正常")
      && (slow > 0 ==> Contains(f.summary, Itoa(slow) + " 块仅速率降级但 ≥" + show(floor)))
  {
    hide With, FateOf, Contains, Itoa, Quiet, Shapes, Build;
    ShapesIffDegraded(devs, floor);
    QuietFates(devs, floor);
    var slow := |SlowPlaces(devs)|;
    QuietMeans(|devs| - |With(devs, floor, Unparseable)|, slow, floor, show);
    if slow > 0 {
      assert SlowPlaces(devs) != {};
      var k :| k in SlowPlaces(devs);
      assert devs[k] in devs && Readable(devs[k]);
    }
  }

  lemma QuietMeans(checked: int, silenced: int, floor: real, show: real -> string)
    ensures var f := Quiet(checked, silenced, floor, show);
      && f.item == "hw_pcie_link" && f.metrics == map[]
      && (checked == 0 ==> f.summary == "未发现可检测的 NVMe/网卡 PCIe 链路")
      && (checked != 0 && silenced <= 0 ==> f.summary == "PCIe 链路速率/宽度正常")
      && (checked != 0 && silenced > 0 ==> Contains(f.summary, Itoa(silenced) + " 块仅速率降级但 ≥" + show(floor)))
  {
    hide Contains, Itoa;
    ContainsOne("PCIe 链路正常（", Itoa(silenced), " 块仅速率降级但 ≥", show(floor), "GT/s，视为故意配置）", "", "");
    var text := "PCIe 链路正常（" + Itoa(silenced) + " 块仅速率降级但 ≥" + show(floor) + "GT/s，视为故意配置）";
    assert text + "" + "" == text;
  }
}
