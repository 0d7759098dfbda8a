/** `nic_down` and `nic_up`: the gate that decides from the bonding probe whether a link
    command may run, and what every sequence of commands keeps on the hosts. */
module NicControl {
  import opened Text
  import opened BondText
  import opened BondParser

  const NOT_CONFIGURED := "(no bonds configured)"
  const PROBE := Keys(false, false)

  // ---- hosts and commands ----

  datatype Host = Host(name: string, bonds: seq<BondFile>)

  datatype Args = Args(node: string, eth: string, yes: string)

  /** What the outside world does to one command: whether the probe and the link command
      reach the host, and the MII status the port shows afterwards. */
  datatype World = World(probeOk: bool, runOk: bool, status: string)

  datatype Reply =
    | NeedNode | NoSuchNode | Ambiguous(names: seq<string>) | NeedEth | BadEth
    | ProbeFailed | NotMember | NotAllUp(bond: string, notUp: seq<string>)
    | Preview(bond: string, others: seq<string>)
    | RunFailed | Done(bond: string, others: seq<string>)

  datatype Kind = Down | Up
  datatype Command = Command(kind: Kind, args: Args, world: World)

  // ---- reading the probe ----

  predicate HasMember(rec: BondRecord, eth: string) {
    exists p <- rec.slaves :: p.name == eth
  }

  /** The first bond that lists the interface. */
  function BondOf(recs: seq<BondRecord>, eth: string): Option<BondRecord> {
    if recs == [] then None
    else if HasMember(recs[0], eth) then Some(recs[0])
    else BondOf(recs[1..], eth)
  }

  ghost predicate SlavesShow(slaves: seq<BondSlave>, ports: seq<Port>)
    reads slaves
  {
    && |slaves| == |ports|
    && forall p :: 0 <= p < |slaves| ==>
         slaves[p].name == ports[p].name && slaves[p].miiStatus == ports[p].mii
         && slaves[p].failures == ports[p].failures
  }

  method FindBondForSlave(raw: string, eth: string) returns (bondName: string, slaves: seq<BondSlave>, found: bool)
    ensures found <==> BondOf(Parsed(raw), eth).Some?
    ensures found ==> var rec := BondOf(Parsed(raw), eth).value; bondName == rec.name && SlavesShow(slaves, rec.slaves)
  {
    hide Parsed;
    var order := ParseBonds(raw);
    ghost var recs := Parsed(raw);
    assert recs[0..] == recs;
    for i := 0 to |order|
      invariant Shows(order, recs)
      invariant BondOf(recs, eth) == BondOf(recs[i..], eth)
    {
      assert recs[i..][0] == recs[i] && recs[i..][1..] == recs[i + 1..];
      for p := 0 to |order[i].slaves|
        invariant forall q :: 0 <= q < p ==> recs[i].slaves[q].name != eth
      {
        if order[i].slaves[p].name == eth {
          assert recs[i].slaves[p].name == eth;
          return order[i].name, order[i].slaves, true;
        }
      }
    }
    assert recs[|order|..] == [];
    return "", [], false;
  }

  // ---- the gates ----

  /** `strings.EqualFold(s, "up")`. */
  predicate FoldsToUp(s: string) {
    |s| == 2 && s[0] in {'u', 'U'} && s[1] in {'p', 'P'}
  }

  lemma FoldsToUpIff(s: string)
    ensures FoldsToUp(s) <==> s in {"up", "UP", "Up", "uP"}
  {
    if |s| == 2 { assert s == [s[0], s[1]]; }
  }

  predicate Live(p: Port) {
    FoldsToUp(p.mii)
  }

  predicate AllLive(ports: seq<Port>) {
    forall k :: 0 <= k < |ports| ==> Live(ports[k])
  }

  /** The alphabet `ethNameRe` allows. */
  predicate EthName(s: string) {
    s != "" && forall c <- s :: 'A' <= c <= 'Z' || 'a' <= c <= 'z' || '0' <= c <= '9' || c in {'_', '.', ':', '-'}
  }

  function NotUpNames(ports: seq<Port>): seq<string> {
    if ports == [] then []
    else (if Live(ports[0]) then [] else [ports[0].name + "(MII=" + ports[0].mii + ")"]) + NotUpNames(ports[1..])
  }

  function Others(ports: seq<Port>, eth: string): seq<string> {
    if ports == [] then []
    else (if ports[0].name == eth then [] else [ports[0].name]) + Others(ports[1..], eth)
  }

  /** The reply of `nic_down` after the probe, when the link command is yet to run:
      Done stands for "run it". */
  function DownGate(probe: string, eth: string, yes: string): Reply {
    match BondOf(Parsed(probe), eth)
    case None => NotMember
    case Some(rec) =>
      if NotUpNames(rec.slaves) != [] then NotAllUp(rec.name, NotUpNames(rec.slaves))
      else if yes != "true" then Preview(rec.name, Others(rec.slaves, eth))
      else Done(rec.name, Others(rec.slaves, eth))
  }

  function UpGate(probe: string, eth: string, yes: string): Reply {
    match BondOf(Parsed(probe), eth)
    case None => NotMember
    case Some(rec) =>
      if yes != "true" then Preview(rec.name, Others(rec.slaves, eth)) else Done(rec.name, Others(rec.slaves, eth))
  }

  /** `resolveNodes` for a non-empty name: the indices of the hosts whose name contains it. */
  function Matching(hosts: seq<Host>, hint: string, lower: string -> string, from: nat): seq<nat>
    requires from <= |hosts|
    ensures forall i <- Matching(hosts, hint, lower, from) :: i < |hosts|
    decreases |hosts| - from
  {
    if from == |hosts| then []
    else (if Contains(lower(hosts[from].name), lower(hint)) then [from] else [])
         + Matching(hosts, hint, lower, from + 1)
  }

  function NamesOf(hosts: seq<Host>, idx: seq<nat>): seq<string>
    requires forall i <- idx :: i < |hosts|
  {
    seq(|idx|, k requires 0 <= k < |idx| => assert idx[k] in idx; hosts[idx[k]].name)
  }

  /** The checks both commands make before they touch a host. */
  function Target(hosts: seq<Host>, args: Args, lower: string -> string): (r: (Reply, nat))
    ensures r.0.ProbeFailed? ==> r.1 < |hosts|
  {
    if TrimSpace(args.node) == "" then (NeedNode, 0)
    else
      var idx := Matching(hosts, args.node, lower, 0);
      if idx == [] then (NoSuchNode, 0)
      else if |idx| != 1 then (Ambiguous(NamesOf(hosts, idx)), 0)
      else if TrimSpace(args.eth) == "" then (NeedEth, 0)
      else if !EthName(TrimSpace(args.eth)) then (BadEth, 0)
      else assert idx[0] in idx; (ProbeFailed, idx[0])
  }

  function Probe(h: Host): string {
    Print(h.bonds, PROBE, NOT_CONFIGURED)
  }

  // ---- what a link command does ----

  function SetPort(ports: seq<Port>, eth: string, status: string): (r: seq<Port>)
    ensures |r| == |ports|
    ensures forall j :: 0 <= j < |ports| ==> r[j] == if ports[j].name == eth then ports[j].(mii := status) else ports[j]
  {
    seq(|ports|, j requires 0 <= j < |ports| => if ports[j].name == eth then ports[j].(mii := status) else ports[j])
  }

  function SetBonds(bonds: seq<BondFile>, eth: string, status: string): (r: seq<BondFile>)
    ensures |r| == |bonds|
    ensures forall i :: 0 <= i < |bonds| ==> r[i] == bonds[i].(ports := SetPort(bonds[i].ports, eth, status))
  {
    seq(|bonds|, i requires 0 <= i < |bonds| => bonds[i].(ports := SetPort(bonds[i].ports, eth, status)))
  }

  predicate LiveSomewhere(bonds: seq<BondFile>, eth: string) {
    exists b <- bonds :: exists p <- b.ports :: p.name == eth && Live(p)
  }

  /** `ip link set <eth> down` leaves the port with whatever status it then shows. */
  function LinkDown(h: Host, eth: string, status: string): Host {
    h.(bonds := SetBonds(h.bonds, eth, status))
  }

  /** `ip link set <eth> up` never takes a live port down; a dead one shows any status. */
  function LinkUp(h: Host, eth: string, status: string): Host {
    if LiveSomewhere(h.bonds, eth) then h else h.(bonds := SetBonds(h.bonds, eth, status))
  }

  /** One whole command: the hosts afterwards and the reply. */
  function Apply(hosts: seq<Host>, c: Command, lower: string -> string): (r: (seq<Host>, Reply))
    ensures |r.0| == |hosts|
  {
    var (refusal, n) := Target(hosts, c.args, lower);
    if !refusal.ProbeFailed? then (hosts, refusal)
    else if !c.world.probeOk then (hosts, ProbeFailed)
    else
      var eth := TrimSpace(c.args.eth);
      var reply :=
        if c.kind == Down then DownGate(Probe(hosts[n]), eth, c.args.yes)
        else UpGate(Probe(hosts[n]), eth, c.args.yes);
      if !reply.Done? then (hosts, reply)
      else
        var h := if c.kind == Down then LinkDown(hosts[n], eth, c.world.status)
                 else LinkUp(hosts[n], eth, c.world.status);
        (hosts[n := h], if c.world.runOk then reply else RunFailed)
  }

  class Fleet {
    var hosts: seq<Host>
    const lower: string -> string

    constructor (hosts: seq<Host>, lower: string -> string)
      ensures this.hosts == hosts && this.lower == lower
    {
      this.hosts, this.lower := hosts, lower;
    }

    method NicDown(args: Args, world: World) returns (r: Reply)
      modifies this
      ensures (hosts, r) == Apply(old(hosts), Command(Down, args, world), lower)
    {
      hide DownGate, UpGate, Print, LinkDown, LinkUp, TrimSpace, EthName;
      var (refusal, n) := Target(hosts, args, lower);
      if !refusal.ProbeFailed? { return refusal; }
      if !world.probeOk { return ProbeFailed; }
      var eth := TrimSpace(args.eth);
      r := DecideDown(Probe(hosts[n]), eth, args.yes);
      if !r.Done? { return; }
      hosts := hosts[n := LinkDown(hosts[n], eth, world.status)];
      if !world.runOk { r := RunFailed; }
    }

    method NicUp(args: Args, world: World) returns (r: Reply)
      modifies this
      ensures (hosts, r) == Apply(old(hosts), Command(Up, args, world), lower)
    {
      hide DownGate, UpGate, Print, LinkDown, LinkUp, TrimSpace, EthName;
      var (refusal, n) := Target(hosts, args, lower);
      if !refusal.ProbeFailed? { return refusal; }
      if !world.probeOk { return ProbeFailed; }
      var eth := TrimSpace(args.eth);
      r := DecideUp(Probe(hosts[n]), eth, args.yes);
      if !r.Done? { return; }
      hosts := hosts[n := LinkUp(hosts[n], eth, world.status)];
      if !world.runOk { r := RunFailed; }
    }
  }

  lemma OthersStep(ports: seq<Port>, i: nat, eth: string)
    requires i < |ports|
    ensures Others(ports[i..], eth)
         == (if ports[i].name == eth then [] else [ports[i].name]) + Others(ports[i + 1..], eth)
  {
    assert ports[i..][0] == ports[i] && ports[i..][1..] == ports[i + 1..];
  }

  lemma NoOthers(eth: string)
    ensures Others([], eth) == []
  {
  }

  method OtherNames(slaves: seq<BondSlave>, eth: string, ghost ports: seq<Port>) returns (others: seq<string>)
    requires SlavesShow(slaves, ports)
    ensures others == Others(ports, eth)
  {
    hide Others;
    others := [];
    assert ports[0..] == ports;
    NoOthers(eth);
    for i := 0 to |slaves|
      invariant Others(ports, eth) == others + Others(ports[i..], eth)
    {
      OthersStep(ports, i, eth);
      if slaves[i].name != eth {
        others := others + [slaves[i].name];
      }
    }
    assert ports[|slaves|..] == [];
  }

  lemma NotUpStep(ports: seq<Port>, i: nat)
    requires i < |ports|
    ensures NotUpNames(ports[i..]) ==
      (if Live(ports[i]) then [] else [ports[i].name + "(MII=" + ports[i].mii + ")"]) + NotUpNames(ports[i + 1..])
  {
    hide Live;
    assert ports[i..][0] == ports[i] && ports[i..][1..] == ports[i + 1..];
  }

  lemma NoneNotUp()
    ensures NotUpNames([]) == []
  {
  }

  method DecideDown(probe: string, eth: string, yes: string) returns (r: Reply)
    ensures r == DownGate(probe, eth, yes)
  {
    hide Parsed, BondOf, Live, FoldsToUp, NotUpNames;
    NoneNotUp();
    var bondName, slaves, found := FindBondForSlave(probe, eth);
    if !found { return NotMember; }
    ghost var ports := BondOf(Parsed(probe), eth).value.slaves;
    var notUp: seq<string> := [];
    assert ports[0..] == ports;
    for i := 0 to |slaves|
      invariant SlavesShow(slaves, ports)
      invariant NotUpNames(ports) == notUp + NotUpNames(ports[i..])
    {
      NotUpStep(ports, i);
      LiveByStatus(ports[i]);
      if !FoldsToUp(slaves[i].miiStatus) {
        notUp := notUp + [slaves[i].name + "(MII=" + slaves[i].miiStatus + ")"];
      }
    }
    assert ports[|slaves|..] == [];
    if |notUp| > 0 { return NotAllUp(bondName, notUp); }
    var others := OtherNames(slaves, eth, ports);
    if yes != "true" { return Preview(bondName, others); }
    return Done(bondName, others);
  }

  lemma LiveByStatus(p: Port)
    ensures Live(p) <==> FoldsToUp(p.mii)
  {
  }

  method DecideUp(probe: string, eth: string, yes: string) returns (r: Reply)
    ensures r == UpGate(probe, eth, yes)
  {
    hide Parsed, BondOf;
    var bondName, slaves, found := FindBondForSlave(probe, eth);
    if !found { return NotMember; }
    var others := OtherNames(slaves, eth, BondOf(Parsed(probe), eth).value.slaves);
    if yes != "true" { return Preview(bondName, others); }
    return Done(bondName, others);
  }

  // ---- from physical state to decision ----

  /** Every port is a member of one bond only, and listed there once. */
  predicate OnePlace(bonds: seq<BondFile>) {
    forall i, j, p, q ::
      (&& 0 <= i < |bonds| && 0 <= p < |bonds[i].ports|
       && 0 <= j < |bonds| && 0 <= q < |bonds[j].ports|
       && bonds[i].ports[p].name == bonds[j].ports[q].name)
      ==> i == j && p == q
  }

  predicate Sound(h: Host) {
    Printable(h.bonds) && OnePlace(h.bonds)
  }

  predicate At(bonds: seq<BondFile>, eth: string, i: int, j: int) {
    0 <= i < |bonds| && 0 <= j < |bonds[i].ports| && bonds[i].ports[j].name == eth
  }

  lemma ProbeParses(h: Host)
    requires Sound(h)
    ensures Parsed(Probe(h)) == SeenBonds(h.bonds, PROBE)
  {
    hide Parsed, Print;
    assert ':' !in NOT_CONFIGURED;
    ParseOfPrint(h.bonds, PROBE, NOT_CONFIGURED);
  }

  lemma {:induction false} BondOfSeen(bonds: seq<BondFile>, eth: string)
    ensures BondOf(SeenBonds(bonds, PROBE), eth).None? <==> forall i, j :: !At(bonds, eth, i, j)
    ensures BondOf(SeenBonds(bonds, PROBE), eth).Some? ==>
              exists i, j ::
                && At(bonds, eth, i, j)
                && BondOf(SeenBonds(bonds, PROBE), eth).value == SeenBond(bonds[i], PROBE)
    decreases |bonds|
  {
    if bonds != [] {
      var rest := bonds[1..];
      assert SeenBonds(bonds, PROBE)[1..] == SeenBonds(rest, PROBE);
      MemberSeen(bonds[0], eth);
      assert forall j :: At(bonds, eth, 0, j) <==> 0 <= j < |bonds[0].ports| && bonds[0].ports[j].name == eth;
      BondOfSeen(rest, eth);
      assert forall i, j :: i >= 1 ==> (At(bonds, eth, i, j) <==> At(rest, eth, i - 1, j));
      if BondOf(SeenBonds(rest, PROBE), eth).Some? {
        var i, j :| At(rest, eth, i, j) && BondOf(SeenBonds(rest, PROBE), eth).value == SeenBond(rest[i], PROBE);
        assert At(bonds, eth, i + 1, j) && rest[i] == bonds[i + 1];
      }
    }
  }

  lemma MemberSeen(b: BondFile, eth: string)
    ensures HasMember(SeenBond(b, PROBE), eth) <==> exists j :: 0 <= j < |b.ports| && b.ports[j].name == eth
  {
    var rec := SeenBond(b, PROBE);
    assert forall j :: 0 <= j < |b.ports| ==> rec.slaves[j].name == b.ports[j].name;
    if j :| 0 <= j < |b.ports| && b.ports[j].name == eth {
      assert rec.slaves[j] in rec.slaves;
    }
  }

  lemma {:induction false} NotUpSeen(ports: seq<Port>)
    ensures NotUpNames(SeenPorts(ports, PROBE)) == [] <==> forall j :: 0 <= j < |ports| ==> Live(ports[j])
    decreases |ports|
  {
    if ports != [] {
      assert SeenPorts(ports, PROBE)[1..] == SeenPorts(ports[1..], PROBE);
      NotUpSeen(ports[1..]);
      assert forall j :: 1 <= j < |ports| ==> ports[j] == ports[1..][j - 1];
    }
  }

  /** The decision is right for the physical state behind the text: `nic_down` runs the link
      command exactly when it is confirmed, the port belongs to a bond and every member of
      that bond is live. */
  lemma DownGateIsPhysical(h: Host, eth: string, yes: string)
    requires Sound(h)
    ensures DownGate(Probe(h), eth, yes).Done? <==>
      && yes == "true"
      && exists i, j ::
           && At(h.bonds, eth, i, j)
           && forall k :: 0 <= k < |h.bonds[i].ports| ==> Live(h.bonds[i].ports[k])
    ensures DownGate(Probe(h), eth, yes).NotMember? <==> forall i, j :: !At(h.bonds, eth, i, j)
  {
    hide Parsed, Print, BondOf, NotUpNames, Others;
    ProbeParses(h);
    BondOfSeen(h.bonds, eth);
    if BondOf(SeenBonds(h.bonds, PROBE), eth).Some? {
      var i, j :| At(h.bonds, eth, i, j) && BondOf(SeenBonds(h.bonds, PROBE), eth).value == SeenBond(h.bonds[i], PROBE);
      NotUpSeen(h.bonds[i].ports);
      assert forall i', j' :: At(h.bonds, eth, i', j') ==> i' == i;
    }
  }

  lemma UpGateIsPhysical(h: Host, eth: string, yes: string)
    requires Sound(h)
    ensures UpGate(Probe(h), eth, yes).Done? <==> yes == "true" && exists i, j :: At(h.bonds, eth, i, j)
  {
    hide Parsed, Print, BondOf, Others;
    ProbeParses(h);
    BondOfSeen(h.bonds, eth);
  }

  // ---- what every sequence of commands keeps ----

  predicate AtMostOneDown(ports: seq<Port>) {
    forall p, q :: 0 <= p < q < |ports| ==> Live(ports[p]) || Live(ports[q])
  }

  predicate SafeHost(h: Host) {
    Sound(h) && forall i :: 0 <= i < |h.bonds| ==> AtMostOneDown(h.bonds[i].ports)
  }

  predicate SafeFleet(hosts: seq<Host>) {
    forall n :: 0 <= n < |hosts| ==> SafeHost(hosts[n])
  }

  predicate HasLive(ports: seq<Port>) {
    exists p <- ports :: Live(p)
  }

  lemma SetKeepsText(b: BondFile, eth: string, status: string)
    requires BondFileText(b) && FieldText(status)
    ensures BondFileText(b.(ports := SetPort(b.ports, eth, status)))
  {
    hide FieldText, FileNameText;
    var after := SetPort(b.ports, eth, status);
    forall p | p in after ensures PortText(p) {
      var j :| 0 <= j < |after| && after[j] == p;
      assert PortText(b.ports[j]);
    }
  }

  lemma SetKeepsPlaces(bonds: seq<BondFile>, eth: string, status: string)
    requires OnePlace(bonds) && DistinctNames(bonds)
    ensures OnePlace(SetBonds(bonds, eth, status)) && DistinctNames(SetBonds(bonds, eth, status))
  {
    hide Live;
  }

  lemma SetKeepsSound(h: Host, eth: string, status: string)
    requires Sound(h) && FieldText(status)
    ensures Sound(h.(bonds := SetBonds(h.bonds, eth, status)))
  {
    hide BondFileText, FieldText, OnePlace, DistinctNames, SetPort;
    SetKeepsPlaces(h.bonds, eth, status);
    var bonds := SetBonds(h.bonds, eth, status);
    forall b | b in bonds ensures BondFileText(b) {
      var i :| 0 <= i < |bonds| && bonds[i] == b;
      SetKeepsText(h.bonds[i], eth, status);
    }
  }

  /** A port that no member has is set nowhere. */
  lemma SetNothing(ports: seq<Port>, eth: string, status: string)
    requires forall q :: 0 <= q < |ports| ==> ports[q].name != eth
    ensures SetPort(ports, eth, status) == ports
  {
  }

  /** Taking one of several live links down leaves the others. */
  lemma OneOfManyDown(ports: seq<Port>, j: nat, eth: string, status: string)
    requires j < |ports| && forall q :: 0 <= q < |ports| ==> Live(ports[q]) && (ports[q].name == eth ==> q == j)
    ensures AtMostOneDown(SetPort(ports, eth, status))
  {
    hide Live;
  }

  lemma LinkDownKeepsSafe(h: Host, eth: string, yes: string, status: string)
    requires SafeHost(h) && FieldText(status) && DownGate(Probe(h), eth, yes).Done?
    ensures SafeHost(LinkDown(h, eth, status))
  {
    hide DownGate, Print, Sound, Live, AtMostOneDown, SetPort, FieldText;
    SetKeepsSound(h, eth, status);
    SoundPlaces(h);
    DownGateIsPhysical(h, eth, yes);
    var i, j :| At(h.bonds, eth, i, j) && forall k :: 0 <= k < |h.bonds[i].ports| ==> Live(h.bonds[i].ports[k]);
    var bonds := SetBonds(h.bonds, eth, status);
    forall k | 0 <= k < |bonds| ensures AtMostOneDown(bonds[k].ports) {
      if k == i {
        OneOfManyDown(h.bonds[i].ports, j, eth, status);
      } else {
        SetNothing(h.bonds[k].ports, eth, status);
      }
    }
  }

  lemma SoundPlaces(h: Host)
    requires Sound(h)
    ensures OnePlace(h.bonds)
  {
  }

  lemma LinkUpKeepsSafe(h: Host, eth: string, status: string)
    requires SafeHost(h) && FieldText(status)
    ensures SafeHost(LinkUp(h, eth, status))
  {
    if !LiveSomewhere(h.bonds, eth) {
      SetKeepsSound(h, eth, status);
      var bonds := SetBonds(h.bonds, eth, status);
      forall k | 0 <= k < |bonds| ensures AtMostOneDown(bonds[k].ports) {
        var before := h.bonds[k].ports;
        assert AtMostOneDown(before);
        forall q | 0 <= q < |before| && before[q].name == eth ensures !Live(before[q]) {
          assert h.bonds[k] in h.bonds && before[q] in before;
        }
      }
    }
  }

  lemma CommandKeepsSafe(hosts: seq<Host>, c: Command, lower: string -> string)
    requires SafeFleet(hosts) && FieldText(c.world.status)
    ensures SafeFleet(Apply(hosts, c, lower).0)
  {
    hide DownGate, UpGate, LinkDown, LinkUp, SafeHost, Target, TrimSpace, FieldText, Probe;
    var (refusal, n) := Target(hosts, c.args, lower);
    if refusal.ProbeFailed? && c.world.probeOk {
      var eth := TrimSpace(c.args.eth);
      if c.kind == Down {
        if DownGate(Probe(hosts[n]), eth, c.args.yes).Done? {
          LinkDownKeepsSafe(hosts[n], eth, c.args.yes, c.world.status);
        }
      } else {
        LinkUpKeepsSafe(hosts[n], eth, c.world.status);
      }
    }
  }

  /** The hosts after a sequence of commands, one at a time. */
  function ApplyAll(hosts: seq<Host>, cs: seq<Command>, lower: string -> string): (r: seq<Host>)
    decreases |cs|
  {
    if cs == [] then hosts else ApplyAll(Apply(hosts, cs[0], lower).0, cs[1..], lower)
  }

  lemma {:induction false} SequenceKeepsSafe(hosts: seq<Host>, cs: seq<Command>, lower: string -> string)
    requires SafeFleet(hosts) && forall c <- cs :: FieldText(c.world.status)
    ensures SafeFleet(ApplyAll(hosts, cs, lower))
    decreases |cs|
  {
    hide SafeFleet, Apply, FieldText;
    if cs != [] {
      CommandKeepsSafe(hosts, cs[0], lower);
      SequenceKeepsSafe(Apply(hosts, cs[0], lower).0, cs[1..], lower);
    }
  }

  lemma SafeHasLive(hosts: seq<Host>)
    requires SafeFleet(hosts)
    ensures forall h <- hosts, b <- h.bonds :: |b.ports| >= 2 ==> HasLive(b.ports)
  {
    hide Sound, Live;
    forall h, b | h in hosts && b in h.bonds && |b.ports| >= 2 ensures HasLive(b.ports) {
      var n :| 0 <= n < |hosts| && hosts[n] == h;
      var i :| 0 <= i < |h.bonds| && h.bonds[i] == b;
      assert SafeHost(h) && AtMostOneDown(b.ports);
      assert b.ports[0] in b.ports && b.ports[1] in b.ports;
    }
  }

  /** Main result for commands one after the other: from hosts where no bond has two members down,
      whatever commands are given and however each turns out, every bond with two or more members
      keeps a live link. */
  lemma BondsKeepALiveLink(hosts: seq<Host>, cs: seq<Command>, lower: string -> string)
    requires SafeFleet(hosts) && forall c <- cs :: FieldText(c.world.status)
    ensures forall h <- ApplyAll(hosts, cs, lower), b <- h.bonds :: |b.ports| >= 2 ==> HasLive(b.ports)
  {
    hide ApplyAll, SafeFleet, HasLive;
    SequenceKeepsSafe(hosts, cs, lower);
    SafeHasLive(ApplyAll(hosts, cs, lower));
  }

  /** The documented guarantee, "never take the last live link of a bond offline", holds
      for an accepted `nic_down` exactly when the bond has two or more members. */
  lemma LastLinkIsKeptIff(h: Host, eth: string, status: string, i: int, j: int)
    requires Sound(h) && DownGate(Probe(h), eth, "true").Done? && !FoldsToUp(status)
    requires At(h.bonds, eth, i, j)
    ensures HasLive(LinkDown(h, eth, status).bonds[i].ports) <==> |h.bonds[i].ports| >= 2
  {
    hide DownGate, Print;
    DownGateIsPhysical(h, eth, "true");
    var before := h.bonds[i].ports;
    var after := LinkDown(h, eth, status).bonds[i].ports;
    assert forall i', j' :: At(h.bonds, eth, i', j') ==> i' == i && j' == j;
    assert forall k :: 0 <= k < |before| ==> Live(before[k]);
    assert forall k :: 0 <= k < |before| && k != j ==> before[k].name != eth;
    if |before| >= 2 {
      var k := if j == 0 then 1 else 0;
      assert after[k] == before[k] && after[k] in after;
    } else {
      assert forall p <- after :: p == after[0];
    }
  }

  lemma ExampleText(p: Port, b: BondFile)
    requires p == Port("eth0", "up", "0") && b == BondFile("bond0", "active-backup", "up", [p])
    ensures BondFileText(b)
  {
    assert PortText(p);
  }

  /** A bond with a single member loses its only link. */
  lemma OneMemberBondGoesDark()
    ensures var h := Host("n1", [BondFile("bond0", "active-backup", "up", [Port("eth0", "up", "0")])]);
      && SafeHost(h)
      && DownGate(Probe(h), "eth0", "true").Done?
      && !HasLive(LinkDown(h, "eth0", "down").bonds[0].ports)
  {
    hide DownGate, Print, IsSpace, BondFileText, PortText, LinkDown;
    var p := Port("eth0", "up", "0");
    var b := BondFile("bond0", "active-backup", "up", [p]);
    var h := Host("n1", [b]);
    ExampleText(p, b);
    DownGateIsPhysical(h, "eth0", "true");
    assert At(h.bonds, "eth0", 0, 0);
    assert Live(h.bonds[0].ports[0]);
    LastLinkIsKeptIff(h, "eth0", "down", 0, 0);
  }

  const BOTH_UP := BondFile("bond0", "active-backup", "up", [Port("eth0", "up", "0"), Port("eth1", "up", "0")])

  lemma BothUpIsSound()
    ensures Sound(Host("n1", [BOTH_UP]))
  {
    hide BondFileText, OnePlace;
    BothUpText();
    BothUpPlaces();
  }

  lemma BothUpText()
    ensures BondFileText(BOTH_UP)
  {
    assert PortText(BOTH_UP.ports[0]) && PortText(BOTH_UP.ports[1]);
  }

  lemma BothUpPlaces()
    ensures OnePlace([BOTH_UP])
  {
    assert BOTH_UP.ports[0].name[3] != BOTH_UP.ports[1].name[3];
  }

  /** Two downs that both probe before either link command runs are both accepted, and the bond
      has no live link left: the check is right for the hosts as probed, not as they are later. */
  lemma OverlappingDownsGoDark()
    ensures var h := Host("n1", [BOTH_UP]);
      && SafeHost(h)
      && DownGate(Probe(h), "eth0", "true").Done? && DownGate(Probe(h), "eth1", "true").Done?
      && !HasLive(LinkDown(LinkDown(h, "eth0", "down"), "eth1", "down").bonds[0].ports)
  {
    hide DownGate, Probe, Sound;
    var h := Host("n1", [BOTH_UP]);
    BothUpIsSound();
    assert At(h.bonds, "eth0", 0, 0) && At(h.bonds, "eth1", 0, 1);
    assert forall k :: 0 <= k < |h.bonds[0].ports| ==> Live(h.bonds[0].ports[k]);
    DownGateIsPhysical(h, "eth0", "true");
    DownGateIsPhysical(h, "eth1", "true");
    BothDown(h);
  }

  lemma BothDown(h: Host)
    requires h == Host("n1", [BOTH_UP])
    ensures !HasLive(LinkDown(LinkDown(h, "eth0", "down"), "eth1", "down").bonds[0].ports)
  {
    var after := LinkDown(LinkDown(h, "eth0", "down"), "eth1", "down").bonds[0].ports;
    assert after[0].mii == "down" && after[1].mii == "down";
    assert forall p <- after :: p == after[0] || p == after[1];
  }
}
