/** What `nic_down` and `nic_up` answer and on which port of which host they act, said of the
    hosts themselves and not of the text or the functions in between. */
module NicAnswers {
  import opened Text
  import opened BondText
  import opened NicControl

  // ---- which host ----

  /** The host's name contains the hint, upper and lower case alike. */
  ghost predicate Named(hosts: seq<Host>, hint: string, lower: string -> string, n: int) {
    0 <= n < |hosts| && Contains(lower(hosts[n].name), lower(hint))
  }

  ghost predicate OnlyNamed(hosts: seq<Host>, hint: string, lower: string -> string, n: int) {
    Named(hosts, hint, lower, n) && forall m :: Named(hosts, hint, lower, m) ==> m == n
  }

  ghost predicate NoneNamed(hosts: seq<Host>, hint: string, lower: string -> string) {
    forall n :: !Named(hosts, hint, lower, n)
  }

  predicate Ascending(idx: seq<nat>) {
    forall i, j :: 0 <= i < j < |idx| ==> idx[i] < idx[j]
  }

  lemma {:induction false} MatchingIsNamed(hosts: seq<Host>, hint: string, lower: string -> string, from: nat)
    requires from <= |hosts|
    ensures Ascending(Matching(hosts, hint, lower, from))
    ensures forall n: nat :: n in Matching(hosts, hint, lower, from) <==> from <= n && Named(hosts, hint, lower, n)
    decreases |hosts| - from
  {
    hide Named, Ascending;
    if from < |hosts| {
      MatchingIsNamed(hosts, hint, lower, from + 1);
      MatchingStep(hosts, hint, lower, from);
      var rest := Matching(hosts, hint, lower, from + 1);
      assert [] + rest == rest;
      if Named(hosts, hint, lower, from) { AscendingCons(from, rest); }
      forall n: nat ensures n in Matching(hosts, hint, lower, from) <==> from <= n && Named(hosts, hint, lower, n) {
        if n == from { assert n !in rest; } else { assert n !in [from]; }
      }
    } else {
      NothingMatches(hosts, hint, lower);
    }
  }

  lemma MatchingStep(hosts: seq<Host>, hint: string, lower: string -> string, from: nat)
    requires from < |hosts|
    ensures Matching(hosts, hint, lower, from)
         == (if Named(hosts, hint, lower, from) then [from] else []) + Matching(hosts, hint, lower, from + 1)
  {
    hide Contains;
  }

  lemma NothingMatches(hosts: seq<Host>, hint: string, lower: string -> string)
    ensures Matching(hosts, hint, lower, |hosts|) == [] && Ascending([])
    ensures forall n :: Named(hosts, hint, lower, n) ==> n < |hosts|
  {
    hide Contains;
  }

  lemma AscendingCons(n: nat, rest: seq<nat>)
    requires Ascending(rest) && forall m <- rest :: n < m
    ensures Ascending([n] + rest)
  {
    assert forall k :: 0 <= k < |rest| ==> rest[k] in rest;
  }

  /** The names are those of the hosts that match, in the hosts' order. */
  ghost predicate NamesMatches(hosts: seq<Host>, hint: string, lower: string -> string, names: seq<string>) {
    exists idx: seq<nat> ::
      && Ascending(idx) && |idx| == |names| >= 2
      && (forall n: nat :: n in idx <==> Named(hosts, hint, lower, n))
      && forall k :: 0 <= k < |idx| ==> idx[k] < |hosts| && names[k] == hosts[idx[k]].name
  }

  /** What an interface name may hold: letters, digits and four signs. */
  predicate NameSign(c: char) {
    IsDigit(c) || 'a' <= c <= 'z' || 'A' <= c <= 'Z' || c in "_.:-"
  }

  lemma EthNameMeans(s: string)
    ensures EthName(s) <==> s != "" && forall c <- s :: NameSign(c)
  {
  }

  /** Main result: the checks before a host is touched. A command goes on exactly when its node is
      given and names one host and its port is a well-formed name, and then with that host; each
      refusal has its exact reason. */
  lemma TargetIff(hosts: seq<Host>, args: Args, lower: string -> string)
    ensures var (r, n) := Target(hosts, args, lower);
      var given := TrimSpace(args.node) != "";
      var one := given && exists m :: OnlyNamed(hosts, args.node, lower, m);
      var eth := TrimSpace(args.eth);
      && (r.NeedNode? <==> !given)
      && (r.NoSuchNode? <==> given && NoneNamed(hosts, args.node, lower))
      && (r.Ambiguous? <==> given && !one && !NoneNamed(hosts, args.node, lower))
      && (r.Ambiguous? ==> NamesMatches(hosts, args.node, lower, r.names))
      && (r.NeedEth? <==> one && eth == "")
      && (r.BadEth? <==> one && eth != "" && exists c <- eth :: !NameSign(c))
      && (r.ProbeFailed? <==> one && eth != "" && forall c <- eth :: NameSign(c))
      && (r.ProbeFailed? ==> OnlyNamed(hosts, args.node, lower, n))
  {
    hide Matching, TrimSpace, EthName, Named, OnlyNamed, NoneNamed, NamesMatches, NamesOf, NameSign;
    var idx := Matching(hosts, args.node, lower, 0);
    MatchesDecide(hosts, args.node, lower, idx);
    EthNameMeans(TrimSpace(args.eth));
  }

  lemma MatchesDecide(hosts: seq<Host>, hint: string, lower: string -> string, idx: seq<nat>)
    requires idx == Matching(hosts, hint, lower, 0)
    ensures idx == [] <==> NoneNamed(hosts, hint, lower)
    ensures |idx| == 1 <==> exists m :: OnlyNamed(hosts, hint, lower, m)
    ensures |idx| == 1 ==> OnlyNamed(hosts, hint, lower, idx[0])
    ensures |idx| >= 2 ==> NamesMatches(hosts, hint, lower, NamesOf(hosts, idx))
  {
    hide Matching, Contains;
    MatchingIsNamed(hosts, hint, lower, 0);
    assert forall n :: Named(hosts, hint, lower, n) ==> n >= 0 && n in idx;
    if |idx| == 1 { assert idx[0] in idx && OnlyNamed(hosts, hint, lower, idx[0]); }
    if |idx| >= 2 {
      assert idx[0] in idx && idx[1] in idx;
      forall k | 0 <= k < |idx| ensures idx[k] < |hosts| { assert idx[k] in idx; }
      assert forall n: nat :: n in idx <==> Named(hosts, hint, lower, n);
    }
    if |idx| == 0 { assert NoneNamed(hosts, hint, lower); } else { assert idx[0] in idx; }
  }

  // ---- what is decided there ----

  function Names(ports: seq<Port>): (r: seq<string>)
    ensures |r| == |ports| && forall k :: 0 <= k < |ports| ==> r[k] == ports[k].name
  {
    seq(|ports|, k requires 0 <= k < |ports| => ports[k].name)
  }

  ghost predicate Bonded(h: Host, eth: string) {
    exists i, j :: At(h.bonds, eth, i, j)
  }

  /** The reply names the bond, and every other member of it in the bond's order. */
  ghost predicate NamesBond(h: Host, eth: string, bond: string, others: seq<string>) {
    exists i, j ::
      && At(h.bonds, eth, i, j) && bond == h.bonds[i].name
      && others == Names(h.bonds[i].ports[..j]) + Names(h.bonds[i].ports[j + 1..])
  }

  /** The members at those places, and no others, are not live. */
  predicate DeadPlaces(ports: seq<Port>, idx: seq<nat>) {
    && Ascending(idx)
    && (forall k <- idx :: k < |ports| && !Live(ports[k]))
    && (forall k :: 0 <= k < |ports| && !Live(ports[k]) ==> k in idx)
  }

  function Shown(p: Port): string {
    p.name + "(MII=" + p.mii + ")"
  }

  predicate ShowsThem(ports: seq<Port>, idx: seq<nat>, texts: seq<string>) {
    |texts| == |idx| && forall a :: 0 <= a < |idx| ==> idx[a] < |ports| && texts[a] == Shown(ports[idx[a]])
  }

  /** The reply names the bond, and its members that are not live with their status, in the
      bond's order. */
  ghost predicate NamesDead(h: Host, eth: string, bond: string, notUp: seq<string>) {
    exists i, j, idx ::
      && At(h.bonds, eth, i, j) && bond == h.bonds[i].name
      && DeadPlaces(h.bonds[i].ports, idx) && ShowsThem(h.bonds[i].ports, idx, notUp)
  }

  ghost predicate AllMembersLive(h: Host, eth: string) {
    exists i, j :: At(h.bonds, eth, i, j) && AllLive(h.bonds[i].ports)
  }

  lemma {:induction false} OthersAre(ports: seq<Port>, j: nat)
    requires j < |ports|
    requires forall p, q :: 0 <= p < q < |ports| ==> ports[p].name != ports[q].name
    ensures Others(SeenPorts(ports, PROBE), ports[j].name) == Names(ports[..j]) + Names(ports[j + 1..])
    decreases |ports|
  {
    hide Others;
    var eth, rest := ports[j].name, ports[1..];
    OthersSeenStep(ports, eth);
    if j == 0 {
      OthersWithout(rest, eth);
      assert Names(ports[..0]) == [];
    } else {
      OthersAre(rest, j - 1);
      assert ports[..j] == [ports[0]] + rest[..j - 1] && ports[j + 1..] == rest[j..];
      NamesCons(ports[0], rest[..j - 1]);
    }
  }

  lemma NamesCons(p: Port, rest: seq<Port>)
    ensures Names([p] + rest) == [p.name] + Names(rest)
  {
  }

  lemma OthersSeenStep(ports: seq<Port>, eth: string)
    requires ports != []
    ensures Others(SeenPorts(ports, PROBE), eth)
         == (if ports[0].name == eth then [] else [ports[0].name]) + Others(SeenPorts(ports[1..], PROBE), eth)
  {
    assert SeenPorts(ports, PROBE)[1..] == SeenPorts(ports[1..], PROBE);
  }

  lemma {:induction false} OthersWithout(ports: seq<Port>, eth: string)
    requires forall k :: 0 <= k < |ports| ==> ports[k].name != eth
    ensures Others(SeenPorts(ports, PROBE), eth) == Names(ports)
    decreases |ports|
  {
    hide Others;
    if ports == [] {
      NoOthers(eth);
    } else {
      OthersSeenStep(ports, eth);
      OthersWithout(ports[1..], eth);
      assert ports == [ports[0]] + ports[1..];
      NamesCons(ports[0], ports[1..]);
    }
  }

  lemma {:induction false} NotUpPlaces(ports: seq<Port>) returns (idx: seq<nat>)
    ensures DeadPlaces(ports, idx) && ShowsThem(ports, idx, NotUpNames(SeenPorts(ports, PROBE)))
    decreases |ports|
  {
    hide Live, DeadPlaces, ShowsThem, NotUpNames;
    if ports == [] {
      idx := [];
      NoPlaces();
    } else {
      var rest := ports[1..];
      var later := NotUpPlaces(rest);
      idx := (if Live(ports[0]) then [] else [0]) + Shifted(later);
      NotUpSeenStep(ports);
      PlacesCons(ports, later);
      ShowsCons(ports, later, NotUpNames(SeenPorts(rest, PROBE)));
    }
  }

  lemma NoPlaces()
    ensures DeadPlaces([], []) && ShowsThem([], [], NotUpNames(SeenPorts([], PROBE)))
  {
  }

  lemma NotUpSeenStep(ports: seq<Port>)
    requires ports != []
    ensures NotUpNames(SeenPorts(ports, PROBE))
         == (if Live(ports[0]) then [] else [Shown(ports[0])]) + NotUpNames(SeenPorts(ports[1..], PROBE))
  {
    hide Live;
    assert SeenPorts(ports, PROBE)[1..] == SeenPorts(ports[1..], PROBE);
    LiveByStatus(ports[0]);
    LiveByStatus(Seen(ports[0], PROBE));
  }

  lemma ShowsCons(ports: seq<Port>, later: seq<nat>, texts: seq<string>)
    requires ports != [] && ShowsThem(ports[1..], later, texts)
    ensures ShowsThem(ports, (if Live(ports[0]) then [] else [0]) + Shifted(later),
                      (if Live(ports[0]) then [] else [Shown(ports[0])]) + texts)
  {
    hide Live, Shown;
  }

  function Shifted(idx: seq<nat>): (r: seq<nat>)
    ensures |r| == |idx| && forall a :: 0 <= a < |idx| ==> r[a] == idx[a] + 1
  {
    seq(|idx|, a requires 0 <= a < |idx| => idx[a] + 1)
  }

  lemma ShiftedMembers(idx: seq<nat>)
    ensures forall k: nat :: k in Shifted(idx) <==> k > 0 && k - 1 in idx
    ensures Ascending(idx) ==> Ascending(Shifted(idx))
  {
    var r := Shifted(idx);
    forall k: nat ensures k in r <==> k > 0 && k - 1 in idx {
      if k in r {
        var a :| 0 <= a < |r| && r[a] == k;
        assert idx[a] in idx;
      }
      if k > 0 && k - 1 in idx {
        var a :| 0 <= a < |idx| && idx[a] == k - 1;
        assert r[a] in r;
      }
    }
  }

  lemma PlacesCons(ports: seq<Port>, later: seq<nat>)
    requires ports != [] && DeadPlaces(ports[1..], later)
    ensures DeadPlaces(ports, (if Live(ports[0]) then [] else [0]) + Shifted(later))
  {
    hide Live, Shifted, Ascending;
    var shifted, rest := Shifted(later), ports[1..];
    ShiftedMembers(later);
    forall k | k in shifted ensures 0 < k < |ports| && !Live(ports[k]) { assert rest[k - 1] == ports[k]; }
    forall k: nat | 0 < k < |ports| && !Live(ports[k]) ensures k in shifted { assert rest[k - 1] == ports[k]; }
    if Live(ports[0]) {
      assert [] + shifted == shifted;
    } else {
      AscendingCons(0, shifted);
      assert forall k: nat :: k in [0] + shifted <==> k == 0 || k in shifted;
    }
  }

  /** The bond that the probe's text leads to is the one the port is in. */
  lemma BondFound(h: Host, eth: string) returns (i: int, j: int)
    requires Sound(h) && Bonded(h, eth)
    ensures At(h.bonds, eth, i, j) && BondOf(Parsed(Probe(h)), eth) == Some(SeenBond(h.bonds[i], PROBE))
    ensures forall i', j' :: At(h.bonds, eth, i', j') ==> i' == i && j' == j
    ensures forall p, q :: 0 <= p < q < |h.bonds[i].ports| ==> h.bonds[i].ports[p].name != h.bonds[i].ports[q].name
  {
    hide Parsed, Print, BondOf, SeenBond;
    ProbeParses(h);
    BondOfSeen(h.bonds, eth);
    i, j :| At(h.bonds, eth, i, j) && BondOf(SeenBonds(h.bonds, PROBE), eth).value == SeenBond(h.bonds[i], PROBE);
  }

  /** Main result: what `nic_down` answers once it has probed a host, for every host whose ports are
      in one bond each. */
  lemma DownAnswers(h: Host, eth: string, yes: string)
    requires Sound(h)
    ensures var r := DownGate(Probe(h), eth, yes);
      && (r.NotMember? <==> !Bonded(h, eth))
      && (r.NotAllUp? <==> Bonded(h, eth) && !AllMembersLive(h, eth))
      && (r.Preview? <==> AllMembersLive(h, eth) && yes != "true")
      && (r.Done? <==> AllMembersLive(h, eth) && yes == "true")
      && (r.NotAllUp? ==> NamesDead(h, eth, r.bond, r.notUp))
      && (r.Preview? || r.Done? ==> NamesBond(h, eth, r.bond, r.others))
  {
    hide Parsed, Probe, BondOf, NotUpNames, Others, Live, Sound, DeadPlaces, ShowsThem;
    NotBonded(h, eth);
    if Bonded(h, eth) {
      var i, j := BondFound(h, eth);
      var ports := h.bonds[i].ports;
      NotUpSeen(ports);
      OthersAre(ports, j);
      var idx := NotUpPlaces(ports);
    }
  }

  lemma NotBonded(h: Host, eth: string)
    requires Sound(h)
    ensures BondOf(Parsed(Probe(h)), eth).None? <==> !Bonded(h, eth)
  {
    hide Parsed, Print, BondOf;
    ProbeParses(h);
    BondOfSeen(h.bonds, eth);
  }

  /** And what `nic_up` answers: it does not ask whether the other members are live. */
  lemma UpAnswers(h: Host, eth: string, yes: string)
    requires Sound(h)
    ensures var r := UpGate(Probe(h), eth, yes);
      && (r.NotMember? <==> !Bonded(h, eth))
      && (r.Preview? <==> Bonded(h, eth) && yes != "true")
      && (r.Done? <==> Bonded(h, eth) && yes == "true")
      && (r.Preview? || r.Done? ==> NamesBond(h, eth, r.bond, r.others))
  {
    hide Parsed, Probe, BondOf, Others, Sound;
    NotBonded(h, eth);
    if Bonded(h, eth) {
      var i, j := BondFound(h, eth);
      OthersAre(h.bonds[i].ports, j);
    }
  }

  // ---- what it does ----

  /** The hosts with one port's status changed. */
  function WithStatus(hosts: seq<Host>, n: nat, i: nat, j: nat, status: string): seq<Host>
    requires n < |hosts| && i < |hosts[n].bonds| && j < |hosts[n].bonds[i].ports|
  {
    var h := hosts[n];
    var b := h.bonds[i];
    hosts[n := h.(bonds := h.bonds[i := b.(ports := b.ports[j := b.ports[j].(mii := status)])])]
  }

  lemma OnePortSet(h: Host, i: nat, j: nat, eth: string, status: string)
    requires OnePlace(h.bonds) && At(h.bonds, eth, i, j)
    ensures var b := h.bonds[i];
      SetBonds(h.bonds, eth, status) == h.bonds[i := b.(ports := b.ports[j := b.ports[j].(mii := status)])]
  {
    var after := SetBonds(h.bonds, eth, status);
    forall k | 0 <= k < |h.bonds| && k != i ensures after[k] == h.bonds[k] {
      assert forall q :: 0 <= q < |h.bonds[k].ports| ==> h.bonds[k].ports[q].name != eth;
      SetNothing(h.bonds[k].ports, eth, status);
    }
    assert forall q :: 0 <= q < |h.bonds[i].ports| && q != j ==> h.bonds[i].ports[q].name != eth;
    assert SetPort(h.bonds[i].ports, eth, status) == h.bonds[i].ports[j := h.bonds[i].ports[j].(mii := status)];
  }

  /** The node is given, one host has that name in its own, and the port's name is well formed. */
  ghost predicate Reaches(hosts: seq<Host>, c: Command, lower: string -> string, n: int) {
    && TrimSpace(c.args.node) != "" && OnlyNamed(hosts, c.args.node, lower, n)
    && TrimSpace(c.args.eth) != "" && forall s <- TrimSpace(c.args.eth) :: NameSign(s)
  }

  /** The command gets to its link command, on port `j` of bond `i` of host `n`. */
  ghost predicate Runs(hosts: seq<Host>, c: Command, lower: string -> string, n: int, i: int, j: int) {
    && Reaches(hosts, c, lower, n) && c.world.probeOk && c.args.yes == "true"
    && At(hosts[n].bonds, TrimSpace(c.args.eth), i, j)
    && (c.kind == Down ==> AllLive(hosts[n].bonds[i].ports))
  }

  ghost predicate RunsSomewhere(hosts: seq<Host>, c: Command, lower: string -> string) {
    exists n, i, j :: Runs(hosts, c, lower, n, i, j)
  }

  /** After the link command: that port shows the new status, except that bringing up a live port
      changes nothing. Nothing else changes on any host. */
  ghost predicate OnlyThatPort(hosts: seq<Host>, after: seq<Host>, kind: Kind, status: string, n: int, i: int, j: int) {
    && 0 <= n < |hosts| && 0 <= i < |hosts[n].bonds| && 0 <= j < |hosts[n].bonds[i].ports|
    && after == if kind == Up && Live(hosts[n].bonds[i].ports[j]) then hosts else WithStatus(hosts, n, i, j, status)
  }

  lemma ReachedHost(hosts: seq<Host>, c: Command, lower: string -> string)
    ensures var (r, n) := Target(hosts, c.args, lower);
      && !r.Done? && !r.RunFailed?
      && (r.ProbeFailed? ==> Reaches(hosts, c, lower, n))
      && forall m :: Reaches(hosts, c, lower, m) ==> r.ProbeFailed? && m == n
  {
    hide Named, NameSign, Target, TrimSpace;
    TargetIff(hosts, c.args, lower);
  }

  lemma LinkSet(h: Host, kind: Kind, i: nat, j: nat, eth: string, status: string)
    requires OnePlace(h.bonds) && At(h.bonds, eth, i, j)
    ensures (if kind == Down then LinkDown(h, eth, status) else LinkUp(h, eth, status)) ==
      if kind == Up && Live(h.bonds[i].ports[j]) then h
      else h.(bonds := h.bonds[i := h.bonds[i].(ports := h.bonds[i].ports[j := h.bonds[i].ports[j].(mii := status)])])
  {
    hide Live, SetBonds, SetPort;
    OnePortSet(h, i, j, eth, status);
    LiveThere(h.bonds, i, j, eth);
  }

  lemma LiveThere(bonds: seq<BondFile>, i: nat, j: nat, eth: string)
    requires OnePlace(bonds) && At(bonds, eth, i, j)
    ensures LiveSomewhere(bonds, eth) <==> Live(bonds[i].ports[j])
  {
    hide Live;
    assert bonds[i] in bonds && bonds[i].ports[j] in bonds[i].ports;
    if LiveSomewhere(bonds, eth) {
      var b :| b in bonds && exists p <- b.ports :: p.name == eth && Live(p);
      var p :| p in b.ports && p.name == eth && Live(p);
      var k :| 0 <= k < |bonds| && bonds[k] == b;
      var q :| 0 <= q < |b.ports| && b.ports[q] == p;
    }
  }

  lemma GateRuns(hosts: seq<Host>, c: Command, lower: string -> string, n: nat)
    requires Reaches(hosts, c, lower, n) && c.world.probeOk && n < |hosts| && Sound(hosts[n])
    ensures var probe, eth, yes := Probe(hosts[n]), TrimSpace(c.args.eth), c.args.yes;
      var r := if c.kind == Down then DownGate(probe, eth, yes) else UpGate(probe, eth, yes);
      !r.RunFailed? && !r.ProbeFailed? && (r.Done? <==> RunsSomewhere(hosts, c, lower))
  {
    hide TrimSpace, NameSign, Sound, Live, DownGate, UpGate, Probe, Named;
    var h, eth, yes := hosts[n], TrimSpace(c.args.eth), c.args.yes;
    DownAnswers(h, eth, yes);
    UpAnswers(h, eth, yes);
    assert forall m :: Reaches(hosts, c, lower, m) ==> m == n;
    if i, j :| Runs(hosts, c, lower, n, i, j) { assert At(h.bonds, eth, i, j); }
    if yes == "true" && Bonded(h, eth) && (c.kind == Down ==> AllMembersLive(h, eth)) {
      var i, j :| At(h.bonds, eth, i, j) && (c.kind == Down ==> AllLive(h.bonds[i].ports));
      assert Runs(hosts, c, lower, n, i, j);
    }
  }

  /** Main result: a command runs its link command exactly when it is confirmed, its node names one
      host that answers, its port is a member of a bond there and, to take it down, every member of
      that bond is live. Then it changes at most the status of that one port; otherwise nothing. */
  lemma CommandIff(hosts: seq<Host>, c: Command, lower: string -> string)
    requires forall h <- hosts :: Sound(h)
    ensures var (after, r) := Apply(hosts, c, lower);
      && (r.Done? <==> RunsSomewhere(hosts, c, lower) && c.world.runOk)
      && (r.RunFailed? <==> RunsSomewhere(hosts, c, lower) && !c.world.runOk)
      && (r.ProbeFailed? <==> !c.world.probeOk && exists n :: Reaches(hosts, c, lower, n))
      && (!RunsSomewhere(hosts, c, lower) ==> after == hosts)
      && (forall n, i, j :: Runs(hosts, c, lower, n, i, j) ==>
            OnlyThatPort(hosts, after, c.kind, c.world.status, n, i, j))
  {
    hide Target, TrimSpace, NameSign, OnlyNamed, Sound, Live, DownGate, UpGate, LinkDown, LinkUp, Probe, OnePlace,
      Reaches, AllLive;
    ReachedHost(hosts, c, lower);
    var (refusal, n) := Target(hosts, c.args, lower);
    if refusal.ProbeFailed? && c.world.probeOk {
      var h, eth := hosts[n], TrimSpace(c.args.eth);
      SoundPlaces(h);
      GateRuns(hosts, c, lower, n);
      forall i, j | Runs(hosts, c, lower, n, i, j)
        ensures OnlyThatPort(hosts, Apply(hosts, c, lower).0, c.kind, c.world.status, n, i, j)
      {
        LinkSet(h, c.kind, i, j, eth, c.world.status);
      }
    }
  }
}
