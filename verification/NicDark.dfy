/** When overlapping `nic_down` commands take a bond's last live link, exactly. */
module NicDark {
  import opened Text
  import opened BondText
  import opened NicControl
  import opened NicSteps

  // ---- what every schedule of downs keeps ----

  /** A `nic_down` after which the port shows as not live. */
  predicate PlainDown(c: Command) {
    c.kind == Down && FieldText(c.world.status) && !FoldsToUp(c.world.status)
  }

  /** The command is confirmed, its probe reaches the host, and it names that port. */
  predicate Aimed(hosts: seq<Host>, c: Command, lower: string -> string, n: nat, eth: string) {
    && Target(hosts, c.args, lower) == (ProbeFailed, n) && TrimSpace(c.args.eth) == eth
    && c.world.probeOk && c.args.yes == "true"
  }

  predicate SameNames(a: seq<Host>, b: seq<Host>) {
    |a| == |b| && forall i :: 0 <= i < |a| ==> a[i].name == b[i].name
  }

  lemma {:induction false} MatchingByNames(a: seq<Host>, b: seq<Host>, hint: string, lower: string -> string, from: nat)
    requires SameNames(a, b) && from <= |a|
    ensures Matching(a, hint, lower, from) == Matching(b, hint, lower, from)
    decreases |a| - from
  {
    hide Contains;
    if from < |a| { MatchingByNames(a, b, hint, lower, from + 1); }
  }

  /** Which host a command means depends on the hosts' names only. */
  lemma TargetByNames(a: seq<Host>, b: seq<Host>, args: Args, lower: string -> string)
    requires SameNames(a, b)
    ensures Target(a, args, lower) == Target(b, args, lower)
  {
    hide Matching, TrimSpace, EthName;
    MatchingByNames(a, b, args.node, lower, 0);
    var idx := Matching(a, args.node, lower, 0);
    assert NamesOf(a, idx) == NamesOf(b, idx) by {
      forall k | 0 <= k < |idx| ensures NamesOf(a, idx)[k] == NamesOf(b, idx)[k] { assert idx[k] in idx; }
    }
  }

  /** The members of bond `i` of host `n`, by name. */
  predicate Members(hosts: seq<Host>, n: nat, i: nat, names: seq<string>) {
    && n < |hosts| && i < |hosts[n].bonds| && |hosts[n].bonds[i].ports| == |names|
    && forall j :: 0 <= j < |names| ==> hosts[n].bonds[i].ports[j].name == names[j]
  }

  /** Command `k` ran its link command on that port. */
  predicate HitPort(s: State, k: nat, n: nat, eth: string) {
    && k < |s.phases| && s.phases[k].Over? && s.phases[k].hit.Some?
    && s.phases[k].hit.value.n == n && s.phases[k].hit.value.eth == eth
  }

  /** Command `k` ran its link command on a member of the bond. */
  predicate HitBond(s: State, k: nat, n: nat, names: seq<string>) {
    && k < |s.phases| && s.phases[k].Over? && s.phases[k].hit.Some?
    && s.phases[k].hit.value.n == n && s.phases[k].hit.value.eth in names
  }

  /** Command `k` has been accepted for a member of the bond. */
  predicate Accepted(s: State, k: nat, n: nat, names: seq<string>) {
    || HitBond(s, k, n, names)
    || (k < |s.phases| && s.phases[k].Ready? && s.phases[k].n == n && s.phases[k].eth in names)
  }

  /** The hosts are sound and keep their names and the bond its members. */
  ghost predicate Shape(hosts: seq<Host>, s: State, n: nat, i: nat, names: seq<string>) {
    && SameNames(hosts, s.hosts) && Members(s.hosts, n, i, names)
    && forall h <- s.hosts :: Sound(h)
  }

  ghost predicate Struck(s: State, n: nat, eth: string) {
    exists k: nat :: HitPort(s, k, n, eth)
  }

  /** A member is down exactly if some command ran on it. */
  ghost predicate Marked(s: State, n: nat, i: nat, names: seq<string>)
    requires Members(s.hosts, n, i, names)
  {
    forall j :: 0 <= j < |names| ==> (!Live(s.hosts[n].bonds[i].ports[j]) <==> Struck(s, n, names[j]))
  }

  /** Command `k` had probed before command `m` ran on the bond. */
  predicate LookedFirst(s: State, k: nat, m: nat, n: nat, names: seq<string>) {
    Accepted(s, k, n, names) && HitBond(s, m, n, names) ==> s.phases[k].looked < s.phases[m].hit.value.at
  }

  /** Every command accepted for the bond had probed before any ran on it. */
  ghost predicate Ordered(s: State, n: nat, names: seq<string>) {
    && (forall k: nat :: Accepted(s, k, n, names) ==> s.phases[k].looked < s.clock)
    && (forall m: nat :: HitBond(s, m, n, names) ==> s.phases[m].hit.value.at < s.clock)
    && (forall k: nat, m: nat :: LookedFirst(s, k, m, n, names))
  }

  /** Command `m` ran on the bond before command `k` probed. */
  predicate RanBefore(s: State, m: nat, k: nat, n: nat, names: seq<string>) {
    && HitBond(s, m, n, names) && k < |s.phases| && !s.phases[k].Waiting?
    && s.phases[m].hit.value.at < s.phases[k].looked
  }

  /** A command aimed at a member that was refused. */
  predicate Refused(hosts: seq<Host>, cs: seq<Command>, lower: string -> string, s: State,
                    k: nat, n: nat, names: seq<string>)
  {
    && k < |cs| == |s.phases| && s.phases[k].Over? && s.phases[k].hit.None?
    && TrimSpace(cs[k].args.eth) in names && Aimed(hosts, cs[k], lower, n, TrimSpace(cs[k].args.eth))
  }

  /** It was refused because another had already run on the bond. */
  ghost predicate Explained(hosts: seq<Host>, cs: seq<Command>, lower: string -> string, s: State,
                            n: nat, names: seq<string>)
  {
    forall k: nat :: Refused(hosts, cs, lower, s, k, n, names) ==> exists m: nat :: RanBefore(s, m, k, n, names)
  }

  /** A command runs where it was aimed. */
  predicate OnAim(hosts: seq<Host>, c: Command, lower: string -> string, p: Phase) {
    && (p.Ready? ==> p.n == Target(hosts, c.args, lower).1 && p.eth == TrimSpace(c.args.eth))
    && (p.Over? && p.hit.Some? ==>
          p.hit.value.n == Target(hosts, c.args, lower).1 && p.hit.value.eth == TrimSpace(c.args.eth))
  }

  ghost predicate AllOnAim(hosts: seq<Host>, cs: seq<Command>, lower: string -> string, s: State)
    requires |s.phases| == |cs|
  {
    forall k :: 0 <= k < |cs| ==> OnAim(hosts, cs[k], lower, s.phases[k])
  }

  ghost predicate Track(hosts: seq<Host>, cs: seq<Command>, lower: string -> string, s: State,
                        n: nat, i: nat, names: seq<string>)
  {
    && |s.phases| == |cs|
    && Shape(hosts, s, n, i, names) && Marked(s, n, i, names) && Ordered(s, n, names)
    && Explained(hosts, cs, lower, s, n, names) && AllOnAim(hosts, cs, lower, s)
  }

  /** The gate's decision in terms of one bond that has the port. */
  lemma GateOnBond(h: Host, eth: string, i: nat, j: nat)
    requires Sound(h) && At(h.bonds, eth, i, j)
    ensures DownGate(Probe(h), eth, "true").Done? <==> AllLive(h.bonds[i].ports)
  {
    hide DownGate, Probe, Live;
    DownGateIsPhysical(h, eth, "true");
    SoundPlaces(h);
    assert forall i', j' :: At(h.bonds, eth, i', j') ==> i' == i;
  }

  /** What the probe of a plain down leads to. */
  lemma LookedDown(hosts: seq<Host>, c: Command, lower: string -> string, now: nat)
    requires c.kind == Down
    ensures var p := Looked(hosts, c, lower, now);
      var (refusal, n) := Target(hosts, c.args, lower);
      var eth := TrimSpace(c.args.eth);
      && (p.Ready? ==> p.n == n && p.eth == eth && p.looked == now && refusal == ProbeFailed
                       && DownGate(Probe(hosts[n]), eth, "true").Done?)
      && (p.Over? ==> p.looked == now && p.hit == None)
      && (refusal == ProbeFailed && c.world.probeOk && c.args.yes == "true" && p.Over? ==>
            n < |hosts| && !DownGate(Probe(hosts[n]), eth, "true").Done?)
      && !p.Waiting?
  {
    hide Target, Probe, TrimSpace, Parsed, NotUpNames, Others, BondOf;
  }

  /** A probe runs no link command. */
  lemma LookHitsNothing(cs: seq<Command>, lower: string -> string, s: State, k: nat, m: nat)
    requires |s.phases| == |cs| && Next(cs, lower, s, Look(k)).Some? && cs[k].kind == Down
    ensures var t := Next(cs, lower, s, Look(k)).value;
      && (m < |cs| && m != k ==> t.phases[m] == s.phases[m])
      && (m == k ==> s.phases[m].Waiting? && (t.phases[m].Over? ==> t.phases[m].hit.None?))
  {
    hide Looked;
    LookedDown(s.hosts, cs[k], lower, s.clock);
  }

  lemma LookMarks(cs: seq<Command>, lower: string -> string, s: State, k: nat, n: nat, i: nat, names: seq<string>)
    requires |s.phases| == |cs| && Next(cs, lower, s, Look(k)).Some? && cs[k].kind == Down
    requires Members(s.hosts, n, i, names) && Marked(s, n, i, names)
    ensures var t := Next(cs, lower, s, Look(k)).value;
      && t.hosts == s.hosts && Marked(t, n, i, names)
      && forall m: nat :: HitBond(t, m, n, names) <==> HitBond(s, m, n, names)
  {
    hide Looked, Live, Members;
    var t := Next(cs, lower, s, Look(k)).value;
    forall m: nat ensures HitBond(t, m, n, names) <==> HitBond(s, m, n, names) { LookHitsNothing(cs, lower, s, k, m); }
    forall eth ensures Struck(t, n, eth) <==> Struck(s, n, eth) { LookStrikes(cs, lower, s, k, n, eth); }
    hide Next, Struck, HitBond;
  }

  lemma LookStrikes(cs: seq<Command>, lower: string -> string, s: State, k: nat, n: nat, eth: string)
    requires |s.phases| == |cs| && Next(cs, lower, s, Look(k)).Some? && cs[k].kind == Down
    ensures Struck(Next(cs, lower, s, Look(k)).value, n, eth) <==> Struck(s, n, eth)
  {
    hide Looked;
    var t := Next(cs, lower, s, Look(k)).value;
    forall m: nat ensures HitPort(t, m, n, eth) <==> HitPort(s, m, n, eth) { LookHitsNothing(cs, lower, s, k, m); }
  }

  lemma HitIsDead(s: State, n: nat, i: nat, names: seq<string>, m: nat)
    requires Members(s.hosts, n, i, names) && Marked(s, n, i, names) && HitBond(s, m, n, names)
    ensures !AllLive(s.hosts[n].bonds[i].ports)
  {
    hide Live;
    var j :| 0 <= j < |names| && names[j] == s.phases[m].hit.value.eth;
    assert HitPort(s, m, n, names[j]);
    assert Struck(s, n, names[j]);
  }

  /** Nobody has run on a bond that is all live. */
  lemma LiveIsUnhit(s: State, n: nat, i: nat, names: seq<string>, m: nat)
    requires Members(s.hosts, n, i, names) && Marked(s, n, i, names) && AllLive(s.hosts[n].bonds[i].ports)
    ensures !HitBond(s, m, n, names)
  {
    if HitBond(s, m, n, names) { HitIsDead(s, n, i, names, m); }
  }

  /** Somebody has run on a bond that is not. */
  lemma DeadIsHit(s: State, n: nat, i: nat, names: seq<string>) returns (m: nat)
    requires Members(s.hosts, n, i, names) && Marked(s, n, i, names) && !AllLive(s.hosts[n].bonds[i].ports)
    ensures HitBond(s, m, n, names)
  {
    hide Live;
    var j :| 0 <= j < |names| && !Live(s.hosts[n].bonds[i].ports[j]);
    assert Struck(s, n, names[j]);
    m :| HitPort(s, m, n, names[j]);
  }

  lemma MemberAt(hosts: seq<Host>, n: nat, i: nat, names: seq<string>, eth: string) returns (j: nat)
    requires Members(hosts, n, i, names) && eth in names
    ensures At(hosts[n].bonds, eth, i, j)
  {
    j :| 0 <= j < |names| && names[j] == eth;
  }

  lemma LookTracks(hosts: seq<Host>, cs: seq<Command>, lower: string -> string, s: State, k: nat,
                   n: nat, i: nat, names: seq<string>)
    requires Track(hosts, cs, lower, s, n, i, names) && Next(cs, lower, s, Look(k)).Some? && cs[k].kind == Down
    ensures Track(hosts, cs, lower, Next(cs, lower, s, Look(k)).value, n, i, names)
  {
    hide Looked, Target, Probe, TrimSpace, DownGate, Sound, Live, Marked, Members, AllLive;
    var t := Next(cs, lower, s, Look(k)).value;
    var p := t.phases[k];
    LookMarks(cs, lower, s, k, n, i, names);
    LookedDown(s.hosts, cs[k], lower, s.clock);
    TargetByNames(hosts, s.hosts, cs[k].args, lower);
    var eth := TrimSpace(cs[k].args.eth);
    MembersBound(s.hosts, n, i, names);
    if eth in names && Target(hosts, cs[k].args, lower).1 == n {
      var j := MemberAt(s.hosts, n, i, names, eth);
      assert Sound(s.hosts[n]);
      GateOnBond(s.hosts[n], eth, i, j);
      if p.Ready? {
        forall m: nat ensures !HitBond(t, m, n, names) { LiveIsUnhit(s, n, i, names, m); }
      } else if Refused(hosts, cs, lower, t, k, n, names) {
        var m := DeadIsHit(s, n, i, names);
        assert RanBefore(t, m, k, n, names);
      }
    }
    LookKeepsOrder(s, t, k, n, names);
    LookKeepsExplained(hosts, cs, lower, s, k, n, names);
  }

  lemma MembersBound(hosts: seq<Host>, n: nat, i: nat, names: seq<string>)
    requires Members(hosts, n, i, names)
    ensures n < |hosts| && i < |hosts[n].bonds|
  {
  }

  /** Between the states one command has probed, and nothing else has happened. */
  predicate HasLooked(s: State, t: State, k: nat) {
    && k < |s.phases| == |t.phases| && t.clock == s.clock + 1
    && (forall m :: 0 <= m < |s.phases| && m != k ==> t.phases[m] == s.phases[m])
    && s.phases[k].Waiting? && !t.phases[k].Waiting? && t.phases[k].looked == s.clock
    && (t.phases[k].Over? ==> t.phases[k].hit == None)
  }

  /** A probe that is accepted comes when nobody has run on the bond. */
  lemma LookKeepsOrder(s: State, t: State, k: nat, n: nat, names: seq<string>)
    requires HasLooked(s, t, k) && Ordered(s, n, names)
    requires Accepted(t, k, n, names) ==> forall m: nat :: !HitBond(t, m, n, names)
    ensures Ordered(t, n, names)
  {
    forall a: nat, m: nat ensures LookedFirst(t, a, m, n, names) {
      assert LookedFirst(s, a, m, n, names);
      if a != k { assert Accepted(t, a, n, names) == Accepted(s, a, n, names); }
      assert HitBond(t, m, n, names) ==> m != k && HitBond(s, m, n, names);
    }
  }

  lemma LookKeepsExplained(hosts: seq<Host>, cs: seq<Command>, lower: string -> string, s: State, k: nat,
                           n: nat, names: seq<string>)
    requires |s.phases| == |cs| && Next(cs, lower, s, Look(k)).Some? && Explained(hosts, cs, lower, s, n, names)
    requires var t := Next(cs, lower, s, Look(k)).value;
      Refused(hosts, cs, lower, t, k, n, names) ==> exists m: nat :: RanBefore(t, m, k, n, names)
    ensures Explained(hosts, cs, lower, Next(cs, lower, s, Look(k)).value, n, names)
  {
    hide Looked, Target, TrimSpace;
    var t := Next(cs, lower, s, Look(k)).value;
    forall a: nat | Refused(hosts, cs, lower, t, a, n, names) ensures exists m: nat :: RanBefore(t, m, a, n, names) {
      if a != k {
        assert Refused(hosts, cs, lower, s, a, n, names);
        var m: nat :| RanBefore(s, m, a, n, names);
        assert RanBefore(t, m, a, n, names);
      }
    }
  }

  /** A link command on a port takes exactly that port down. */
  lemma LinkDownMarks(h: Host, eth: string, status: string, i: nat, j: nat)
    requires i < |h.bonds| && j < |h.bonds[i].ports| && !FoldsToUp(status)
    ensures var after := LinkDown(h, eth, status);
      && |after.bonds| == |h.bonds| && |after.bonds[i].ports| == |h.bonds[i].ports| && after.name == h.name
      && after.bonds[i].ports[j].name == h.bonds[i].ports[j].name
      && (Live(after.bonds[i].ports[j]) <==> Live(h.bonds[i].ports[j]) && h.bonds[i].ports[j].name != eth)
  {
  }

  lemma ActShape(hosts: seq<Host>, cs: seq<Command>, lower: string -> string, s: State, k: nat,
                 n: nat, i: nat, names: seq<string>)
    requires |s.phases| == |cs| && Next(cs, lower, s, Act(k)).Some? && PlainDown(cs[k])
    requires Shape(hosts, s, n, i, names) && Marked(s, n, i, names)
    ensures var t := Next(cs, lower, s, Act(k)).value; Shape(hosts, t, n, i, names) && Marked(t, n, i, names)
  {
    hide LinkDown, Sound, Live, FieldText, FoldsToUp;
    var t := Next(cs, lower, s, Act(k)).value;
    var p := s.phases[k];
    assert Sound(s.hosts[p.n]);
    DownIsSound(s.hosts[p.n], p.eth, cs[k].world.status);
    forall j | 0 <= j < |s.hosts[n].bonds[i].ports| && n == p.n
      ensures j < |names| && i < |t.hosts[n].bonds| && |t.hosts[n].bonds[i].ports| == |names|
      ensures t.hosts[n].bonds[i].ports[j].name == names[j]
      ensures Live(t.hosts[n].bonds[i].ports[j]) <==> Live(s.hosts[n].bonds[i].ports[j]) && names[j] != p.eth
    {
      LinkDownMarks(s.hosts[n], p.eth, cs[k].world.status, i, j);
    }
    DownKeepsSizes(s.hosts[p.n], p.eth, cs[k].world.status);
    forall eth ensures Struck(t, n, eth) <==> Struck(s, n, eth) || (p.n == n && p.eth == eth) {
      if m: nat :| HitPort(s, m, n, eth) { assert HitPort(t, m, n, eth); }
      if m: nat :| HitPort(t, m, n, eth) && m != k { assert HitPort(s, m, n, eth); }
      if p.n == n && p.eth == eth { assert HitPort(t, k, n, eth); }
    }
  }

  lemma DownIsSound(h: Host, eth: string, status: string)
    requires Sound(h) && FieldText(status)
    ensures Sound(LinkDown(h, eth, status))
  {
    hide Sound;
    SetKeepsSound(h, eth, status);
  }

  lemma DownKeepsSizes(h: Host, eth: string, status: string)
    ensures var after := LinkDown(h, eth, status);
      && after.name == h.name && |after.bonds| == |h.bonds|
      && forall i :: 0 <= i < |h.bonds| ==> |after.bonds[i].ports| == |h.bonds[i].ports|
  {
  }

  lemma ActOrder(cs: seq<Command>, lower: string -> string, s: State, k: nat, n: nat, names: seq<string>)
    requires |s.phases| == |cs| && Next(cs, lower, s, Act(k)).Some? && Ordered(s, n, names)
    ensures Ordered(Next(cs, lower, s, Act(k)).value, n, names)
  {
    hide Linked;
    var t := Next(cs, lower, s, Act(k)).value;
    assert forall a: nat :: Accepted(t, a, n, names) <==> Accepted(s, a, n, names);
    assert forall m: nat :: m != k ==> (HitBond(t, m, n, names) <==> HitBond(s, m, n, names));
    forall a: nat, m: nat ensures LookedFirst(t, a, m, n, names) {
      assert LookedFirst(s, a, m, n, names);
    }
  }

  lemma ActExplained(hosts: seq<Host>, cs: seq<Command>, lower: string -> string, s: State, k: nat,
                     n: nat, names: seq<string>)
    requires |s.phases| == |cs| && Next(cs, lower, s, Act(k)).Some? && Explained(hosts, cs, lower, s, n, names)
    ensures Explained(hosts, cs, lower, Next(cs, lower, s, Act(k)).value, n, names)
  {
    hide Linked, Target, TrimSpace;
    var t := Next(cs, lower, s, Act(k)).value;
    forall a: nat | Refused(hosts, cs, lower, t, a, n, names) ensures exists m: nat :: RanBefore(t, m, a, n, names) {
      assert a != k && Refused(hosts, cs, lower, s, a, n, names);
      var m: nat :| RanBefore(s, m, a, n, names);
      assert RanBefore(t, m, a, n, names);
    }
  }

  lemma ActTracks(hosts: seq<Host>, cs: seq<Command>, lower: string -> string, s: State, k: nat,
                  n: nat, i: nat, names: seq<string>)
    requires Track(hosts, cs, lower, s, n, i, names) && Next(cs, lower, s, Act(k)).Some? && PlainDown(cs[k])
    ensures Track(hosts, cs, lower, Next(cs, lower, s, Act(k)).value, n, i, names)
  {
    hide Linked, Target, TrimSpace, Shape, Marked, Ordered, Explained, PlainDown;
    ActShape(hosts, cs, lower, s, k, n, i, names);
    ActOrder(cs, lower, s, k, n, names);
    ActExplained(hosts, cs, lower, s, k, n, names);
    var t := Next(cs, lower, s, Act(k)).value;
    assert OnAim(hosts, cs[k], lower, s.phases[k]);
    assert forall m :: 0 <= m < |cs| && m != k ==> t.phases[m] == s.phases[m];
  }

  lemma {:induction false} ExecTracks(hosts: seq<Host>, cs: seq<Command>, lower: string -> string, s: State,
                                      schedule: seq<Step>, n: nat, i: nat, names: seq<string>)
    requires Track(hosts, cs, lower, s, n, i, names) && forall c <- cs :: PlainDown(c)
    requires Exec(cs, lower, s, schedule).Some?
    ensures Track(hosts, cs, lower, Exec(cs, lower, s, schedule).value, n, i, names)
    decreases |schedule|
  {
    assert |s.phases| == |cs|;
    hide Next, Track;
    if schedule != [] {
      var step := schedule[0];
      assert PlainDown(cs[step.k]);
      if step.Look? {
        LookTracks(hosts, cs, lower, s, step.k, n, i, names);
      } else {
        ActTracks(hosts, cs, lower, s, step.k, n, i, names);
      }
      ExecTracks(hosts, cs, lower, Next(cs, lower, s, step).value, schedule[1..], n, i, names);
    }
  }

  /** Command `k` took the port down, and it had probed before any command ran on the bond. */
  ghost predicate EarlyDown(s: State, k: nat, n: nat, names: seq<string>, eth: string) {
    HitPort(s, k, n, eth) && forall m: nat :: HitBond(s, m, n, names) ==> s.phases[k].looked < s.phases[m].hit.value.at
  }

  ghost predicate TakenEarly(s: State, n: nat, names: seq<string>, eth: string) {
    exists k: nat :: EarlyDown(s, k, n, names, eth)
  }

  /** Main result, exactly when the promise fails: whatever downs are given, on any hosts, and however
      their steps interleave, a bond that was all live goes dark if and only if every member was taken
      down by a command that had probed before the first link command on the bond. With one member one
      such command is enough. */
  lemma GoesDarkIff(hosts: seq<Host>, cs: seq<Command>, lower: string -> string, schedule: seq<Step>,
                    n: nat, i: nat, names: seq<string>)
    requires (forall h <- hosts :: Sound(h)) && Members(hosts, n, i, names) && AllLive(hosts[n].bonds[i].ports)
    requires (forall c <- cs :: PlainDown(c)) && Exec(cs, lower, Begin(hosts, cs), schedule).Some?
    ensures var s := Exec(cs, lower, Begin(hosts, cs), schedule).value;
      && Members(s.hosts, n, i, names)
      && (!HasLive(s.hosts[n].bonds[i].ports) <==>
            forall j :: 0 <= j < |names| ==> TakenEarly(s, n, names, names[j]))
  {
    hide Exec, Sound, Live, PlainDown;
    ExecTracks(hosts, cs, lower, Begin(hosts, cs), schedule, n, i, names);
    var s := Exec(cs, lower, Begin(hosts, cs), schedule).value;
    DarkIsAllStruck(s, n, i, names);
    hide Struck, TakenEarly;
    forall j | 0 <= j < |names| ensures Struck(s, n, names[j]) <==> TakenEarly(s, n, names, names[j]) {
      StruckIsEarly(s, n, names, j);
    }
  }

  lemma DarkIsAllStruck(s: State, n: nat, i: nat, names: seq<string>)
    requires Members(s.hosts, n, i, names) && Marked(s, n, i, names)
    ensures !HasLive(s.hosts[n].bonds[i].ports) <==> forall j :: 0 <= j < |names| ==> Struck(s, n, names[j])
  {
    hide Live, Struck;
    var ports := s.hosts[n].bonds[i].ports;
    forall j | 0 <= j < |names| && !Struck(s, n, names[j]) ensures HasLive(ports) { assert ports[j] in ports; }
    if p :| p in ports && Live(p) {
      var j :| 0 <= j < |ports| && ports[j] == p;
      assert !Struck(s, n, names[j]);
    }
  }

  lemma StruckIsEarly(s: State, n: nat, names: seq<string>, j: nat)
    requires Ordered(s, n, names) && j < |names|
    ensures Struck(s, n, names[j]) <==> TakenEarly(s, n, names, names[j])
  {
    if k: nat :| HitPort(s, k, n, names[j]) {
      assert Accepted(s, k, n, names);
      forall m: nat | HitBond(s, m, n, names) ensures s.phases[k].looked < s.phases[m].hit.value.at {
        assert LookedFirst(s, k, m, n, names);
      }
      assert EarlyDown(s, k, n, names, names[j]);
    }
    if k: nat :| EarlyDown(s, k, n, names, names[j]) { assert HitPort(s, k, n, names[j]); }
  }

  /** Two confirmed downs of the two ports of an all-live bond. */
  ghost predicate TwoDowns(hosts: seq<Host>, cs: seq<Command>, lower: string -> string,
                           n: nat, i: nat, a: string, b: string)
  {
    && (forall h <- hosts :: Sound(h)) && Members(hosts, n, i, [a, b]) && AllLive(hosts[n].bonds[i].ports)
    && |cs| == 2 && PlainDown(cs[0]) && PlainDown(cs[1])
    && Aimed(hosts, cs[0], lower, n, a) && Aimed(hosts, cs[1], lower, n, b)
  }

  /** Main result for two: once both commands are over, a live link remains if and only if one of
      them probed after the other's link command. */
  lemma TwoDownsIff(hosts: seq<Host>, cs: seq<Command>, lower: string -> string, schedule: seq<Step>,
                    n: nat, i: nat, a: string, b: string)
    requires TwoDowns(hosts, cs, lower, n, i, a, b)
    ensures var r := Exec(cs, lower, Begin(hosts, cs), schedule);
      r.Some? && r.value.phases[0].Over? && r.value.phases[1].Over? ==>
        && Members(r.value.hosts, n, i, [a, b])
        && (HasLive(r.value.hosts[n].bonds[i].ports) <==>
              RanBefore(r.value, 0, 1, n, [a, b]) || RanBefore(r.value, 1, 0, n, [a, b]))
  {
    hide Exec, Sound, Live, PlainDown, Target, TrimSpace;
    if Exec(cs, lower, Begin(hosts, cs), schedule).Some? {
      var names, s := [a, b], Exec(cs, lower, Begin(hosts, cs), schedule).value;
      ExecTracks(hosts, cs, lower, Begin(hosts, cs), schedule, n, i, names);
      DifferentPorts(hosts, n, i, a, b);
      if s.phases[0].Over? && s.phases[1].Over? { TwoOver(hosts, cs, lower, s, n, i, a, b); }
    }
  }

  lemma DifferentPorts(hosts: seq<Host>, n: nat, i: nat, a: string, b: string)
    requires (forall h <- hosts :: Sound(h)) && Members(hosts, n, i, [a, b])
    ensures a != b
  {
    hide Sound;
    SoundPlaces(hosts[n]);
    var ports := hosts[n].bonds[i].ports;
    assert ports[0].name == [a, b][0] && ports[1].name == [a, b][1];
  }

  /** With two commands, each aimed at its own port, a port is struck by its own command only. */
  lemma OwnStrikes(hosts: seq<Host>, cs: seq<Command>, lower: string -> string, s: State, n: nat, a: string, b: string)
    requires a != b && |cs| == |s.phases| == 2 && AllOnAim(hosts, cs, lower, s)
    requires Aimed(hosts, cs[0], lower, n, a) && Aimed(hosts, cs[1], lower, n, b)
    requires s.phases[0].Over? && s.phases[1].Over?
    ensures Struck(s, n, a) <==> s.phases[0].hit.Some?
    ensures Struck(s, n, b) <==> s.phases[1].hit.Some?
    ensures HitBond(s, 0, n, [a, b]) <==> s.phases[0].hit.Some?
    ensures HitBond(s, 1, n, [a, b]) <==> s.phases[1].hit.Some?
  {
    hide Target, TrimSpace;
    assert OnAim(hosts, cs[0], lower, s.phases[0]) && OnAim(hosts, cs[1], lower, s.phases[1]);
    assert a in [a, b] && b in [a, b];
    if s.phases[0].hit.Some? { assert HitPort(s, 0, n, a); }
    if s.phases[1].hit.Some? { assert HitPort(s, 1, n, b); }
  }

  /** One of two that was refused came after the other. */
  lemma RefusedIsLater(hosts: seq<Host>, cs: seq<Command>, lower: string -> string, s: State,
                       n: nat, names: seq<string>, k: nat)
    requires k < 2 && |cs| == |s.phases| == 2 && Explained(hosts, cs, lower, s, n, names)
    requires Refused(hosts, cs, lower, s, k, n, names)
    ensures RanBefore(s, 1 - k, k, n, names)
  {
    hide Target, TrimSpace;
    var m: nat :| RanBefore(s, m, k, n, names);
  }

  lemma TwoOver(hosts: seq<Host>, cs: seq<Command>, lower: string -> string, s: State,
                n: nat, i: nat, a: string, b: string)
    requires a != b && |cs| == 2 && Track(hosts, cs, lower, s, n, i, [a, b])
    requires Aimed(hosts, cs[0], lower, n, a) && Aimed(hosts, cs[1], lower, n, b)
    requires s.phases[0].Over? && s.phases[1].Over?
    ensures HasLive(s.hosts[n].bonds[i].ports) <==>
      RanBefore(s, 0, 1, n, [a, b]) || RanBefore(s, 1, 0, n, [a, b])
  {
    hide Members, SameNames, Live, Marked, Explained, OnAim, Aimed, Struck, HasLive, HitBond;
    var names := [a, b];
    DarkIsAllStruck(s, n, i, names);
    OwnStrikes(hosts, cs, lower, s, n, a, b);
    assert names[0] == a && names[1] == b;
    assert LookedFirst(s, 0, 1, n, names) && LookedFirst(s, 1, 0, n, names);
    if s.phases[0].hit.None? {
      RefusedOne(hosts, cs, lower, s, 0, n, names, a);
      RefusedIsLater(hosts, cs, lower, s, n, names, 0);
    }
    if s.phases[1].hit.None? {
      RefusedOne(hosts, cs, lower, s, 1, n, names, b);
      RefusedIsLater(hosts, cs, lower, s, n, names, 1);
    }
  }

  lemma RefusedOne(hosts: seq<Host>, cs: seq<Command>, lower: string -> string, s: State, k: nat,
                   n: nat, names: seq<string>, eth: string)
    requires k < |cs| == |s.phases| && s.phases[k].Over? && s.phases[k].hit.None?
    requires eth in names && Aimed(hosts, cs[k], lower, n, eth)
    ensures Refused(hosts, cs, lower, s, k, n, names)
  {
  }

  /** The overlap happens: both commands can probe before either runs, both then run, and the bond
      is dark, although every command was accepted. */
  lemma OverlapGoesDark(hosts: seq<Host>, cs: seq<Command>, lower: string -> string,
                        n: nat, i: nat, a: string, b: string)
    requires TwoDowns(hosts, cs, lower, n, i, a, b)
    ensures var r := Exec(cs, lower, Begin(hosts, cs), [Look(0), Look(1), Act(0), Act(1)]);
      && r.Some? && r.value.phases[0].Over? && r.value.phases[1].Over?
      && Members(r.value.hosts, n, i, [a, b]) && !HasLive(r.value.hosts[n].bonds[i].ports)
  {
    hide Exec, Sound, Live, PlainDown, Target, TrimSpace, Linked, HasLive, Members, AllLive;
    var s0 := Begin(hosts, cs);
    AimedIsReady(hosts, cs[0], lower, 0, n, i, a, b, a);
    AimedIsReady(hosts, cs[1], lower, 1, n, i, a, b, b);
    var s1 := Next(cs, lower, s0, Look(0)).value;
    var s2 := Next(cs, lower, s1, Look(1)).value;
    var s3 := Next(cs, lower, s2, Act(0)).value;
    ExecTwo(cs, lower, s0, Look(0), Look(1));
    ExecTwo(cs, lower, s2, Act(0), Act(1));
    ExecAppend(cs, lower, s0, [Look(0), Look(1)], [Act(0), Act(1)]);
    assert [Look(0), Look(1)] + [Act(0), Act(1)] == [Look(0), Look(1), Act(0), Act(1)];
    TwoDownsIff(hosts, cs, lower, [Look(0), Look(1), Act(0), Act(1)], n, i, a, b);
  }

  lemma AimedIsReady(hosts: seq<Host>, c: Command, lower: string -> string, now: nat,
                     n: nat, i: nat, a: string, b: string, eth: string)
    requires (forall h <- hosts :: Sound(h)) && Members(hosts, n, i, [a, b]) && AllLive(hosts[n].bonds[i].ports)
    requires PlainDown(c) && Aimed(hosts, c, lower, n, eth) && (eth == a || eth == b)
    ensures var p := Looked(hosts, c, lower, now); p.Ready? && p.n == n < |hosts| && p.looked == now
  {
    hide Sound, Live, Target, TrimSpace, Looked, DownGate, Probe;
    assert eth in [a, b] by { assert [a, b][0] == a && [a, b][1] == b; }
    var j := MemberAt(hosts, n, i, [a, b], eth);
    GateOnBond(hosts[n], eth, i, j);
    LookedDown(hosts, c, lower, now);
  }
}
