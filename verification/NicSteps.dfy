/** `nic_down` and `nic_up` as they really run: every message has its own goroutine and nothing
    holds the hosts still between a command's probe and its link command, so these are two steps
    that other commands can come between. */
module NicSteps {
  import opened Text
  import opened BondText
  import opened NicControl

  // ---- the steps ----

  /** A link command that ran: on which host and port, and when. */
  datatype Hit = Hit(n: nat, eth: string, at: nat)

  /** Where a command is: not begun, past the probe with the link command to come, or over. */
  datatype Phase =
    | Waiting
    | Ready(n: nat, eth: string, reply: Reply, looked: nat)
    | Over(reply: Reply, looked: nat, hit: Option<Hit>)

  datatype State = State(hosts: seq<Host>, phases: seq<Phase>, clock: nat)

  datatype Step = Look(k: nat) | Act(k: nat)

  function Begin(hosts: seq<Host>, cs: seq<Command>): State {
    State(hosts, seq(|cs|, _ => Waiting), 0)
  }

  /** The probe and the decision taken from it. */
  function Looked(hosts: seq<Host>, c: Command, lower: string -> string, now: nat): (p: Phase)
    ensures p.Ready? ==> p.n < |hosts|
  {
    var (refusal, n) := Target(hosts, c.args, lower);
    if !refusal.ProbeFailed? then Over(refusal, now, None)
    else if !c.world.probeOk then Over(ProbeFailed, now, None)
    else
      var eth := TrimSpace(c.args.eth);
      var reply := if c.kind == Down then DownGate(Probe(hosts[n]), eth, c.args.yes)
                   else UpGate(Probe(hosts[n]), eth, c.args.yes);
      if reply.Done? then Ready(n, eth, reply, now) else Over(reply, now, None)
  }

  /** The link command, on the host as it is by then. */
  function Linked(h: Host, c: Command, eth: string): Host {
    if c.kind == Down then LinkDown(h, eth, c.world.status) else LinkUp(h, eth, c.world.status)
  }

  function Next(cs: seq<Command>, lower: string -> string, s: State, step: Step): (r: Option<State>)
    requires |s.phases| == |cs|
    ensures r.Some? ==> |r.value.phases| == |cs| && |r.value.hosts| == |s.hosts|
  {
    match step
    case Look(k) =>
      if k < |cs| && s.phases[k].Waiting? then
        Some(s.(phases := s.phases[k := Looked(s.hosts, cs[k], lower, s.clock)], clock := s.clock + 1))
      else None
    case Act(k) =>
      if k < |cs| && s.phases[k].Ready? && s.phases[k].n < |s.hosts| then
        var p := s.phases[k];
        var reply := if cs[k].world.runOk then p.reply else RunFailed;
        Some(State(s.hosts[p.n := Linked(s.hosts[p.n], cs[k], p.eth)],
                   s.phases[k := Over(reply, p.looked, Some(Hit(p.n, p.eth, s.clock)))],
                   s.clock + 1))
      else None
  }

  /** The state after a whole schedule, None if it asks for a step nobody can take. */
  function Exec(cs: seq<Command>, lower: string -> string, s: State, schedule: seq<Step>): (r: Option<State>)
    requires |s.phases| == |cs|
    ensures r.Some? ==> |r.value.phases| == |cs| && |r.value.hosts| == |s.hosts|
    decreases |schedule|
  {
    if schedule == [] then Some(s)
    else
      match Next(cs, lower, s, schedule[0])
      case None => None
      case Some(t) => Exec(cs, lower, t, schedule[1..])
  }

  /** The steps a command takes when nothing comes between. */
  function Whole(s: State, c: Command, lower: string -> string, k: nat): seq<Step> {
    if Looked(s.hosts, c, lower, s.clock).Ready? then [Look(k), Act(k)] else [Look(k)]
  }

  lemma ExecOne(cs: seq<Command>, lower: string -> string, s: State, a: Step)
    requires |s.phases| == |cs|
    ensures Exec(cs, lower, s, [a]) == Next(cs, lower, s, a)
  {
    hide Next;
    assert [a][1..] == [];
  }

  lemma {:induction false} ExecAppend(cs: seq<Command>, lower: string -> string, s: State, a: seq<Step>, b: seq<Step>)
    requires |s.phases| == |cs| && Exec(cs, lower, s, a).Some?
    ensures Exec(cs, lower, s, a + b) == Exec(cs, lower, Exec(cs, lower, s, a).value, b)
    decreases |a|
  {
    hide Next;
    if a == [] {
      assert a + b == b;
    } else {
      assert (a + b)[0] == a[0] && (a + b)[1..] == a[1..] + b;
      ExecAppend(cs, lower, Next(cs, lower, s, a[0]).value, a[1..], b);
    }
  }

  lemma ExecTwo(cs: seq<Command>, lower: string -> string, s: State, a: Step, b: Step)
    requires |s.phases| == |cs| && Next(cs, lower, s, a).Some?
    ensures Exec(cs, lower, s, [a, b]) == Next(cs, lower, Next(cs, lower, s, a).value, b)
  {
    hide Next, Exec;
    ExecOne(cs, lower, s, a);
    ExecOne(cs, lower, Next(cs, lower, s, a).value, b);
    ExecAppend(cs, lower, s, [a], [b]);
    assert [a] + [b] == [a, b];
  }

  /** What a command's probe leads to is what the one-piece command does. */
  lemma LookedIsApply(hosts: seq<Host>, c: Command, lower: string -> string, now: nat)
    ensures var p := Looked(hosts, c, lower, now);
      !p.Waiting? &&
      Apply(hosts, c, lower) ==
        if p.Ready? then (hosts[p.n := Linked(hosts[p.n], c, p.eth)], if c.world.runOk then p.reply else RunFailed)
        else (hosts, p.reply)
  {
    hide DownGate, UpGate, LinkDown, LinkUp, Target, Probe, TrimSpace;
  }

  /** Then it has the effect and the reply of the one-piece command. */
  lemma OneAtATime(cs: seq<Command>, lower: string -> string, s: State, k: nat)
    requires |s.phases| == |cs| && k < |cs| && s.phases[k].Waiting?
    ensures var r := Exec(cs, lower, s, Whole(s, cs[k], lower, k));
      && r.Some? && r.value.phases[k].Over?
      && (r.value.hosts, r.value.phases[k].reply) == Apply(s.hosts, cs[k], lower)
  {
    hide Looked, Apply, Linked, Exec;
    LookedIsApply(s.hosts, cs[k], lower, s.clock);
    ExecOne(cs, lower, s, Look(k));
    ExecTwo(cs, lower, s, Look(k), Act(k));
  }

  // ---- downs that do not overlap on a bond are safe ----

  /** Two ports of one bond. */
  ghost predicate SameBond(h: Host, a: string, b: string) {
    exists i, p, q :: At(h.bonds, a, i, p) && At(h.bonds, b, i, q)
  }

  predicate ReadyDown(cs: seq<Command>, s: State, k: nat)
    requires |s.phases| == |cs|
  {
    k < |cs| && cs[k].kind == Down && s.phases[k].Ready?
  }

  /** No other accepted down is on its way to a port of the same bond. */
  ghost predicate Clear(cs: seq<Command>, s: State, k: nat)
    requires |s.phases| == |cs|
  {
    ReadyDown(cs, s, k) ==>
      forall m: nat :: m != k && ReadyDown(cs, s, m) && s.phases[m].n == s.phases[k].n < |s.hosts| ==>
        !SameBond(s.hosts[s.phases[k].n], s.phases[k].eth, s.phases[m].eth)
  }

  /** Whenever a link goes down, no other accepted down of that bond is between its probe and its
      link command. Downs of other bonds and hosts, and all ups, may come between. */
  ghost predicate NoOverlap(cs: seq<Command>, lower: string -> string, s: State, schedule: seq<Step>)
    requires |s.phases| == |cs|
    decreases |schedule|
  {
    schedule == [] ||
    (&& (schedule[0].Act? ==> Clear(cs, s, schedule[0].k))
     && (Next(cs, lower, s, schedule[0]).Some? ==>
           NoOverlap(cs, lower, Next(cs, lower, s, schedule[0]).value, schedule[1..])))
  }

  /** The bond of the port is still as its probe showed it. */
  ghost predicate StillLive(h: Host, eth: string) {
    exists i, j :: At(h.bonds, eth, i, j) && AllLive(h.bonds[i].ports)
  }

  ghost predicate Fresh(cs: seq<Command>, s: State)
    requires |s.phases| == |cs|
  {
    forall k: nat :: ReadyDown(cs, s, k) ==>
      s.phases[k].n < |s.hosts| && StillLive(s.hosts[s.phases[k].n], s.phases[k].eth)
  }

  lemma LookKeeps(cs: seq<Command>, lower: string -> string, s: State, k: nat)
    requires |s.phases| == |cs| && SafeFleet(s.hosts) && Fresh(cs, s) && Next(cs, lower, s, Look(k)).Some?
    ensures var t := Next(cs, lower, s, Look(k)).value; SafeFleet(t.hosts) && Fresh(cs, t)
  {
    hide DownGate, UpGate, Target, Probe, TrimSpace, StillLive, Sound, AtMostOneDown;
    var p := Looked(s.hosts, cs[k], lower, s.clock);
    if p.Ready? && cs[k].kind == Down { AcceptedIsLive(s.hosts[p.n], p.eth, cs[k].args.yes); }
  }

  lemma AcceptedIsLive(h: Host, eth: string, yes: string)
    requires SafeHost(h) && DownGate(Probe(h), eth, yes).Done?
    ensures StillLive(h, eth)
  {
    hide DownGate, Probe, Live, Sound, AtMostOneDown;
    DownGateIsPhysical(h, eth, yes);
    var i, j :| At(h.bonds, eth, i, j) && forall k :: 0 <= k < |h.bonds[i].ports| ==> Live(h.bonds[i].ports[k]);
    assert AllLive(h.bonds[i].ports);
  }

  /** A down of another bond leaves a live bond live. */
  lemma DownElsewhere(h: Host, eth: string, status: string, other: string)
    requires Sound(h) && StillLive(h, other) && !SameBond(h, eth, other)
    ensures StillLive(LinkDown(h, eth, status), other)
  {
    hide Live, Sound, SetPort;
    var i, j :| At(h.bonds, other, i, j) && AllLive(h.bonds[i].ports);
    assert forall q :: At(h.bonds, eth, i, q) ==> SameBond(h, eth, other);
    assert forall q :: 0 <= q < |h.bonds[i].ports| && h.bonds[i].ports[q].name == eth ==> At(h.bonds, eth, i, q);
    SetNothing(h.bonds[i].ports, eth, status);
    assert At(LinkDown(h, eth, status).bonds, other, i, j);
  }

  /** An up changes no live port, so it leaves a live bond live. */
  lemma UpKeepsLive(h: Host, eth: string, status: string, other: string)
    requires Sound(h) && StillLive(h, other)
    ensures StillLive(LinkUp(h, eth, status), other)
  {
    hide Live, Sound, SetPort;
    if !LiveSomewhere(h.bonds, eth) {
      var i, j :| At(h.bonds, other, i, j) && AllLive(h.bonds[i].ports);
      forall q | 0 <= q < |h.bonds[i].ports| ensures h.bonds[i].ports[q].name != eth {
        assert h.bonds[i] in h.bonds && h.bonds[i].ports[q] in h.bonds[i].ports;
      }
      SetNothing(h.bonds[i].ports, eth, status);
      assert At(LinkUp(h, eth, status).bonds, other, i, j);
    }
  }

  /** An accepted down of a bond that is still live is safe, whenever it comes. */
  lemma LateDownIsSafe(h: Host, eth: string, status: string)
    requires SafeHost(h) && FieldText(status) && StillLive(h, eth)
    ensures SafeHost(LinkDown(h, eth, status))
  {
    hide DownGate, Probe, Live, Sound, AtMostOneDown, LinkDown;
    var i, j :| At(h.bonds, eth, i, j) && AllLive(h.bonds[i].ports);
    DownGateIsPhysical(h, eth, "true");
    LinkDownKeepsSafe(h, eth, "true", status);
  }

  lemma ActKeeps(cs: seq<Command>, lower: string -> string, s: State, k: nat)
    requires |s.phases| == |cs| && SafeFleet(s.hosts) && Fresh(cs, s) && Next(cs, lower, s, Act(k)).Some?
    requires FieldText(cs[k].world.status) && Clear(cs, s, k)
    ensures var t := Next(cs, lower, s, Act(k)).value; SafeFleet(t.hosts) && Fresh(cs, t)
  {
    hide LinkDown, LinkUp, SafeHost, FieldText, StillLive, SameBond;
    var t := Next(cs, lower, s, Act(k)).value;
    var p, h := s.phases[k], s.hosts[s.phases[k].n];
    assert SafeHost(h) && ReadyDown(cs, s, k) == (cs[k].kind == Down);
    SafeIsSound(h);
    if cs[k].kind == Down {
      LateDownIsSafe(h, p.eth, cs[k].world.status);
    } else {
      LinkUpKeepsSafe(h, p.eth, cs[k].world.status);
    }
    forall m: nat | ReadyDown(cs, t, m)
      ensures t.phases[m].n < |t.hosts| && StillLive(t.hosts[t.phases[m].n], t.phases[m].eth)
    {
      assert m != k && ReadyDown(cs, s, m);
      if t.phases[m].n == p.n {
        if cs[k].kind == Down {
          DownElsewhere(h, p.eth, cs[k].world.status, t.phases[m].eth);
        } else {
          UpKeepsLive(h, p.eth, cs[k].world.status, t.phases[m].eth);
        }
      }
    }
  }

  lemma SafeIsSound(h: Host)
    requires SafeHost(h)
    ensures Sound(h)
  {
  }

  lemma {:induction false} SpansKeepSafe(cs: seq<Command>, lower: string -> string, s: State, schedule: seq<Step>)
    requires |s.phases| == |cs| && SafeFleet(s.hosts) && Fresh(cs, s)
    requires Exec(cs, lower, s, schedule).Some? && NoOverlap(cs, lower, s, schedule)
    requires forall c <- cs :: FieldText(c.world.status)
    ensures SafeFleet(Exec(cs, lower, s, schedule).value.hosts)
    decreases |schedule|
  {
    hide Next, SafeFleet, Fresh, Clear, FieldText;
    if schedule != [] {
      var step := schedule[0];
      if step.Look? { LookKeeps(cs, lower, s, step.k); } else {
        ActBounds(cs, lower, s, step.k);
        assert cs[step.k] in cs;
        ActKeeps(cs, lower, s, step.k);
      }
      SpansKeepSafe(cs, lower, Next(cs, lower, s, step).value, schedule[1..]);
    }
  }

  lemma ActBounds(cs: seq<Command>, lower: string -> string, s: State, k: nat)
    requires |s.phases| == |cs| && Next(cs, lower, s, Act(k)).Some?
    ensures k < |cs|
  {
  }

  /** Main result: from hosts where no bond has two members down, however the steps of any commands
      interleave and however each turns out, as long as the spans from probe to link command of
      accepted downs do not overlap on one bond, no bond has two members down, so every bond with
      two or more members keeps a live link. */
  lemma NoOverlapKeepsALiveLink(hosts: seq<Host>, cs: seq<Command>, lower: string -> string, schedule: seq<Step>)
    requires SafeFleet(hosts) && forall c <- cs :: FieldText(c.world.status)
    requires Exec(cs, lower, Begin(hosts, cs), schedule).Some? && NoOverlap(cs, lower, Begin(hosts, cs), schedule)
    ensures var after := Exec(cs, lower, Begin(hosts, cs), schedule).value.hosts;
      SafeFleet(after) && forall h <- after, b <- h.bonds :: |b.ports| >= 2 ==> HasLive(b.ports)
  {
    hide Exec, NoOverlap, FieldText, Sound, Live;
    SpansKeepSafe(cs, lower, Begin(hosts, cs), schedule);
    SafeHasLive(Exec(cs, lower, Begin(hosts, cs), schedule).value.hosts);
  }
}
