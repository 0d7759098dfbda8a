/** `Runner.runWith` as a step system: one goroutine per node under a semaphore, a mutex
    and a wait group, all appending to one list of findings. Every interleaving of the
    steps below is a possible run. */
module FanOut {
  import opened Text
  import opened Inspect

  // ---- the work ----

  datatype Node = Node(name: string, ip: string)

  /** What is inspected: inspector `j` on node `i` yields findings or an error. */
  datatype Job = Job(cluster: seq<Option<seq<Finding>>>, nodes: seq<Node>, inspectors: nat,
                     inspect: (nat, nat) -> Option<seq<Finding>>, maxNodePar: int)
  {
    /** `max(1, r.maxNodePar)`. */
    function Slots(): (c: nat)
      ensures c >= 1
    {
      if maxNodePar > 1 then maxNodePar else 1
    }
  }

  function Fill(f: Finding, n: Node): Finding {
    var g := if f.node == "" then f.(node := n.name) else f;
    if g.nodeIP == "" then g.(nodeIP := n.ip) else g
  }

  function FillAll(fs: seq<Finding>, n: Node): seq<Finding> {
    seq(|fs|, k requires 0 <= k < |fs| => Fill(fs[k], n))
  }

  /** What inspector `j` adds on node `i`; an error adds nothing. */
  function Gather(job: Job, i: nat, j: nat): seq<Finding>
    requires i < |job.nodes|
  {
    match job.inspect(j, i)
    case None => []
    case Some(fs) => FillAll(fs, job.nodes[i])
  }

  /** The first `j` inspectors' findings on node `i`, in inspector order. */
  function Local(job: Job, i: nat, j: nat): seq<Finding>
    requires i < |job.nodes|
  {
    if j == 0 then [] else Local(job, i, j - 1) + Gather(job, i, j - 1)
  }

  function Block(job: Job, i: nat): seq<Finding>
    requires i < |job.nodes|
  {
    Local(job, i, job.inspectors)
  }

  function ClusterPart(rs: seq<Option<seq<Finding>>>): seq<Finding> {
    if rs == [] then [] else (if rs[0].Some? then rs[0].value else []) + ClusterPart(rs[1..])
  }

  predicate Indices(order: seq<nat>, n: nat) {
    forall k :: 0 <= k < |order| ==> order[k] < n
  }

  /** The nodes' blocks, each whole, in the given node order. */
  function Blocks(job: Job, order: seq<nat>): seq<Finding>
    requires Indices(order, |job.nodes|)
  {
    if order == [] then [] else Blocks(job, order[..|order| - 1]) + Block(job, order[|order| - 1])
  }

  // ---- the steps ----

  datatype Phase =
    | Unborn                                                  // `go` has not run yet
    | Wanting                                                 // at `sem <- struct{}{}`
    | Running(next: nat, local: seq<Finding>)                 // in the inspector loop
    | Locked(local: seq<Finding>)                             // inside mu.Lock()
    | Appending(local: seq<Finding>, snapshot: seq<Finding>)  // rep.Findings read, not yet written
    | Unlocking | Releasing | Counting | Gone

  /** `written` records the order in which goroutines stored their block. */
  datatype State = State(spawned: nat, returned: bool, gs: seq<Phase>, used: int, lock: Option<nat>,
                         wg: int, findings: seq<Finding>, written: seq<nat>)

  function Start(job: Job): State {
    State(0, false, seq(|job.nodes|, _ => Unborn), 0, None, 0, ClusterPart(job.cluster), [])
  }

  datatype Actor = Main | Go(i: nat)

  /** The next step of an actor, or None while it is blocked or finished. */
  function Next(job: Job, s: State, a: Actor): Option<State>
    requires |s.gs| == |job.nodes|
    ensures Next(job, s, a).Some? ==> |Next(job, s, a).value.gs| == |job.nodes|
  {
    match a
    case Main =>
      if s.spawned < |s.gs| then
        Some(s.(spawned := s.spawned + 1, gs := s.gs[s.spawned := Wanting], wg := s.wg + 1))
      else if !s.returned && s.wg == 0 then Some(s.(returned := true))
      else None
    case Go(i) =>
      if i >= |s.gs| then None
      else
        match s.gs[i]
        case Unborn => None
        case Wanting =>
          if s.used < job.Slots() then Some(s.(gs := s.gs[i := Running(0, [])], used := s.used + 1)) else None
        case Running(j, l) =>
          if j < job.inspectors then Some(s.(gs := s.gs[i := Running(j + 1, l + Gather(job, i, j))]))
          else if s.lock == None then Some(s.(gs := s.gs[i := Locked(l)], lock := Some(i)))
          else None
        case Locked(l) => Some(s.(gs := s.gs[i := Appending(l, s.findings)]))
        case Appending(l, snapshot) =>
          Some(s.(gs := s.gs[i := Unlocking], findings := snapshot + l, written := s.written + [i]))
        case Unlocking => Some(s.(gs := s.gs[i := Releasing], lock := None))
        case Releasing => Some(s.(gs := s.gs[i := Counting], used := s.used - 1))
        case Counting => Some(s.(gs := s.gs[i := Gone], wg := s.wg - 1))
        case Gone => None
  }

  /** The state after a whole schedule, None if it asks for a step nobody can take. */
  function Exec(job: Job, s: State, schedule: seq<Actor>): (r: Option<State>)
    requires |s.gs| == |job.nodes|
    ensures r.Some? ==> |r.value.gs| == |job.nodes|
    decreases |schedule|
  {
    if schedule == [] then Some(s)
    else
      match Next(job, s, schedule[0])
      case None => None
      case Some(s') => Exec(job, s', schedule[1..])
  }

  // ---- counting goroutines ----

  function Sum(gs: seq<Phase>, f: Phase -> nat): nat {
    if gs == [] then 0 else f(gs[0]) + Sum(gs[1..], f)
  }

  lemma {:induction false} SumUpdate(gs: seq<Phase>, i: nat, p: Phase, f: Phase -> nat)
    requires i < |gs|
    ensures Sum(gs[i := p], f) == Sum(gs, f) - f(gs[i]) + f(p)
  {
    if i == 0 {
      assert gs[i := p][1..] == gs[1..];
    } else {
      assert gs[i := p][1..] == gs[1..][i - 1 := p];
      SumUpdate(gs[1..], i - 1, p, f);
    }
  }

  lemma {:induction false} SumZero(gs: seq<Phase>, f: Phase -> nat)
    ensures Sum(gs, f) == 0 <==> forall i :: 0 <= i < |gs| ==> f(gs[i]) == 0
  {
    if gs != [] {
      SumZero(gs[1..], f);
      assert forall i :: 1 <= i < |gs| ==> gs[i] == gs[1..][i - 1];
    }
  }

  function Holds(p: Phase): nat {
    if p.Running? || p.Locked? || p.Appending? || p.Unlocking? || p.Releasing? then 1 else 0
  }

  function Waited(p: Phase): nat {
    if p.Unborn? || p.Gone? then 0 else 1
  }

  predicate InLock(p: Phase) {
    p.Locked? || p.Appending? || p.Unlocking?
  }

  predicate HasWritten(p: Phase) {
    p.Unlocking? || p.Releasing? || p.Counting? || p.Gone?
  }

  /** Goroutines holding a semaphore slot. */
  function Holders(s: State): nat {
    Sum(s.gs, Holds)
  }

  // ---- what every reachable state satisfies ----

  predicate LocalOk(job: Job, i: nat, p: Phase, findings: seq<Finding>)
    requires i < |job.nodes|
  {
    match p
    case Running(j, l) => j <= job.inspectors && l == Local(job, i, j)
    case Locked(l) => l == Block(job, i)
    case Appending(l, snapshot) => l == Block(job, i) && snapshot == findings
    case _ => true
  }

  predicate Distinct(order: seq<nat>) {
    forall a, b :: 0 <= a < b < |order| ==> order[a] != order[b]
  }

  /** Goroutines are started in order. */
  predicate Started(job: Job, s: State) {
    && |s.gs| == |job.nodes|
    && s.spawned <= |s.gs|
    && (forall i :: 0 <= i < |s.gs| ==> (s.gs[i].Unborn? <==> i >= s.spawned))
  }

  /** Slots and the wait counter. */
  predicate Counted(job: Job, s: State) {
    && s.used == Holders(s) <= job.Slots()
    && s.wg == Sum(s.gs, Waited)
  }

  /** The lock has one holder. */
  predicate Locking(s: State) {
    && (s.lock.Some? ==> s.lock.value < |s.gs|)
    && (forall i :: 0 <= i < |s.gs| ==> (InLock(s.gs[i]) <==> s.lock == Some(i)))
  }

  /** The findings are the cluster part and whole blocks, one for each goroutine that has stored its own. */
  predicate Storing(job: Job, s: State)
    requires |s.gs| == |job.nodes|
  {
    && (forall i :: 0 <= i < |s.gs| ==> LocalOk(job, i, s.gs[i], s.findings))
    && Distinct(s.written)
    && Indices(s.written, |s.gs|)
    && (forall i :: 0 <= i < |s.gs| ==> (HasWritten(s.gs[i]) <==> i in s.written))
    && s.findings == ClusterPart(job.cluster) + Blocks(job, s.written)
  }

  /** When the call has returned, everybody is done. */
  predicate Ended(s: State) {
    s.returned ==> s.spawned == |s.gs| && forall i :: 0 <= i < |s.gs| ==> s.gs[i].Gone?
  }

  predicate Inv(job: Job, s: State) {
    Started(job, s) && Counted(job, s) && Locking(s) && Storing(job, s) && Ended(s)
  }

  lemma StartInv(job: Job)
    ensures Inv(job, Start(job))
  {
    SumZero(Start(job).gs, Holds);
    SumZero(Start(job).gs, Waited);
  }

  lemma SumsAfter(gs: seq<Phase>, i: nat, p: Phase)
    requires i < |gs|
    ensures Sum(gs[i := p], Holds) == Sum(gs, Holds) - Holds(gs[i]) + Holds(p)
    ensures Sum(gs[i := p], Waited) == Sum(gs, Waited) - Waited(gs[i]) + Waited(p)
  {
    SumUpdate(gs, i, p, Holds);
    SumUpdate(gs, i, p, Waited);
  }

  lemma MainKeepsInv(job: Job, s: State)
    requires Inv(job, s) && Next(job, s, Main).Some?
    ensures Inv(job, Next(job, s, Main).value)
  {
    hide Sum, Local, Blocks, ClusterPart;
    if s.spawned < |s.gs| {
      SumsAfter(s.gs, s.spawned, Wanting);
    } else {
      SumZero(s.gs, Waited);
      forall i | 0 <= i < |s.gs| ensures s.gs[i].Gone? {
        assert Waited(s.gs[i]) == 0;
      }
    }
  }

  lemma BlocksSnoc(job: Job, order: seq<nat>, i: nat)
    requires i < |job.nodes| && Indices(order, |job.nodes|)
    ensures Blocks(job, order + [i]) == Blocks(job, order) + Block(job, i)
  {
    assert (order + [i])[..|order|] == order;
  }

  lemma GoCounts(job: Job, s: State, i: nat)
    requires Started(job, s) && Counted(job, s) && Next(job, s, Go(i)).Some?
    ensures var s' := Next(job, s, Go(i)).value; Started(job, s') && Counted(job, s')
  {
    hide Sum, Gather;
    SumsAfter(s.gs, i, Next(job, s, Go(i)).value.gs[i]);
  }

  lemma GoLocks(job: Job, s: State, i: nat)
    requires |s.gs| == |job.nodes| && Locking(s) && Ended(s) && Next(job, s, Go(i)).Some?
    ensures var s' := Next(job, s, Go(i)).value; Locking(s') && Ended(s')
  {
    hide Gather;
  }

  /** What the goroutine that steps has collected is right afterwards too. */
  lemma OwnLocal(job: Job, s: State, i: nat)
    requires |s.gs| == |job.nodes| && i < |s.gs| && LocalOk(job, i, s.gs[i], s.findings) && Next(job, s, Go(i)).Some?
    ensures var s' := Next(job, s, Go(i)).value; LocalOk(job, i, s'.gs[i], s'.findings)
  {
    hide Gather;
  }

  /** Only the write changes the findings. */
  lemma NothingStored(job: Job, s: State, i: nat)
    requires |s.gs| == |job.nodes| && i < |s.gs| && Next(job, s, Go(i)).Some? && !s.gs[i].Appending?
    ensures var s' := Next(job, s, Go(i)).value;
      && s'.findings == s.findings && s'.written == s.written && s'.gs == s.gs[i := s'.gs[i]]
      && HasWritten(s'.gs[i]) == HasWritten(s.gs[i])
  {
    hide Gather;
  }

  /** The write appends the goroutine's whole block; nobody else is inside the lock. */
  lemma BlockStored(job: Job, s: State, i: nat)
    requires |s.gs| == |job.nodes| && i < |s.gs| && Locking(s) && Storing(job, s) && s.gs[i].Appending?
    ensures var s' := Next(job, s, Go(i)).value; Storing(job, s')
  {
    hide Blocks, ClusterPart, Local;
    var s' := Next(job, s, Go(i)).value;
    assert LocalOk(job, i, s.gs[i], s.findings);
    BlocksSnoc(job, s.written, i);
    assert forall k :: 0 <= k < |s.gs| && k != i ==> !InLock(s.gs[k]);
  }

  lemma GoStores(job: Job, s: State, i: nat)
    requires |s.gs| == |job.nodes| && Locking(s) && Storing(job, s) && Next(job, s, Go(i)).Some?
    ensures var s' := Next(job, s, Go(i)).value; |s'.gs| == |job.nodes| && Storing(job, s')
  {
    if i < |s.gs| {
      hide Next, LocalOk, HasWritten, Distinct, Blocks, ClusterPart;
      OwnLocal(job, s, i);
      if s.gs[i].Appending? { BlockStored(job, s, i); } else { NothingStored(job, s, i); }
    }
  }

  lemma GoKeepsInv(job: Job, s: State, i: nat)
    requires Inv(job, s) && Next(job, s, Go(i)).Some?
    ensures Inv(job, Next(job, s, Go(i)).value)
  {
    hide Next, Counted, Locking, Storing, Ended;
    GoCounts(job, s, i);
    GoLocks(job, s, i);
    GoStores(job, s, i);
  }

  lemma StepKeepsInv(job: Job, s: State, a: Actor)
    requires Inv(job, s) && Next(job, s, a).Some?
    ensures Inv(job, Next(job, s, a).value)
  {
    match a
    case Main => MainKeepsInv(job, s);
    case Go(i) => GoKeepsInv(job, s, i);
  }

  // ---- it always ends ----

  function Weight(m: nat, p: Phase): nat {
    match p
    case Unborn => m + 8
    case Wanting => m + 7
    case Running(j, _) => if j <= m then m - j + 6 else 6
    case Locked(_) => 5
    case Appending(_, _) => 4
    case Unlocking => 3
    case Releasing => 2
    case Counting => 1
    case Gone => 0
  }

  function Weigh(m: nat): Phase -> nat {
    (p: Phase) => Weight(m, p)
  }

  /** Steps still to be taken. */
  function Measure(job: Job, s: State): nat {
    Sum(s.gs, Weigh(job.inspectors)) + if s.returned then 0 else 1
  }

  lemma StepDecreases(job: Job, s: State, a: Actor)
    requires Inv(job, s) && Next(job, s, a).Some?
    ensures Measure(job, Next(job, s, a).value) == Measure(job, s) - 1
  {
    hide Sum, Storing, Counted, Locking, Gather;
    var s' := Next(job, s, a).value;
    match a
    case Main =>
      if s.spawned < |s.gs| { SumUpdate(s.gs, s.spawned, Wanting, Weigh(job.inspectors)); }
    case Go(i) =>
      SumUpdate(s.gs, i, s'.gs[i], Weigh(job.inspectors));
  }

  /** Until the call has returned, somebody can move. */
  lemma NoDeadlock(job: Job, s: State) returns (a: Actor)
    requires Inv(job, s) && !s.returned
    ensures Next(job, s, a).Some?
  {
    hide Sum, Storing, Gather, Local;
    a := Main;
    if s.spawned == |s.gs| {
      SumZero(s.gs, Holds);
      SumZero(s.gs, Waited);
      if i :| 0 <= i < |s.gs| && Holds(s.gs[i]) == 1 && !s.gs[i].Running? {
        a := Go(i);
      } else if i :| 0 <= i < |s.gs| && s.gs[i].Running? {
        assert forall k :: 0 <= k < |s.gs| ==> !InLock(s.gs[k]);
        a := Go(i);
      } else if i :| 0 <= i < |s.gs| && s.gs[i].Counting? {
        a := Go(i);
      } else if i :| 0 <= i < |s.gs| && s.gs[i].Wanting? {
        a := Go(i);
      } else {
        assert forall i :: 0 <= i < |s.gs| ==> Waited(s.gs[i]) == 0;
      }
    }
  }

  /** A goroutine that wants a slot is held up exactly while max(1, maxNodePar) hold one. */
  lemma HeldUpIff(job: Job, s: State, i: nat)
    requires Inv(job, s) && i < |s.gs| && s.gs[i].Wanting?
    ensures Next(job, s, Go(i)).None? <==> Holders(s) >= 1 && Holders(s) >= job.maxNodePar
  {
  }

  /** A state is stuck exactly when `runWith` has returned. */
  lemma StuckIffReturned(job: Job, s: State)
    requires Inv(job, s)
    ensures s.returned <==> forall a :: Next(job, s, a).None?
  {
    if !s.returned {
      var a := NoDeadlock(job, s);
    }
  }

  lemma StepFacts(job: Job, s: State, a: Actor)
    requires Inv(job, s) && Next(job, s, a).Some?
    ensures Inv(job, Next(job, s, a).value)
    ensures Measure(job, Next(job, s, a).value) == Measure(job, s) - 1
  {
    hide Inv, Measure;
    StepKeepsInv(job, s, a);
    StepDecreases(job, s, a);
  }

  lemma {:induction false} ExecKeepsInv(job: Job, s: State, schedule: seq<Actor>)
    requires Inv(job, s) && Exec(job, s, schedule).Some?
    ensures Inv(job, Exec(job, s, schedule).value)
    ensures |schedule| == Measure(job, s) - Measure(job, Exec(job, s, schedule).value)
    decreases |schedule|
  {
    hide Measure, Next;
    if schedule != [] {
      StepFacts(job, s, schedule[0]);
      ExecKeepsInv(job, Next(job, s, schedule[0]).value, schedule[1..]);
    }
  }

  lemma {:induction false} ExecAppend(job: Job, s: State, a: seq<Actor>, b: seq<Actor>)
    requires |s.gs| == |job.nodes| && Exec(job, s, a).Some?
    ensures Exec(job, s, a + b) == Exec(job, Exec(job, s, a).value, b)
    decreases |a|
  {
    hide Next;
    if a == [] {
      assert a + b == b;
    } else {
      assert (a + b)[0] == a[0] && (a + b)[1..] == a[1..] + b;
      ExecAppend(job, Next(job, s, a[0]).value, a[1..], b);
    }
  }

  /** A schedule of one step and then another schedule. */
  lemma ExecStep(job: Job, s: State, a: Actor, rest: seq<Actor>)
    requires |s.gs| == |job.nodes| && Next(job, s, a).Some?
    ensures Exec(job, s, [a] + rest) == Exec(job, Next(job, s, a).value, rest)
  {
    hide Next;
    assert ([a] + rest)[1..] == rest;
  }

  /** From every reachable state some schedule leads to the return. */
  lemma Finish(job: Job, s: State) returns (more: seq<Actor>)
    requires Inv(job, s)
    ensures Exec(job, s, more).Some? && Exec(job, s, more).value.returned
    decreases Measure(job, s)
  {
    hide Measure, Next;
    more := [];
    if !s.returned {
      var a := NoDeadlock(job, s);
      StepFacts(job, s, a);
      var rest := Finish(job, Next(job, s, a).value);
      more := [a] + rest;
      ExecStep(job, s, a, rest);
    }
  }

  /** A schedule that runs to the end. */
  predicate Completes(job: Job, schedule: seq<Actor>) {
    var r := Exec(job, Start(job), schedule);
    r.Some? && r.value.returned
  }

  /** Main result, safety and termination: however the goroutines interleave, never more than
      max(1, maxNodePar) hold a slot, at most one is inside the lock, no schedule is longer
      than the initial measure, and it can be continued until the call returns. */
  lemma EverySchedule(job: Job, schedule: seq<Actor>)
    requires Exec(job, Start(job), schedule).Some?
    ensures var s := Exec(job, Start(job), schedule).value;
      && (Holders(s) <= 1 || Holders(s) <= job.maxNodePar)
      && (forall i, j :: 0 <= i < |s.gs| && 0 <= j < |s.gs| && InLock(s.gs[i]) && InLock(s.gs[j]) ==> i == j)
      && |schedule| <= Measure(job, Start(job))
      && (!s.returned <==> exists a :: Next(job, s, a).Some?)
    ensures exists more :: Completes(job, schedule + more)
  {
    hide Exec, Next, Measure;
    StartInv(job);
    ExecKeepsInv(job, Start(job), schedule);
    var s := Exec(job, Start(job), schedule).value;
    StuckIffReturned(job, s);
    var more := Finish(job, s);
    ExecAppend(job, Start(job), schedule, more);
    assert Completes(job, schedule + more);
  }

  // ---- and ends with the same findings ----

  function UpTo(n: nat): (r: seq<nat>)
    ensures |r| == n && forall k :: 0 <= k < n ==> r[k] == k
  {
    seq(n, k requires 0 <= k < n => k)
  }

  lemma UpToMembers(n: nat)
    ensures Distinct(UpTo(n)) && Indices(UpTo(n), n) && forall x: nat :: x in UpTo(n) <==> x < n
  {
    forall x: nat | x < n ensures x in UpTo(n) { assert UpTo(n)[x] == x; }
  }

  /** What one goroutine after the other would have collected. */
  function Sequential(job: Job): seq<Finding> {
    ClusterPart(job.cluster) + Blocks(job, UpTo(|job.nodes|))
  }

  /** When the call has returned, the findings are the cluster findings followed by each
      node's block, whole and in inspector order, one node after the other. */
  lemma ReturnedFindings(job: Job, schedule: seq<Actor>) returns (order: seq<nat>)
    requires Completes(job, schedule)
    ensures NodeOrder(job, order)
    ensures Collected(job, schedule) == ClusterPart(job.cluster) + Blocks(job, order)
  {
    StartInv(job);
    ExecKeepsInv(job, Start(job), schedule);
    order := Exec(job, Start(job), schedule).value.written;
  }

  /** Every node once. */
  predicate NodeOrder(job: Job, order: seq<nat>) {
    Distinct(order) && Indices(order, |job.nodes|) && forall i :: 0 <= i < |job.nodes| ==> i in order
  }

  /** The findings of the report the call returns. */
  function Collected(job: Job, schedule: seq<Actor>): seq<Finding>
    requires Completes(job, schedule)
  {
    Exec(job, Start(job), schedule).value.findings
  }

  lemma {:induction false} DistinctCount(order: seq<nat>, x: nat)
    requires Distinct(order)
    ensures multiset(order)[x] == if x in order then 1 else 0
  {
    if order != [] {
      var n := |order| - 1;
      assert order == order[..n] + [order[n]];
      DistinctCount(order[..n], x);
      assert x == order[n] ==> x !in order[..n];
    }
  }

  lemma SameElements(a: seq<nat>, b: seq<nat>)
    requires Distinct(a) && Distinct(b)
    requires forall x :: x in a <==> x in b
    ensures multiset(a) == multiset(b)
  {
    var ma: multiset<nat>, mb: multiset<nat> := multiset(a), multiset(b);
    forall x: nat ensures ma[x] == mb[x] {
      DistinctCount(a, x);
      DistinctCount(b, x);
    }
  }

  lemma {:induction false} BlocksRemove(job: Job, order: seq<nat>, k: nat)
    requires k < |order| && Indices(order, |job.nodes|)
    ensures multiset(Blocks(job, order))
         == multiset(Blocks(job, order[..k] + order[k + 1..])) + multiset(Block(job, order[k]))
    decreases |order|
  {
    var n := |order| - 1;
    assert order == order[..n] + [order[n]];
    if k == n {
      assert order[..k] + order[k + 1..] == order[..n];
    } else {
      var short := order[..k] + order[k + 1..];
      assert short[..n - 1] == order[..n][..k] + order[..n][k + 1..] && short[n - 1] == order[n];
      BlocksRemove(job, order[..n], k);
    }
  }

  lemma {:induction false} BlocksPermute(job: Job, a: seq<nat>, b: seq<nat>)
    requires multiset(a) == multiset(b) && Indices(a, |job.nodes|) && Indices(b, |job.nodes|)
    ensures multiset(Blocks(job, a)) == multiset(Blocks(job, b))
    decreases |a|
  {
    hide Blocks, Block;
    if a == [] {
      assert |multiset(b)| == 0;
    } else {
      var n := |a| - 1;
      WithoutOne(a, n);
      assert a[..n] + a[n + 1..] == a[..n];
      assert a[n] in multiset(a);
      var k :| 0 <= k < |b| && b[k] == a[n];
      WithoutOne(b, k);
      BlocksPermute(job, a[..n], b[..k] + b[k + 1..]);
      BlocksRemove(job, a, n);
      BlocksRemove(job, b, k);
    }
  }

  /** Main result: the findings, as a multiset, and the overall level are the same for every
      schedule that runs to the end, namely those of the purely sequential run. */
  lemma ScheduleIndependent(job: Job, schedule: seq<Actor>)
    requires Completes(job, schedule)
    ensures multiset(Collected(job, schedule)) == multiset(Sequential(job))
    ensures Worst(Collected(job, schedule)) == Worst(Sequential(job))
  {
    hide Completes, Collected, Blocks, ClusterPart;
    var order := ReturnedFindings(job, schedule);
    var all := UpTo(|job.nodes|);
    UpToMembers(|job.nodes|);
    SameElements(order, all);
    BlocksPermute(job, order, all);
    WorstOfPermutation(Collected(job, schedule), Sequential(job));
  }

  // ---- every node order happens ----

  /** All goroutines have been started, and all but `i` wait for a slot or are done. */
  predicate Alone(s: State, i: nat) {
    && s.spawned == |s.gs| && !s.returned
    && forall k :: 0 <= k < |s.gs| && k != i ==> s.gs[k].Wanting? || s.gs[k].Gone?
  }

  lemma AloneMoves(job: Job, s: State, i: nat)
    requires Inv(job, s) && Alone(s, i) && i < |s.gs| && !s.gs[i].Gone?
    ensures Next(job, s, Go(i)).Some?
  {
    hide Sum, Blocks, ClusterPart, Gather, Local, Distinct;
    if s.gs[i].Wanting? {
      SumZero(s.gs, Holds);
    } else if s.lock.Some? {
      assert InLock(s.gs[s.lock.value]);
    }
  }

  /** A goroutine that runs alone stores its block, unless it has, and ends. */
  lemma RunAlone(job: Job, s: State, i: nat) returns (schedule: seq<Actor>)
    requires Inv(job, s) && Alone(s, i) && i < |s.gs|
    ensures Exec(job, s, schedule).Some?
    ensures var r := Exec(job, s, schedule).value;
      && Inv(job, r) && Alone(r, i) && r.gs == s.gs[i := Gone]
      && r.written == s.written + if HasWritten(s.gs[i]) then [] else [i]
    decreases Measure(job, s)
  {
    hide Measure, Inv, Gather;
    schedule := [];
    if s.gs[i].Gone? {
      assert s.gs[i := Gone] == s.gs;
    } else {
      AloneMoves(job, s, i);
      StepFacts(job, s, Go(i));
      var next := Next(job, s, Go(i)).value;
      assert next.gs[i := Gone] == s.gs[i := Gone];
      var rest := RunAlone(job, next, i);
      schedule := [Go(i)] + rest;
      ExecStep(job, s, Go(i), rest);
    }
  }

  predicate Waiting(gs: seq<Phase>, order: seq<nat>) {
    forall k :: 0 <= k < |order| ==> order[k] < |gs| && gs[order[k]].Wanting?
  }

  /** The goroutines named are done, the others are as before. */
  predicate Done(gs: seq<Phase>, order: seq<nat>, then_: seq<Phase>) {
    && |then_| == |gs|
    && forall k :: 0 <= k < |gs| ==> then_[k] == if k in order then Gone else gs[k]
  }

  lemma WaitingFirst(gs: seq<Phase>, order: seq<nat>)
    requires order != [] && Waiting(gs, order) && Distinct(order)
    ensures order[0] < |gs| && gs[order[0]].Wanting? && !HasWritten(gs[order[0]])
    ensures Waiting(gs[order[0] := Gone], order[1..]) && Distinct(order[1..])
  {
  }

  /** Waiting goroutines can run to their end one after the other, in any order. */
  lemma {:induction false} RunInOrder(job: Job, s: State, order: seq<nat>) returns (schedule: seq<Actor>)
    requires Inv(job, s) && Alone(s, |s.gs|) && Distinct(order) && Waiting(s.gs, order)
    ensures Exec(job, s, schedule).Some?
    ensures var r := Exec(job, s, schedule).value;
      Inv(job, r) && Alone(r, |r.gs|) && r.written == s.written + order && Done(s.gs, order, r.gs)
    decreases |order|
  {
    assert |s.gs| == |job.nodes|;
    hide *;
    ExecNothing(job, s);
    schedule := [];
    if order == [] {
      assert s.written + order == s.written;
    } else {
      WaitingFirst(s.gs, order);
      var first := RunAlone(job, s, order[0]);
      var t := Exec(job, s, first).value;
      var rest := RunInOrder(job, t, order[1..]);
      schedule := first + rest;
      ExecAppend(job, s, first, rest);
      AppendRest(s.written, order);
    }
  }

  lemma AppendRest(written: seq<nat>, order: seq<nat>)
    requires order != []
    ensures written + [order[0]] + order[1..] == written + order
  {
  }

  lemma ExecNothing(job: Job, s: State)
    requires |s.gs| == |job.nodes|
    ensures Exec(job, s, []) == Some(s)
  {
  }

  /** The main goroutine can start all others first. */
  lemma SpawnAll(job: Job, s: State) returns (schedule: seq<Actor>)
    requires Inv(job, s) && !s.returned && s.written == [] && forall k :: 0 <= k < s.spawned ==> s.gs[k].Wanting?
    ensures Exec(job, s, schedule).Some?
    ensures var r := Exec(job, s, schedule).value;
      Inv(job, r) && Alone(r, |r.gs|) && r.written == [] && forall k :: 0 <= k < |r.gs| ==> r.gs[k].Wanting?
    decreases |s.gs| - s.spawned
  {
    hide Sum, Blocks, ClusterPart, Gather, Local, Distinct;
    schedule := [];
    if s.spawned < |s.gs| {
      StepKeepsInv(job, s, Main);
      var next := Next(job, s, Main).value;
      var rest := SpawnAll(job, next);
      schedule := [Main] + rest;
      ExecStep(job, s, Main, rest);
    }
  }

  lemma ReturnWhenGone(job: Job, s: State)
    requires Inv(job, s) && Alone(s, |s.gs|) && forall k :: 0 <= k < |s.gs| ==> s.gs[k].Gone?
    ensures Next(job, s, Main) == Some(s.(returned := true))
  {
    SumZero(s.gs, Waited);
  }

  /** Main result: whatever the number of slots, every node order is that of some schedule, so
      the possible results of the call are exactly the ones `ReturnedFindings` describes. */
  lemma EveryOrderHappens(job: Job, order: seq<nat>) returns (schedule: seq<Actor>)
    requires NodeOrder(job, order)
    ensures Completes(job, schedule) && Collected(job, schedule) == ClusterPart(job.cluster) + Blocks(job, order)
  {
    hide Exec, Next, Blocks, ClusterPart, Sum, Local;
    StartInv(job);
    var begin := SpawnAll(job, Start(job));
    var s := Exec(job, Start(job), begin).value;
    var work := RunInOrder(job, s, order);
    var t := Exec(job, s, work).value;
    assert forall k :: 0 <= k < |t.gs| ==> k in order;
    ReturnWhenGone(job, t);
    ExecStep(job, t, Main, []);
    ExecNothing(job, t.(returned := true));
    assert [Main] + [] == [Main];
    ExecAppend(job, s, work, [Main]);
    ExecAppend(job, Start(job), begin, work + [Main]);
    schedule := begin + (work + [Main]);
    assert [] + order == order;
  }

  // ---- what the report holds, and where ----

  /** Results of inspectors one after the other: what they found, failures left out. */
  lemma {:induction false} ClusterPartAppend(a: seq<Option<seq<Finding>>>, b: seq<Option<seq<Finding>>>)
    ensures ClusterPart(a + b) == ClusterPart(a) + ClusterPart(b)
  {
    if a == [] {
      assert a + b == b;
    } else {
      assert (a + b)[0] == a[0] && (a + b)[1..] == a[1..] + b;
      ClusterPartAppend(a[1..], b);
    }
  }

  lemma ClusterPartOne(fs: seq<Finding>)
    ensures ClusterPart([Some(fs)]) == fs && ClusterPart([None]) == [] && ClusterPart([]) == []
  {
    var some, none: seq<Option<seq<Finding>>> := [Some(fs)], [None];
    assert some[1..] == [] && none[1..] == [];
  }

  /** How many findings the first `k` results hold. */
  function FoundBefore(rs: seq<Option<seq<Finding>>>, k: nat): nat
    requires k <= |rs|
  {
    if k == 0 then 0 else FoundBefore(rs, k - 1) + if rs[k - 1].Some? then |rs[k - 1].value| else 0
  }

  lemma {:induction false} ClusterPartSize(rs: seq<Option<seq<Finding>>>, k: nat)
    requires k <= |rs|
    ensures |ClusterPart(rs[..k])| == FoundBefore(rs, k)
  {
    hide ClusterPart;
    ClusterPartOne([]);
    if k > 0 {
      ClusterPartSize(rs, k - 1);
      assert rs[..k] == rs[..k - 1] + [rs[k - 1]];
      ClusterPartAppend(rs[..k - 1], [rs[k - 1]]);
      if rs[k - 1].Some? { ClusterPartOne(rs[k - 1].value); }
    }
  }

  /** A finding is behind everything earlier results hold, at its place in its own result. */
  lemma ClusterPartAt(rs: seq<Option<seq<Finding>>>, k: nat, p: nat)
    requires k < |rs| && rs[k].Some? && p < |rs[k].value|
    ensures var at := FoundBefore(rs, k) + p; at < |ClusterPart(rs)| && ClusterPart(rs)[at] == rs[k].value[p]
  {
    hide ClusterPart;
    var front, back := rs[..k], rs[k + 1..];
    assert rs == front + [rs[k]] + back;
    ClusterPartAppend(front, [rs[k]]);
    ClusterPartAppend(front + [rs[k]], back);
    ClusterPartOne(rs[k].value);
    ClusterPartSize(rs, k);
  }

  /** What the inspectors return for node `i`, in inspector order. */
  function NodeResults(job: Job, i: nat): (rs: seq<Option<seq<Finding>>>)
    ensures |rs| == job.inspectors && forall j :: 0 <= j < |rs| ==> rs[j] == job.inspect(j, i)
  {
    seq(job.inspectors, j requires 0 <= j < job.inspectors => job.inspect(j, i))
  }

  /** A node's finding as the report holds it: a blank node name or address is the node's, and
      nothing else differs. */
  predicate FilledFrom(g: Finding, f: Finding, n: Node) {
    && (f.node != "" ==> g.node == f.node) && (f.node == "" ==> g.node == n.name)
    && (f.nodeIP != "" ==> g.nodeIP == f.nodeIP) && (f.nodeIP == "" ==> g.nodeIP == n.ip)
    && g.item == f.item && g.level == f.level && g.summary == f.summary
    && g.metrics == f.metrics && g.detail == f.detail && g.advice == f.advice
  }

  lemma FillAllMeans(fs: seq<Finding>, n: Node)
    ensures |FillAll(fs, n)| == |fs| && forall p :: 0 <= p < |fs| ==> FilledFrom(FillAll(fs, n)[p], fs[p], n)
  {
  }

  lemma FillAllAppend(a: seq<Finding>, b: seq<Finding>, n: Node)
    ensures FillAll(a + b, n) == FillAll(a, n) + FillAll(b, n)
  {
    hide Fill;
  }

  lemma {:induction false} LocalIsFilled(job: Job, i: nat, j: nat)
    requires i < |job.nodes| && j <= job.inspectors
    ensures Local(job, i, j) == FillAll(ClusterPart(NodeResults(job, i)[..j]), job.nodes[i])
  {
    hide ClusterPart, Fill;
    ClusterPartOne([]);
    var rs := NodeResults(job, i);
    if j > 0 {
      LocalIsFilled(job, i, j - 1);
      assert rs[..j] == rs[..j - 1] + [rs[j - 1]];
      ClusterPartAppend(rs[..j - 1], [rs[j - 1]]);
      FillAllAppend(ClusterPart(rs[..j - 1]), ClusterPart([rs[j - 1]]), job.nodes[i]);
      if rs[j - 1].Some? { ClusterPartOne(rs[j - 1].value); }
    }
  }

  lemma BlockIsFilled(job: Job, i: nat)
    requires i < |job.nodes|
    ensures Block(job, i) == FillAll(ClusterPart(NodeResults(job, i)), job.nodes[i])
  {
    hide Local, ClusterPart, FillAll;
    LocalIsFilled(job, i, job.inspectors);
    assert NodeResults(job, i)[..job.inspectors] == NodeResults(job, i);
  }

  /** How many findings the first `q` nodes of an order add. */
  function FoundOnNodes(job: Job, order: seq<nat>, q: nat): nat
    requires q <= |order|
  {
    if q == 0 then 0
    else FoundOnNodes(job, order, q - 1) + FoundBefore(NodeResults(job, order[q - 1]), job.inspectors)
  }

  lemma BlockSize(job: Job, i: nat)
    requires i < |job.nodes|
    ensures |Block(job, i)| == FoundBefore(NodeResults(job, i), job.inspectors)
  {
    hide Block, ClusterPart, FillAll;
    BlockIsFilled(job, i);
    var rs := NodeResults(job, i);
    assert rs[..|rs|] == rs;
    ClusterPartSize(rs, |rs|);
    FillAllMeans(ClusterPart(rs), job.nodes[i]);
  }

  lemma {:induction false} BlocksPrefix(job: Job, order: seq<nat>, q: nat)
    requires q <= |order| && Indices(order, |job.nodes|)
    ensures |Blocks(job, order[..q])| == FoundOnNodes(job, order, q)
    ensures Blocks(job, order[..q]) <= Blocks(job, order)
    decreases |order|, q
  {
    hide Block;
    var n := |order|;
    if q == n {
      assert order[..q] == order;
      if n > 0 {
        BlocksPrefix(job, order, n - 1);
        BlockSize(job, order[n - 1]);
      }
    } else {
      BlocksPrefix(job, order[..n - 1], q);
      assert order[..n - 1][..q] == order[..q];
      FoundOnPrefix(job, order, n - 1, q);
    }
  }

  lemma {:induction false} FoundOnPrefix(job: Job, order: seq<nat>, n: nat, q: nat)
    requires q <= n <= |order|
    ensures FoundOnNodes(job, order[..n], q) == FoundOnNodes(job, order, q)
  {
    if q > 0 { FoundOnPrefix(job, order, n, q - 1); }
  }

  /** A node's finding is behind the blocks before it, at the place of its own result. */
  lemma BlocksAt(job: Job, order: seq<nat>, q: nat, j: nat, p: nat)
    requires Indices(order, |job.nodes|) && q < |order|
    requires NodeFinds(job, order[q], j, p)
    ensures var at := PlaceOnNodes(job, order, q, j, p);
      && at < |Blocks(job, order)|
      && FilledFrom(Blocks(job, order)[at], job.inspect(j, order[q]).value[p], job.nodes[order[q]])
  {
    hide Block, ClusterPart, FillAll, FilledFrom, Blocks;
    var i := order[q];
    var rs := NodeResults(job, i);
    BlocksPrefix(job, order, q);
    BlocksPrefix(job, order, q + 1);
    assert order[..q + 1] == order[..q] + [i];
    BlocksSnoc(job, order[..q], i);
    BlockIsFilled(job, i);
    ClusterPartAt(rs, j, p);
    FillAllMeans(ClusterPart(rs), job.nodes[i]);
  }

  /** Inspector `j` found a `p`-th thing on node `i`. */
  predicate NodeFinds(job: Job, i: nat, j: int, p: int) {
    0 <= j < job.inspectors && job.inspect(j, i).Some? && 0 <= p < |job.inspect(j, i).value|
  }

  function PlaceOnNodes(job: Job, order: seq<nat>, q: nat, j: nat, p: nat): nat
    requires q < |order| && j <= job.inspectors
  {
    FoundOnNodes(job, order, q) + FoundBefore(NodeResults(job, order[q]), j) + p
  }

  predicate ClusterFinds(job: Job, k: int, p: int) {
    0 <= k < |job.cluster| && job.cluster[k].Some? && 0 <= p < |job.cluster[k].value|
  }

  /** Main result: in the report of every completed call each finding of each inspector that did
      not fail has its own place, and there are no other places. First come the cluster
      inspectors' findings as they are, then node after node in some order, each finding filled
      with its own node. A failing inspector takes nothing of another's away. */
  lemma EveryFindingHasItsPlace(job: Job, schedule: seq<Actor>) returns (order: seq<nat>)
    requires Completes(job, schedule)
    ensures NodeOrder(job, order)
    ensures var fs := Collected(job, schedule);
      var c := FoundBefore(job.cluster, |job.cluster|);
      && |fs| == c + FoundOnNodes(job, order, |order|)
      && (forall k, p :: ClusterFinds(job, k, p) ==>
            FoundBefore(job.cluster, k) + p < c && fs[FoundBefore(job.cluster, k) + p] == job.cluster[k].value[p])
      && (forall q, j, p :: 0 <= q < |order| && NodeFinds(job, order[q], j, p) ==>
            && PlaceOnNodes(job, order, q, j, p) < FoundOnNodes(job, order, |order|)
            && FilledFrom(fs[c + PlaceOnNodes(job, order, q, j, p)],
                          job.inspect(j, order[q]).value[p], job.nodes[order[q]]))
  {
    hide Collected, Completes, Blocks, ClusterPart, FoundBefore, FoundOnNodes, PlaceOnNodes, FilledFrom, Next, Exec;
    order := ReturnedFindings(job, schedule);
    assert job.cluster[..|job.cluster|] == job.cluster && order[..|order|] == order;
    ClusterPartSize(job.cluster, |job.cluster|);
    BlocksPrefix(job, order, |order|);
    forall k, p | ClusterFinds(job, k, p)
      ensures FoundBefore(job.cluster, k) + p < |ClusterPart(job.cluster)|
        && ClusterPart(job.cluster)[FoundBefore(job.cluster, k) + p] == job.cluster[k].value[p]
    {
      ClusterPartAt(job.cluster, k, p);
    }
    forall q, j, p | 0 <= q < |order| && NodeFinds(job, order[q], j, p)
      ensures PlaceOnNodes(job, order, q, j, p) < |Blocks(job, order)|
      ensures FilledFrom(Blocks(job, order)[PlaceOnNodes(job, order, q, j, p)],
                         job.inspect(j, order[q]).value[p], job.nodes[order[q]])
    {
      BlocksAt(job, order, q, j, p);
    }
  }
}
