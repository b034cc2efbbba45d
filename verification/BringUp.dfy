/** Bringing up the nodes of a cluster (`wait_for_init_wrap`): setup workers run in
    parallel and post one result each; a coordinator collects them all, then starts the
    nodes (in parallel or one by one), collects again, and runs the wrapped method.

    The protocol is a transition system: any enabled worker or coordinator step may come
    next. A node is its position in the node list. */
module BringUp {

  /** `timeout` is in minutes, 0 when absent. `scylla` nodes get the up-and-normal check. */
  datatype Config = Config(n: nat, parallel: bool, scylla: bool, timeout: nat)

  datatype Status = Idle | Running | Reported(ok: bool)

  datatype Report = Report(id: nat, ok: bool)

  /** One fork/collect phase. `consumed` is what a raised failure took off the queue: the
      failure itself, then whatever its drain found. */
  datatype Phase = Phase(status: seq<Status>, queue: seq<Report>, results: seq<nat>, consumed: seq<Report>)

  datatype Control =
    | Launching(k: nat)
    | CollectingSetup
    | Starting(k: nat)
    | InStartup(k: nat)
    | CollectingStartup
    | CheckingUp
    | Finished
    | Aborted
    | Draining(startup: bool, node: nat)
    | Failed(startup: bool, node: nat)
    | TimedOut(startup: bool)

  datatype State = State(control: Control, setup: Phase, startup: Phase)

  datatype Step =
    | Launch
    | SetupReports(id: nat, ok: bool)
    | Collect(elapsed: real)
    | Poll(elapsed: real)
    | Advance
    | Start
    | StartupReports(id: nat, ok: bool)
    | UpCheck(up: bool)
    | Drain

  // ----- One phase

  function Begin(p: Phase, i: nat): Phase
    requires i < |p.status|
  {
    p.(status := p.status[i := Running])
  }

  function Post(p: Phase, i: nat, ok: bool): Phase
    requires i < |p.status|
  {
    p.(status := p.status[i := Reported(ok)], queue := p.queue + [Report(i, ok)])
  }

  function Receive(p: Phase): Phase
    requires p.queue != []
  {
    p.(queue := p.queue[1..], results := p.results + [p.queue[0].id])
  }

  function Consume(p: Phase): Phase
    requires p.queue != []
  {
    p.(queue := p.queue[1..], consumed := p.consumed + [p.queue[0]])
  }

  // ----- The transition system

  function Fresh(n: nat): Phase {
    Phase(seq(n, _ => Idle), [], [], [])
  }

  function Init(c: Config): State {
    State(Launching(0), Fresh(c.n), Fresh(c.n))
  }

  predicate InStartupPhase(control: Control) {
    match control
    case Launching(_) => false
    case CollectingSetup => false
    case Draining(startup, _) => startup
    case Failed(startup, _) => startup
    case TimedOut(startup) => startup
    case _ => true
  }

  predicate Collecting(control: Control) {
    control.CollectingSetup? || control.CollectingStartup?
  }

  /** The phase whose queue the coordinator reads. */
  function Current(s: State): Phase {
    if InStartupPhase(s.control) then s.startup else s.setup
  }

  function WithCurrent(s: State, p: Phase): State {
    if InStartupPhase(s.control) then s.(startup := p) else s.(setup := p)
  }

  predicate Expired(c: Config, elapsed: real) {
    c.timeout != 0 && elapsed > 60.0 * c.timeout as real
  }

  predicate Enabled(c: Config, s: State, step: Step) {
    match step
    case Launch => s.control.Launching? && s.control.k < |s.setup.status|
    case SetupReports(i, _) => i < |s.setup.status| && s.setup.status[i].Running?
    case Collect(_) => Collecting(s.control) && |Current(s).results| != c.n && Current(s).queue != []
    case Poll(_) => Collecting(s.control) && |Current(s).results| != c.n && Current(s).queue == []
    case Advance =>
      || (s.control.Launching? && s.control.k >= c.n)
      || (Collecting(s.control) && |Current(s).results| == c.n)
      || (s.control.Starting? && s.control.k >= c.n)
    case Start => s.control.Starting? && s.control.k < |s.startup.status|
    case StartupReports(i, _) => i < |s.startup.status| && s.startup.status[i].Running?
    case UpCheck(_) => s.control.CheckingUp?
    case Drain => s.control.Draining?
  }

  function Apply(c: Config, s: State, step: Step): State
    requires Enabled(c, s, step)
  {
    match step
    case Launch => s.(control := Launching(s.control.k + 1), setup := Begin(s.setup, s.control.k))
    case SetupReports(i, ok) => s.(setup := Post(s.setup, i, ok))
    case Collect(elapsed) =>
      var head := Current(s).queue[0];
      if !head.ok then
        WithCurrent(s, Consume(Current(s))).(control := Draining(InStartupPhase(s.control), head.id))
      else if Expired(c, elapsed) then
        WithCurrent(s, Receive(Current(s))).(control := TimedOut(InStartupPhase(s.control)))
      else
        WithCurrent(s, Receive(Current(s)))
    case Poll(elapsed) =>
      if Expired(c, elapsed) then s.(control := TimedOut(InStartupPhase(s.control))) else s
    case Advance =>
      s.(control := match s.control
                    case Launching(_) => CollectingSetup
                    case CollectingSetup => Starting(0)
                    case Starting(_) => CollectingStartup
                    case _ => CheckingUp)
    case Start =>
      // In sequential mode the coordinator itself runs the startup and is busy until it reports.
      s.(control := if c.parallel then Starting(s.control.k + 1) else InStartup(s.control.k),
         startup := Begin(s.startup, s.control.k))
    case StartupReports(i, ok) =>
      s.(control := if s.control.InStartup? then Starting(s.control.k + 1) else s.control,
         startup := Post(s.startup, i, ok))
    case UpCheck(up) =>
      // The check is asked of the first node, which an empty list does not have.
      s.(control := if c.scylla && (c.n == 0 || !up) then Aborted else Finished)
    case Drain =>
      if Current(s).queue != [] then WithCurrent(s, Consume(Current(s)))
      else s.(control := Failed(s.control.startup, s.control.node))
  }

  /** `run` is a run of the protocol, one state longer than its steps. */
  ghost predicate IsRun(c: Config, run: seq<State>, steps: seq<Step>) {
    && |run| == |steps| + 1
    && run[0] == Init(c)
    && forall k :: 0 <= k < |steps| ==> Enabled(c, run[k], steps[k]) && run[k + 1] == Apply(c, run[k], steps[k])
  }

  // ----- Every result is in one place

  ghost function Ids(q: seq<Report>): seq<nat> {
    seq(|q|, i requires 0 <= i < |q| => q[i].id)
  }

  ghost function Posted(p: Phase): set<nat> {
    set i: nat | i < |p.status| && p.status[i].Reported?
  }

  ghost predicate Truthful(p: Phase, q: seq<Report>) {
    forall k :: 0 <= k < |q| ==> q[k].id < |p.status| && p.status[q[k].id] == Reported(q[k].ok)
  }

  /** Each result posted is queued, received or consumed, once, and says what its worker
      found; only successes are received. */
  ghost predicate Conserved(p: Phase) {
    && multiset(Ids(p.queue)) + multiset(p.results) + multiset(Ids(p.consumed)) == multiset(Posted(p))
    && Truthful(p, p.queue)
    && Truthful(p, p.consumed)
    && forall k :: 0 <= k < |p.results| ==> p.results[k] < |p.status| && p.status[p.results[k]] == Reported(true)
  }

  lemma IdsSplit(q: seq<Report>)
    requires q != []
    ensures multiset(Ids(q)) == multiset{q[0].id} + multiset(Ids(q[1..]))
  {
    assert Ids(q) == [q[0].id] + Ids(q[1..]);
  }

  lemma IdsAppend(q: seq<Report>, r: Report)
    ensures multiset(Ids(q + [r])) == multiset(Ids(q)) + multiset{r.id}
  {
    assert Ids(q + [r]) == Ids(q) + [r.id];
  }

  lemma BeginConserves(p: Phase, i: nat)
    requires Conserved(p) && i < |p.status| && !p.status[i].Reported?
    ensures Conserved(Begin(p, i))
  {
  }

  lemma PostConserves(p: Phase, i: nat, ok: bool)
    requires Conserved(p) && i < |p.status| && !p.status[i].Reported?
    ensures Conserved(Post(p, i, ok))
  {
    assert Posted(Post(p, i, ok)) == Posted(p) + {i} && i !in Posted(p);
    assert multiset(Posted(p) + {i}) == multiset(Posted(p)) + multiset{i};
    IdsAppend(p.queue, Report(i, ok));
  }

  lemma ReceiveConserves(p: Phase)
    requires Conserved(p) && p.queue != [] && p.queue[0].ok
    ensures Conserved(Receive(p))
  {
    IdsSplit(p.queue);
    assert Posted(Receive(p)) == Posted(p);
  }

  lemma ConsumeConserves(p: Phase)
    requires Conserved(p) && p.queue != []
    ensures Conserved(Consume(p))
  {
    IdsSplit(p.queue);
    IdsAppend(p.consumed, p.queue[0]);
    assert Posted(Consume(p)) == Posted(p);
  }

  // ----- What the loop's count test means

  ghost predicate AllOk(p: Phase) {
    forall i :: 0 <= i < |p.status| ==> p.status[i] == Reported(true)
  }

  ghost function Below(n: nat): (s: set<nat>)
    ensures |s| == n && forall i: nat :: i in s <==> i < n
  {
    if n == 0 then {} else Below(n - 1) + {n - 1}
  }

  lemma {:induction false} BagWithin(bag: multiset<nat>, s: set<nat>)
    requires bag <= multiset(s) && |bag| == |s|
    ensures bag == multiset(s)
  {
    assert |multiset(s) - bag| == |multiset(s)| - |bag| == 0;
    assert multiset(s) == bag + (multiset(s) - bag);
  }

  /** As many received results as nodes means that every node reported success. */
  lemma CountMeansAll(p: Phase)
    requires Conserved(p) && |p.results| == |p.status|
    ensures AllOk(p) && p.queue == [] && p.consumed == []
    ensures multiset(p.results) == multiset(Below(|p.status|))
  {
    var all := Below(|p.status|);
    assert Posted(p) <= all;
    assert multiset(p.results) <= multiset(Posted(p)) <= multiset(all);
    BagWithin(multiset(p.results), all);
    assert multiset(Posted(p)) == multiset(p.results);
    assert |multiset(Ids(p.queue))| + |multiset(Ids(p.consumed))| == 0;
    forall i | 0 <= i < |p.status| ensures p.status[i] == Reported(true) {
      assert i as nat in multiset(p.results);
    }
  }

  // ----- The invariant

  ghost predicate LaunchedTo(p: Phase, k: nat) {
    forall i :: 0 <= i < |p.status| ==> (p.status[i].Idle? <==> i >= k)
  }

  function SetupLaunched(c: Config, control: Control): nat {
    if control.Launching? then control.k else c.n
  }

  function StartupLaunched(c: Config, control: Control): nat {
    if !InStartupPhase(control) then 0
    else if control.Starting? then control.k
    else if control.InStartup? then control.k + 1
    else c.n
  }

  predicate StartupOver(control: Control) {
    control.CheckingUp? || control.Finished? || control.Aborted?
  }

  predicate Raised(control: Control) {
    control.Draining? || control.Failed?
  }

  /** Nothing is consumed before a failure is raised; the failure comes first. */
  ghost predicate ConsumedBy(control: Control, p: Phase, startup: bool) {
    if Raised(control) && control.startup == startup
    then p.consumed != [] && p.consumed[0] == Report(control.node, false)
    else p.consumed == []
  }

  ghost function Arrived(p: Phase): seq<nat> {
    p.results + Ids(p.consumed) + Ids(p.queue)
  }

  ghost predicate InOrder(p: Phase) {
    forall k :: 0 <= k < |Arrived(p)| ==> Arrived(p)[k] == k
  }

  /** One by one: the queue holds the reports in list order, and only the node the
      coordinator is busy with is running. */
  ghost predicate OneByOne(c: Config, control: Control, p: Phase) {
    && InOrder(p)
    && forall i :: 0 <= i < |p.status| ==> (p.status[i].Running? <==> control.InStartup? && i == control.k)
  }

  ghost predicate Inv(c: Config, s: State) {
    && |s.setup.status| == c.n && |s.startup.status| == c.n
    && SetupLaunched(c, s.control) <= c.n && StartupLaunched(c, s.control) <= c.n
    && Conserved(s.setup) && Conserved(s.startup)
    && LaunchedTo(s.setup, SetupLaunched(c, s.control))
    && LaunchedTo(s.startup, StartupLaunched(c, s.control))
    && ConsumedBy(s.control, s.setup, false) && ConsumedBy(s.control, s.startup, true)
    && (InStartupPhase(s.control) ==> |s.setup.results| == c.n)
    && (StartupOver(s.control) ==> |s.startup.results| == c.n)
    && (s.control.Finished? && c.scylla ==> c.n > 0)
    && (c.parallel ==> !s.control.InStartup?)
    && (!c.parallel ==> OneByOne(c, s.control, s.startup))
  }

  lemma InitInv(c: Config)
    ensures Inv(c, Init(c))
  {
  }

  lemma LaunchInv(c: Config, s: State)
    requires Inv(c, s) && Enabled(c, s, Launch)
    ensures Inv(c, Apply(c, s, Launch))
  {
  }

  lemma SetupReportsInv(c: Config, s: State, i: nat, ok: bool)
    requires Inv(c, s) && Enabled(c, s, SetupReports(i, ok))
    ensures Inv(c, Apply(c, s, SetupReports(i, ok)))
  {
    PostConserves(s.setup, i, ok);
  }

  lemma StartInv(c: Config, s: State)
    requires Inv(c, s) && Enabled(c, s, Start)
    ensures Inv(c, Apply(c, s, Start))
  {
    BeginConserves(s.startup, s.control.k);
    assert Arrived(Begin(s.startup, s.control.k)) == Arrived(s.startup);
  }

  lemma AdvanceInv(c: Config, s: State)
    requires Inv(c, s) && Enabled(c, s, Advance)
    ensures Inv(c, Apply(c, s, Advance))
  {
  }

  lemma UpCheckInv(c: Config, s: State, up: bool)
    requires Inv(c, s) && Enabled(c, s, UpCheck(up))
    ensures Inv(c, Apply(c, s, UpCheck(up)))
  {
  }

  lemma ReceiveArrived(p: Phase)
    requires p.queue != [] && p.consumed == []
    ensures Arrived(Receive(p)) == Arrived(p)
  {
  }

  lemma ConsumeArrived(p: Phase)
    requires p.queue != []
    ensures Arrived(Consume(p)) == Arrived(p)
  {
  }

  lemma PostArrived(p: Phase, i: nat, ok: bool)
    requires i < |p.status|
    ensures Arrived(Post(p, i, ok)) == Arrived(p) + [i]
  {
  }

  lemma DrainInv(c: Config, s: State)
    requires Inv(c, s) && Enabled(c, s, Drain)
    ensures Inv(c, Apply(c, s, Drain))
  {
    var p := Current(s);
    if p.queue != [] {
      ConsumeConserves(p);
      ConsumeArrived(p);
    }
  }

  lemma ReceiveSetupInv(c: Config, s: State)
    requires Inv(c, s) && s.control.CollectingSetup? && s.setup.queue != [] && s.setup.queue[0].ok
    ensures Inv(c, s.(setup := Receive(s.setup)))
  {
    ReceiveConserves(s.setup);
  }

  lemma ReceiveStartupInv(c: Config, s: State)
    requires Inv(c, s) && s.control.CollectingStartup? && s.startup.queue != [] && s.startup.queue[0].ok
    ensures Inv(c, s.(startup := Receive(s.startup)))
  {
    ReceiveConserves(s.startup);
    ReceiveArrived(s.startup);
  }

  lemma TimeoutInv(c: Config, s: State)
    requires Inv(c, s) && Collecting(s.control)
    ensures Inv(c, s.(control := TimedOut(InStartupPhase(s.control))))
  {
  }

  lemma CollectOkInv(c: Config, s: State, elapsed: real)
    requires Inv(c, s) && Enabled(c, s, Collect(elapsed)) && Current(s).queue[0].ok
    ensures Inv(c, Apply(c, s, Collect(elapsed)))
  {
    if s.control.CollectingSetup? {
      ReceiveSetupInv(c, s);
    } else {
      ReceiveStartupInv(c, s);
    }
    TimeoutInv(c, WithCurrent(s, Receive(Current(s))));
  }

  lemma PollInv(c: Config, s: State, elapsed: real)
    requires Inv(c, s) && Enabled(c, s, Poll(elapsed))
    ensures Inv(c, Apply(c, s, Poll(elapsed)))
  {
  }

  lemma {:induction false} CollectFailedInv(c: Config, s: State, elapsed: real)
    requires Inv(c, s) && Enabled(c, s, Collect(elapsed)) && !Current(s).queue[0].ok
    ensures Inv(c, Apply(c, s, Collect(elapsed)))
  {
    ConsumeConserves(Current(s));
    ConsumeArrived(Current(s));
  }

  /** Busy with node `k`, exactly the nodes before it have reported. */
  lemma BusyCount(c: Config, s: State)
    requires Inv(c, s) && s.control.InStartup?
    ensures |Arrived(s.startup)| == s.control.k
  {
    var p := s.startup;
    assert Posted(p) == Below(s.control.k);
    assert |multiset(Posted(p))| == s.control.k;
  }

  lemma StartupReportsInv(c: Config, s: State, i: nat, ok: bool)
    requires Inv(c, s) && Enabled(c, s, StartupReports(i, ok))
    ensures Inv(c, Apply(c, s, StartupReports(i, ok)))
  {
    PostConserves(s.startup, i, ok);
    if !c.parallel {
      BusyCount(c, s);
      PostArrived(s.startup, i, ok);
    }
  }

  lemma StepInv(c: Config, s: State, step: Step)
    requires Inv(c, s) && Enabled(c, s, step)
    ensures Inv(c, Apply(c, s, step))
  {
    match step
    case Launch => LaunchInv(c, s);
    case SetupReports(i, ok) => SetupReportsInv(c, s, i, ok);
    case Collect(elapsed) =>
      if Current(s).queue[0].ok { CollectOkInv(c, s, elapsed); } else { CollectFailedInv(c, s, elapsed); }
    case Poll(elapsed) => PollInv(c, s, elapsed);
    case Advance => AdvanceInv(c, s);
    case Start => StartInv(c, s);
    case StartupReports(i, ok) => StartupReportsInv(c, s, i, ok);
    case UpCheck(up) => UpCheckInv(c, s, up);
    case Drain => DrainInv(c, s);
  }

  lemma {:induction false} RunInv(c: Config, run: seq<State>, steps: seq<Step>, k: nat)
    requires IsRun(c, run, steps) && k < |run|
    ensures Inv(c, run[k])
  {
    if k == 0 {
      InitInv(c);
    } else {
      RunInv(c, run, steps, k - 1);
      StepInv(c, run[k - 1], steps[k - 1]);
    }
  }

  // ----- What holds over every run

  /** Not started, running, queued, received and consumed partition the nodes of a phase. */
  lemma Partition(c: Config, run: seq<State>, steps: seq<Step>, k: nat, startup: bool)
    requires IsRun(c, run, steps) && k < |run|
    ensures var p := if startup then run[k].startup else run[k].setup;
            && |p.status| == c.n
            && multiset(set i: nat | i < c.n && p.status[i].Idle?)
               + multiset(set i: nat | i < c.n && p.status[i].Running?)
               + multiset(Ids(p.queue)) + multiset(p.results) + multiset(Ids(p.consumed)) == multiset(Below(c.n))
  {
    RunInv(c, run, steps, k);
    var p := if startup then run[k].startup else run[k].setup;
    assert |p.status| == c.n;
    PartitionOf(p);
  }

  lemma PartitionOf(p: Phase)
    ensures multiset(set i: nat | i < |p.status| && p.status[i].Idle?)
            + multiset(set i: nat | i < |p.status| && p.status[i].Running?) + multiset(Posted(p))
            == multiset(Below(|p.status|))
  {
  }

  /** No node's startup begins until every node's setup result has been received, without
      error. */
  lemma StartupWaitsForSetup(c: Config, run: seq<State>, steps: seq<Step>, k: nat)
    requires IsRun(c, run, steps) && k < |steps| && steps[k].Start?
    ensures AllOk(run[k].setup) && multiset(run[k].setup.results) == multiset(Below(c.n))
  {
    RunInv(c, run, steps, k);
    CountMeansAll(run[k].setup);
  }

  /** The wrapped method runs only after every node succeeded in both phases, and on a
      Scylla cluster only if there is a node to ask. */
  lemma MethodNeedsEveryNode(c: Config, run: seq<State>, steps: seq<Step>, k: nat)
    requires IsRun(c, run, steps) && k < |run| && run[k].control.Finished?
    ensures AllOk(run[k].setup) && AllOk(run[k].startup) && (c.scylla ==> c.n > 0)
    ensures multiset(run[k].setup.results) == multiset(run[k].startup.results) == multiset(Below(c.n))
  {
    RunInv(c, run, steps, k);
    CountMeansAll(run[k].setup);
    CountMeansAll(run[k].startup);
  }

  /** A failure raised names a node that failed, was the first failure taken off the queue,
      and everything its drain logged as failed did fail. */
  lemma FailureIsReal(c: Config, run: seq<State>, steps: seq<Step>, k: nat)
    requires IsRun(c, run, steps) && k < |run| && Raised(run[k].control)
    ensures var p := Current(run[k]);
            && run[k].control.node < c.n == |p.status|
            && p.status[run[k].control.node] == Reported(false)
            && (forall i :: i in p.results ==> i < c.n && p.status[i] == Reported(true))
            && Truthful(p, p.consumed)
  {
    RunInv(c, run, steps, k);
  }

  /** When the failure leaves the drain, every result posted so far has been received or
      taken by it. */
  lemma DrainLeavesNothing(c: Config, run: seq<State>, steps: seq<Step>, k: nat)
    requires IsRun(c, run, steps) && k < |steps| && run[k + 1].control.Failed? && !run[k].control.Failed?
    ensures var p := PhaseOf(run[k + 1], run[k + 1].control.startup);
            multiset(p.results) + multiset(Ids(p.consumed)) == multiset(Posted(p))
  {
    RunInv(c, run, steps, k);
    assert run[k + 1] == Apply(c, run[k], steps[k]);
  }

  /** One by one: at most one node is starting, every node before it has reported, none
      after it has begun. */
  lemma SequentialStartsOneAtATime(c: Config, run: seq<State>, steps: seq<Step>, k: nat, i: nat)
    requires IsRun(c, run, steps) && k < |run| && !c.parallel && i < c.n
    ensures |run[k].startup.status| == c.n
    ensures run[k].startup.status[i].Running? ==>
              && (forall j: nat :: j < i ==> run[k].startup.status[j].Reported?)
              && (forall j: nat :: i < j < c.n ==> run[k].startup.status[j].Idle?)
  {
    RunInv(c, run, steps, k);
  }

  /** One by one: a startup failure stops nothing until all have run, and the node named is
      the first in the list that failed. */
  lemma SequentialFailureIsFirst(c: Config, run: seq<State>, steps: seq<Step>, k: nat)
    requires IsRun(c, run, steps) && k < |run| && !c.parallel
    requires Raised(run[k].control) && run[k].control.startup
    ensures var status, node := run[k].startup.status, run[k].control.node;
            && node < c.n == |status| && status[node] == Reported(false)
            && (forall j: nat :: j < node ==> status[j] == Reported(true))
            && (forall j: nat :: j < c.n ==> status[j].Reported?)
  {
    RunInv(c, run, steps, k);
    var p, node := run[k].startup, run[k].control.node;
    assert Arrived(p)[|p.results|] == Ids(p.consumed)[0] == node;
    forall j: nat | j < node ensures p.status[j] == Reported(true) {
      assert Arrived(p)[j] == p.results[j] == j;
    }
  }

  /** A timeout has a cause: one is configured, and some turn of a collecting loop began
      more than that many minutes after the start. */
  lemma {:induction false} TimeoutHasCause(c: Config, run: seq<State>, steps: seq<Step>, k: nat) returns (j: nat)
    requires IsRun(c, run, steps) && k < |run| && run[k].control.TimedOut?
    ensures j < k && Collecting(run[j].control) && (steps[j].Collect? || steps[j].Poll?)
    ensures c.timeout > 0 && steps[j].elapsed > 60.0 * c.timeout as real
  {
    if run[k - 1].control.TimedOut? {
      j := TimeoutHasCause(c, run, steps, k - 1);
    } else {
      j := k - 1;
      assert Enabled(c, run[j], steps[j]) && run[j + 1] == Apply(c, run[j], steps[j]);
    }
  }

  ghost function PhaseOf(s: State, startup: bool): Phase {
    if startup then s.startup else s.setup
  }

  /** The queue a collecting loop reads. */
  ghost function Waiting(s: State): seq<Report> {
    PhaseOf(s, s.control.CollectingStartup?).queue
  }

  /** A turn of a collecting loop at this time. */
  ghost function TurnAt(s: State, elapsed: real): Step {
    if Waiting(s) == [] then Poll(elapsed) else Collect(elapsed)
  }

  /** The turn takes a failure off the queue. */
  ghost predicate TakesFailure(s: State, step: Step) {
    step.Collect? && Waiting(s) != [] && !Waiting(s)[0].ok
  }

  /** The turn began later than the time limit. */
  ghost predicate LateTurn(c: Config, step: Step) {
    (step.Collect? || step.Poll?) && c.timeout > 0 && step.elapsed > 60.0 * c.timeout as real
  }

  /** In every run, a turn of a collecting loop times out if and only if it began too late and
      took no failure, and says in which phase. */
  lemma TimesOutExactly(c: Config, run: seq<State>, steps: seq<Step>, k: nat)
    requires IsRun(c, run, steps) && k < |steps|
    ensures var s, control := run[k], run[k + 1].control;
            && (control.TimedOut? <==> s.control.TimedOut? || (LateTurn(c, steps[k]) && !TakesFailure(s, steps[k])))
            && (control.TimedOut? && !s.control.TimedOut? ==> control == TimedOut(s.control.CollectingStartup?))
  {
    assert Enabled(c, run[k], steps[k]) && run[k + 1] == Apply(c, run[k], steps[k]);
  }

  /** In every run, a failure is raised if and only if a turn takes one off the queue, whatever
      the time, and is that node's; it leaves the drain exactly when the queue is empty. */
  lemma FailsExactly(c: Config, run: seq<State>, steps: seq<Step>, k: nat)
    requires IsRun(c, run, steps) && k < |steps|
    ensures var s, control := run[k], run[k + 1].control;
            && (control.Draining? && !s.control.Draining? <==> TakesFailure(s, steps[k]))
            && (TakesFailure(s, steps[k]) ==>
                  control == Draining(s.control.CollectingStartup?, Waiting(s)[0].id))
            && (control.Failed? && !s.control.Failed? <==>
                  s.control.Draining? && steps[k].Drain? && PhaseOf(s, s.control.startup).queue == [])
            && (control.Failed? && s.control.Draining? ==>
                  control == Failed(s.control.startup, s.control.node))
  {
    assert Enabled(c, run[k], steps[k]) && run[k + 1] == Apply(c, run[k], steps[k]);
  }

  /** In every run, the up check decides between the method and an abort: a Scylla cluster
      needs a node and a passed check, any other cluster nothing. */
  lemma EndsExactly(c: Config, run: seq<State>, steps: seq<Step>, k: nat)
    requires IsRun(c, run, steps) && k < |steps|
    ensures var s, control := run[k], run[k + 1].control;
            && (control.Aborted? && !s.control.Aborted? <==>
                  steps[k].UpCheck? && c.scylla && (c.n == 0 || !steps[k].up))
            && (control.Finished? && !s.control.Finished? <==>
                  steps[k].UpCheck? && (!c.scylla || (c.n > 0 && steps[k].up)))
  {
    assert Enabled(c, run[k], steps[k]) && run[k + 1] == Apply(c, run[k], steps[k]);
  }

  /** A hung node cannot keep the coordinator: as long as results are missing, a turn can be
      taken at any time, and one taken past the limit ends the loop. */
  lemma LateTurnEnds(c: Config, run: seq<State>, steps: seq<Step>, k: nat, elapsed: real) returns (step: Step)
    requires IsRun(c, run, steps) && k < |run| && Collecting(run[k].control)
    requires |PhaseOf(run[k], run[k].control.CollectingStartup?).results| < c.n
    ensures step == TurnAt(run[k], elapsed) && Enabled(c, run[k], step)
    ensures LateTurn(c, step) && !TakesFailure(run[k], step) ==> Apply(c, run[k], step).control.TimedOut?
    ensures TakesFailure(run[k], step) ==> Apply(c, run[k], step).control.Draining?
  {
    step := TurnAt(run[k], elapsed);
  }

  /** Workers are never stopped: one that is running may report either way, in every state. */
  lemma WorkersAreFree(c: Config, run: seq<State>, steps: seq<Step>, k: nat, i: nat, ok: bool)
    requires IsRun(c, run, steps) && k < |run| && i < c.n
    ensures |run[k].setup.status| == |run[k].startup.status| == c.n
    ensures run[k].setup.status[i].Running? ==> Enabled(c, run[k], SetupReports(i, ok))
    ensures run[k].startup.status[i].Running? ==> Enabled(c, run[k], StartupReports(i, ok))
  {
    RunInv(c, run, steps, k);
  }

  // ----- The order of reports

  /** What the workers of a phase have reported, in order. */
  ghost function Reports(steps: seq<Step>, startup: bool): seq<Report> {
    if steps == [] then []
    else
      var last := |steps| - 1;
      Reports(steps[..last], startup) + Reporting(steps[last], startup)
  }

  ghost function Reporting(step: Step, startup: bool): seq<Report> {
    match step
    case SetupReports(i, ok) => if startup then [] else [Report(i, ok)]
    case StartupReports(i, ok) => if startup then [Report(i, ok)] else []
    case _ => []
  }

  /** Received, consumed and still queued, one after the other. */
  ghost function Log(p: Phase): seq<Report> {
    seq(|p.results|, i requires 0 <= i < |p.results| => Report(p.results[i], true)) + p.consumed + p.queue
  }

  lemma LogReceive(p: Phase)
    requires p.queue != [] && p.queue[0].ok && p.consumed == []
    ensures Log(Receive(p)) == Log(p)
  {
  }

  lemma LogConsume(p: Phase)
    requires p.queue != []
    ensures Log(Consume(p)) == Log(p)
  {
  }

  lemma LogPost(p: Phase, i: nat, ok: bool)
    requires i < |p.status|
    ensures Log(Post(p, i, ok)) == Log(p) + [Report(i, ok)]
  {
  }

  lemma {:induction false} CollectLogs(c: Config, s: State, elapsed: real)
    requires Inv(c, s) && Enabled(c, s, Collect(elapsed))
    ensures var s' := Apply(c, s, Collect(elapsed)); Log(s'.setup) == Log(s.setup) && Log(s'.startup) == Log(s.startup)
  {
    if Current(s).queue[0].ok { LogReceive(Current(s)); } else { LogConsume(Current(s)); }
  }

  lemma {:induction false} StepLogs(c: Config, s: State, step: Step)
    requires Inv(c, s) && Enabled(c, s, step)
    ensures var s' := Apply(c, s, step);
            Log(s'.setup) == Log(s.setup) + Reporting(step, false) &&
            Log(s'.startup) == Log(s.startup) + Reporting(step, true)
  {
    match step
    case SetupReports(i, ok) => LogPost(s.setup, i, ok);
    case StartupReports(i, ok) => LogPost(s.startup, i, ok);
    case Collect(elapsed) => CollectLogs(c, s, elapsed);
    case Drain =>
      if Current(s).queue != [] { LogConsume(Current(s)); }
    case _ =>
  }

  lemma ReportsNext(steps: seq<Step>, k: nat, startup: bool)
    requires k < |steps|
    ensures Reports(steps[..k + 1], startup) == Reports(steps[..k], startup) + Reporting(steps[k], startup)
  {
    assert steps[..k + 1][..k] == steps[..k];
  }

  /** In every run both queues are first in, first out: what the coordinator has received and
      consumed, followed by what is queued, is what the workers reported, in that order and
      with those outcomes. */
  lemma {:induction false} ReportsInOrder(c: Config, run: seq<State>, steps: seq<Step>, k: nat)
    requires IsRun(c, run, steps) && k < |run|
    ensures Log(run[k].setup) == Reports(steps[..k], false)
    ensures Log(run[k].startup) == Reports(steps[..k], true)
  {
    if k > 0 {
      ReportsInOrder(c, run, steps, k - 1);
      RunInv(c, run, steps, k - 1);
      StepLogs(c, run[k - 1], steps[k - 1]);
      ReportsNext(steps, k - 1, false);
      ReportsNext(steps, k - 1, true);
    }
  }

  /** The method runs right after an up check, which a Scylla cluster must have passed. */
  lemma {:induction false} MethodNeedsUpCheck(c: Config, run: seq<State>, steps: seq<Step>, k: nat) returns (j: nat)
    requires IsRun(c, run, steps) && k < |run| && run[k].control.Finished?
    ensures j < k && run[j].control.CheckingUp? && steps[j].UpCheck? && (c.scylla ==> steps[j].up)
  {
    if run[k - 1].control.Finished? {
      j := MethodNeedsUpCheck(c, run, steps, k - 1);
    } else {
      j := k - 1;
      assert Enabled(c, run[j], steps[j]) && run[j + 1] == Apply(c, run[j], steps[j]);
    }
  }

  /** Nothing goes wrong in this step: no node fails, no time limit passes, the check is up. */
  predicate Healthy(c: Config, step: Step) {
    match step
    case SetupReports(_, ok) => ok
    case StartupReports(_, ok) => ok
    case Collect(elapsed) => !Expired(c, elapsed)
    case Poll(elapsed) => !Expired(c, elapsed)
    case UpCheck(up) => !c.scylla || (up && c.n > 0)
    case _ => true
  }

  ghost predicate NoFailure(p: Phase) {
    forall i :: 0 <= i < |p.status| ==> p.status[i] != Reported(false)
  }

  predicate OnCourse(control: Control) {
    !control.Aborted? && !control.Draining? && !control.Failed? && !control.TimedOut?
  }

  lemma HealthyStep(c: Config, s: State, step: Step)
    requires Inv(c, s) && Enabled(c, s, step) && Healthy(c, step)
    requires NoFailure(s.setup) && NoFailure(s.startup) && OnCourse(s.control)
    ensures var s' := Apply(c, s, step); NoFailure(s'.setup) && NoFailure(s'.startup) && OnCourse(s'.control)
  {
  }

  /** While nothing goes wrong the protocol raises nothing, so by `NeverStuck` the only way
      for it to be over is that the method has run. */
  lemma {:induction false} HealthyRunStaysOnCourse(c: Config, run: seq<State>, steps: seq<Step>, k: nat)
    requires IsRun(c, run, steps) && k < |run| && forall j :: 0 <= j < k ==> Healthy(c, steps[j])
    ensures NoFailure(run[k].setup) && NoFailure(run[k].startup) && OnCourse(run[k].control)
    ensures Terminal(run[k].control) ==> run[k].control.Finished?
  {
    if k > 0 {
      HealthyRunStaysOnCourse(c, run, steps, k - 1);
      RunInv(c, run, steps, k - 1);
      HealthyStep(c, run[k - 1], steps[k - 1]);
    }
  }

  // ----- Progress

  predicate Terminal(control: Control) {
    control.Finished? || control.Aborted? || control.Failed? || control.TimedOut?
  }

  ghost function Weight(status: Status): nat {
    match status
    case Idle => 3
    case Running => 2
    case Reported(_) => 0
  }

  ghost function Load(status: seq<Status>): nat {
    if status == [] then 0 else Weight(status[0]) + Load(status[1..])
  }

  lemma {:induction false} LoadUpdate(status: seq<Status>, i: nat, x: Status)
    requires i < |status|
    ensures Load(status[i := x]) == Load(status) - Weight(status[i]) + Weight(x)
  {
    if i > 0 {
      LoadUpdate(status[1..], i - 1, x);
      assert status[i := x][1..] == status[1..][i - 1 := x];
    }
  }

  lemma {:induction false} LoadFresh(n: nat)
    ensures Load(Fresh(n).status) == 3 * n
  {
    if n > 0 {
      assert Fresh(n).status[1..] == Fresh(n - 1).status;
      LoadFresh(n - 1);
    }
  }

  ghost function Rank(control: Control): nat {
    match control
    case Launching(_) => 5
    case CollectingSetup => 4
    case Starting(_) => 3
    case InStartup(_) => 3
    case CollectingStartup => 2
    case CheckingUp => 1
    case Draining(_, _) => 1
    case _ => 0
  }

  ghost function Budget(s: State): nat {
    Load(s.setup.status) + |s.setup.queue| + Load(s.startup.status) + |s.startup.queue| + Rank(s.control)
  }

  lemma LaunchSpends(c: Config, s: State)
    requires Inv(c, s) && Enabled(c, s, Launch)
    ensures Budget(Apply(c, s, Launch)) < Budget(s)
  {
    LoadUpdate(s.setup.status, s.control.k, Running);
  }

  lemma StartSpends(c: Config, s: State)
    requires Inv(c, s) && Enabled(c, s, Start)
    ensures Budget(Apply(c, s, Start)) < Budget(s)
  {
    LoadUpdate(s.startup.status, s.control.k, Running);
  }

  lemma SetupReportsSpends(c: Config, s: State, i: nat, ok: bool)
    requires Enabled(c, s, SetupReports(i, ok))
    ensures Budget(Apply(c, s, SetupReports(i, ok))) < Budget(s)
  {
    LoadUpdate(s.setup.status, i, Reported(ok));
  }

  lemma StartupReportsSpends(c: Config, s: State, i: nat, ok: bool)
    requires Enabled(c, s, StartupReports(i, ok))
    ensures Budget(Apply(c, s, StartupReports(i, ok))) < Budget(s)
  {
    LoadUpdate(s.startup.status, i, Reported(ok));
  }

  lemma CoordinatorSpends(c: Config, s: State, step: Step)
    requires Enabled(c, s, step) && (step.Collect? || step.Poll? || step.Advance? || step.UpCheck? || step.Drain?)
    ensures Budget(Apply(c, s, step)) < Budget(s) || (step.Poll? && Apply(c, s, step) == s)
  {
  }

  /** A step either changes nothing, which only an idle poll does, or uses up budget. */
  lemma StepSpends(c: Config, s: State, step: Step)
    requires Inv(c, s) && Enabled(c, s, step)
    ensures Budget(Apply(c, s, step)) < Budget(s) || (step.Poll? && Apply(c, s, step) == s)
  {
    match step
    case Launch => LaunchSpends(c, s);
    case SetupReports(i, ok) => SetupReportsSpends(c, s, i, ok);
    case Start => StartSpends(c, s);
    case StartupReports(i, ok) => StartupReportsSpends(c, s, i, ok);
    case _ => CoordinatorSpends(c, s, step);
  }

  ghost function Changes(run: seq<State>, k: nat): nat
    requires k < |run|
  {
    if k == 0 then 0 else Changes(run, k - 1) + if run[k] == run[k - 1] then 0 else 1
  }

  lemma {:induction false} RunSpends(c: Config, run: seq<State>, steps: seq<Step>, k: nat)
    requires IsRun(c, run, steps) && k < |run|
    ensures Changes(run, k) + Budget(run[k]) <= 6 * c.n + 5
  {
    if k == 0 {
      LoadFresh(c.n);
    } else {
      RunSpends(c, run, steps, k - 1);
      RunInv(c, run, steps, k - 1);
      StepSpends(c, run[k - 1], steps[k - 1]);
    }
  }

  lemma SomeRunning(p: Phase)
    requires Conserved(p) && p.queue == [] && p.consumed == [] && |p.results| != |p.status|
    requires forall i :: 0 <= i < |p.status| ==> !p.status[i].Idle?
    ensures exists i: nat :: i < |p.status| && p.status[i].Running?
  {
    PartitionOf(p);
    var idle := set i: nat | i < |p.status| && p.status[i].Idle?;
    var running := set i: nat | i < |p.status| && p.status[i].Running?;
    assert idle == {};
    assert |multiset(Below(|p.status|))| == |multiset(running)| + |multiset(Posted(p))|;
    assert |multiset(Posted(p))| == |p.results|;
    var i :| i in running;
  }

  /** The protocol cannot deadlock: until it is over, some step makes progress. Together
      with the bound on changes, it is over after at most 6n + 5 of them. */
  lemma NeverStuck(c: Config, run: seq<State>, steps: seq<Step>, k: nat) returns (step: Step)
    requires IsRun(c, run, steps) && k < |run| && !Terminal(run[k].control)
    ensures Enabled(c, run[k], step) && Apply(c, run[k], step) != run[k]
    ensures Changes(run, k) < 6 * c.n + 5
  {
    RunInv(c, run, steps, k);
    RunSpends(c, run, steps, k);
    var s := run[k];
    step := Useful(c, s);
    StepSpends(c, s, step);
  }

  lemma Useful(c: Config, s: State) returns (step: Step)
    requires Inv(c, s) && !Terminal(s.control)
    ensures Enabled(c, s, step) && !step.Poll?
  {
    match s.control
    case Launching(k) => step := if k < c.n then Launch else Advance;
    case Starting(k) => step := if k < c.n then Start else Advance;
    case InStartup(k) => step := StartupReports(k, true);
    case CheckingUp => step := UpCheck(true);
    case Draining(_, _) => step := Drain;
    case CollectingSetup =>
      if |s.setup.results| == c.n { step := Advance; }
      else if s.setup.queue != [] { step := Collect(0.0); }
      else {
        SomeRunning(s.setup);
        var i: nat :| i < c.n && s.setup.status[i].Running?;
        step := SetupReports(i, true);
      }
    case CollectingStartup =>
      if |s.startup.results| == c.n { step := Advance; }
      else if s.startup.queue != [] { step := Collect(0.0); }
      else {
        SomeRunning(s.startup);
        var i: nat :| i < c.n && s.startup.status[i].Running?;
        step := StartupReports(i, true);
      }
  }
}
