/** The backtrace-decoding thread (`decode_backtrace`): a queue consumer that publishes each
    event once, decoded or not, and leaves a build alone for a while after a failed round. */
module Backtraces {

  const COOLDOWN_SEC := 900

  /** The `build_id` entry of a job. */
  datatype Build = Absent | Falsy | Id(id: string)

  /** What producers put on the queue: the stop mark, something without an event, or an event. */
  datatype Job = Stop | Malformed | Event(event: nat, build: Build)

  datatype Reply = Fails | Empty | Decoded

  /** What the world does during one turn of the loop: jobs arriving before the `get` and
      before the final test, whether the `get` raises, the two clock readings, the service's
      reply, whether looking up a known issue raises, whether the exception says that
      something is closed, and the termination flag. */
  datatype Turn = Turn(
    arrivals: seq<Job>, late: seq<Job>, getRaises: bool, checkTime: int, failTime: int,
    reply: Reply, lookupRaises: bool, saysClosed: bool, terminating: bool)

  datatype Exit = Running | Stopped | Closed | Terminated

  /** A round with the service about an event. */
  datatype Ask = Ask(event: nat, build: string, time: int, reply: Reply, failTime: int) {
    predicate Failed() { reply.Fails? }
  }

  /** A published event, and whether it carries a decoded backtrace. */
  datatype Published = Published(event: nat, decoded: bool)

  datatype State = State(
    queue: seq<Job>, cooldown: map<string, int>, published: seq<Published>,
    asks: seq<Ask>, taken: seq<Job>, exit: Exit)

  function Until(cooldown: map<string, int>, build: string): int {
    if build in cooldown then cooldown[build] else 0
  }

  /** What the `try` block makes of an event: the new cooldown and rounds, whether the event
      now holds decoded text, and whether an exception leaves the block. */
  datatype Outcome = Outcome(state: State, decoded: bool, raised: bool)

  function Decode(s: State, event: nat, build: Build, t: Turn): Outcome {
    match build
    case Absent => Outcome(s, false, true)
    case Falsy => Outcome(s, false, false)
    case Id(b) =>
      if t.checkTime < Until(s.cooldown, b) then Outcome(s, false, false)
      else
        var asked := s.(asks := s.asks + [Ask(event, b, t.checkTime, t.reply, t.failTime)]);
        if t.reply.Fails? then
          Outcome(asked.(cooldown := s.cooldown[b := t.failTime + COOLDOWN_SEC]), false, false)
        else
          Outcome(asked, t.reply.Decoded?, t.reply.Decoded? && t.lookupRaises)
  }

  /** An event decoded or not, and published; an exception may end the thread. */
  function Publish(s: State, event: nat, build: Build, t: Turn): State {
    var Outcome(s', decoded, raised) := Decode(s, event, build, t);
    s'.(published := s'.published + [Published(event, decoded)],
        exit := if raised && build.Id? && t.saysClosed then Closed else s'.exit)
  }

  /** The test at the end of a turn. */
  function EndTurn(s: State, t: Turn): State {
    var queue := s.queue + t.late;
    s.(queue := queue, exit := if t.terminating && queue == [] then Terminated else Running)
  }

  function DoTurn(s: State, t: Turn): State {
    if s.exit != Running then s
    else
      var queue := s.queue + t.arrivals;
      if t.getRaises && t.saysClosed then s.(queue := queue, exit := Closed)
      else if t.getRaises || queue == [] then EndTurn(s.(queue := queue), t)
      else
        var s1 := s.(queue := queue[1..], taken := s.taken + [queue[0]]);
        match queue[0]
        case Stop => s1.(exit := Stopped)
        case Malformed => EndTurn(s1, t)
        case Event(event, build) =>
          var s2 := Publish(s1, event, build, t);
          if s2.exit == Closed then s2 else EndTurn(s2, t)
  }

  function Run(s: State, turns: seq<Turn>): State
    decreases turns
  {
    if turns == [] then s else Run(DoTurn(s, turns[0]), turns[1..])
  }

  const START := State([], map[], [], [], [], Running)

  // ----- The thread

  class Decoder {
    var queue: seq<Job>
    var cooldown: map<string, int>
    var published: seq<Published>
    ghost var asks: seq<Ask>
    ghost var taken: seq<Job>

    ghost function View(exit: Exit): State
      reads this
    {
      State(queue, cooldown, published, asks, taken, exit)
    }

    constructor ()
      ensures View(Running) == START
    {
      queue, cooldown, published, asks, taken := [], map[], [], [], [];
    }

    /** Asks the service unless the build is unknown or cooling down, and looks decoded text
        up among the known issues. Failed rounds stay spaced. */
    method DecodeBacktraceViaService(event: nat, build: Build, t: Turn) returns (decoded: bool, raised: bool)
      modifies this
      ensures Outcome(View(Running), decoded, raised) == Decode(old(View(Running)), event, build, t)
      ensures queue == old(queue) && published == old(published) && taken == old(taken)
      ensures asks == old(asks) <==> !build.Id? || t.checkTime < Until(old(cooldown), build.id)
      ensures AnsweredOf(asks) == AnsweredOf(old(asks)) + if decoded then [event] else []
      ensures Sane(t) && old(Barred(View(Running)) && Spaced(asks)) ==> Barred(View(Running)) && Spaced(asks)
      ensures old(Justified(View(Running))) ==> Justified(View(Running))
    {
      DecodeAnswers(View(Running), event, build, t);
      DecodeJustifiedIf(View(Running), event, build, t);
      if Sane(t) && Barred(View(Running)) && Spaced(asks) {
        DecodeSpaced(View(Running), event, build, t);
      }
      decoded, raised := false, build.Absent?;
      if !build.Id? {
        return;
      }
      var b := build.id;
      var until := if b in cooldown then cooldown[b] else 0;
      if t.checkTime < until {
        return;
      }
      asks := asks + [Ask(event, b, t.checkTime, t.reply, t.failTime)];
      if t.reply.Fails? {
        cooldown := cooldown[b := t.failTime + COOLDOWN_SEC];
        return;
      }
      decoded := t.reply.Decoded?;
      raised := decoded && t.lookupRaises;
    }

    /** The thread: the run of its turns, to which the results below apply. */
    method DecodeBacktrace(turns: seq<Turn>) returns (exit: Exit)
      modifies this
      ensures View(exit) == Run(old(View(Running)), turns)
      ensures taken + queue == old(taken + queue) + Arrived(old(View(Running)), turns)
      ensures old(Inv(View(Running))) && (forall k :: 0 <= k < |turns| ==> Sane(turns[k])) ==> Inv(View(exit))
    {
      ghost var start := View(Running);
      exit := Running;
      var i := 0;
      while i < |turns| && exit == Running
        invariant 0 <= i <= |turns|
        invariant Run(View(exit), turns[i..]) == Run(old(View(Running)), turns)
      {
        var t := turns[i];
        ghost var s := View(exit);
        assert turns[i..][1..] == turns[i + 1..];
        exit := OneTurn(t);
        i := i + 1;
      }
      RunOver(View(exit), turns[i..]);
      RunConserves(start, turns);
      if Inv(start) && forall k :: 0 <= k < |turns| ==> Sane(turns[k]) {
        RunInv(start, turns);
      }
    }

    /** The event is published even if decoding raises. */
    method DecodeAndPublish(event: nat, build: Build, t: Turn) returns (exit: Exit)
      modifies this
      ensures View(exit) == Publish(old(View(Running)), event, build, t)
    {
      var decoded, raised := DecodeBacktraceViaService(event, build, t);
      published := published + [Published(event, decoded)];
      exit := if raised && build.Id? && t.saysClosed then Closed else Running;
    }

    /** One turn: nothing is lost between the queue and what was taken, and the published
        events stay those taken, decoded exactly when the service answered. */
    method OneTurn(t: Turn) returns (exit: Exit)
      modifies this
      ensures View(exit) == DoTurn(old(View(Running)), t)
      ensures taken + queue == old(taken + queue) + (t.arrivals + Late(View(exit), t))
      ensures Sane(t) && old(Faithful(View(Running))) ==> Faithful(View(exit))
      ensures old(ExitExplained(View(Running))) ==> ExitExplained(View(exit))
      ensures ExitsBy(old(View(Running)), t, exit)
    {
      ghost var s := View(Running);
      exit := Running;
      queue := queue + t.arrivals;
      if t.getRaises {
        exit := if t.saysClosed then Closed else Running;
      } else if queue != [] {
        var job := queue[0];
        queue, taken := queue[1..], taken + [job];
        if job.Stop? {
          exit := Stopped;
        } else if job.Event? {
          exit := DecodeAndPublish(job.event, job.build, t);
        }
      }
      if exit == Running {
        queue := queue + t.late;
        exit := if t.terminating && queue == [] then Terminated else Running;
      }
      assert View(exit) == DoTurn(s, t);
      TurnKeeps(s, t);
    }
  }

  lemma {:induction false} RunOver(s: State, turns: seq<Turn>)
    requires turns == [] || s.exit != Running
    ensures Run(s, turns) == s
    decreases turns
  {
    if turns != [] {
      RunOver(s, turns[1..]);
    }
  }

  // ----- Over every run

  function Events(jobs: seq<Job>): seq<nat> {
    if jobs == [] then []
    else
      var n := |jobs| - 1;
      Events(jobs[..n]) + if jobs[n].Event? then [jobs[n].event] else []
  }

  lemma EventsAppend(jobs: seq<Job>, job: Job)
    ensures Events(jobs + [job]) == Events(jobs) + if job.Event? then [job.event] else []
  {
  }

  ghost function EventsOf(published: seq<Published>): seq<nat> {
    seq(|published|, i requires 0 <= i < |published| => published[i].event)
  }

  ghost function DecodedOf(published: seq<Published>): seq<nat> {
    if published == [] then []
    else
      var n := |published| - 1;
      DecodedOf(published[..n]) + if published[n].decoded then [published[n].event] else []
  }

  ghost function AnsweredOf(asks: seq<Ask>): seq<nat> {
    if asks == [] then []
    else
      var n := |asks| - 1;
      AnsweredOf(asks[..n]) + if asks[n].reply.Decoded? then [asks[n].event] else []
  }

  /** Everything that has reached the queue while the loop was running. */
  function Arrived(s: State, turns: seq<Turn>): seq<Job>
    decreases turns
  {
    if turns == [] || s.exit != Running then []
    else
      var s' := DoTurn(s, turns[0]);
      turns[0].arrivals + Late(s', turns[0]) + Arrived(s', turns[1..])
  }

  /** A failed round bars its build until the cooldown is over. */
  ghost predicate Barred(s: State) {
    forall i :: 0 <= i < |s.asks| && s.asks[i].Failed() ==>
      s.asks[i].build in s.cooldown && s.asks[i].failTime + COOLDOWN_SEC <= s.cooldown[s.asks[i].build]
  }

  ghost predicate Spaced(asks: seq<Ask>) {
    forall i, j :: 0 <= i < j < |asks| && asks[i].Failed() && asks[i].build == asks[j].build ==>
      asks[i].failTime + COOLDOWN_SEC <= asks[j].time
  }

  ghost predicate Faithful(s: State) {
    && EventsOf(s.published) == Events(s.taken)
    && DecodedOf(s.published) == AnsweredOf(s.asks)
    && Barred(s) && Spaced(s.asks)
  }

  ghost predicate ExitExplained(s: State) {
    && (s.exit == Terminated ==> s.queue == [])
    && (s.exit == Stopped <==> Stop in s.taken)
    && (s.exit == Stopped ==> s.taken[|s.taken| - 1] == Stop && Stop !in s.taken[..|s.taken| - 1])
  }

  ghost predicate Inv(s: State) {
    Faithful(s) && ExitExplained(s)
  }

  /** The clock does not run backwards within a turn. */
  predicate Sane(t: Turn) {
    t.checkTime <= t.failTime
  }

  lemma {:induction false} DecodeSpaced(s: State, event: nat, build: Build, t: Turn)
    requires Barred(s) && Spaced(s.asks) && Sane(t)
    ensures Barred(Decode(s, event, build, t).state) && Spaced(Decode(s, event, build, t).state.asks)
  {
  }

  lemma {:induction false} DecodeAnswers(s: State, event: nat, build: Build, t: Turn)
    ensures var o := Decode(s, event, build, t);
            && DecodedOf(s.published + [Published(event, o.decoded)]) ==
               DecodedOf(s.published) + (if o.decoded then [event] else [])
            && AnsweredOf(o.state.asks) == AnsweredOf(s.asks) + (if o.decoded then [event] else [])
            && EventsOf(s.published + [Published(event, o.decoded)]) == EventsOf(s.published) + [event]
  {
    var o := Decode(s, event, build, t);
    assert (s.published + [Published(event, o.decoded)])[..|s.published|] == s.published;
    if o.state.asks != s.asks {
      assert o.state.asks[..|s.asks|] == s.asks;
    }
  }

  lemma {:induction false} EventFaithful(s: State, job: Job, rest: seq<Job>, t: Turn)
    requires Faithful(s) && Sane(t) && job.Event?
    ensures Faithful(Publish(s.(queue := rest, taken := s.taken + [job]), job.event, job.build, t))
  {
    var s1 := s.(queue := rest, taken := s.taken + [job]);
    EventsAppend(s.taken, job);
    DecodeSpaced(s1, job.event, job.build, t);
    DecodeAnswers(s1, job.event, job.build, t);
  }

  /** A turn without an event. */
  lemma {:induction false} QuietTurn(s: State, t: Turn)
    requires var queue := s.queue + t.arrivals; s.exit != Running || t.getRaises || queue == [] || !queue[0].Event?
    ensures var s' := DoTurn(s, t);
            && s'.published == s.published && s'.asks == s.asks && s'.cooldown == s.cooldown
            && Events(s'.taken) == Events(s.taken)
  {
    var queue := s.queue + t.arrivals;
    if queue != [] {
      EventsAppend(s.taken, queue[0]);
    }
  }

  lemma {:induction false} TurnFaithful(s: State, t: Turn)
    requires Faithful(s) && Sane(t)
    ensures Faithful(DoTurn(s, t))
  {
    var queue := s.queue + t.arrivals;
    if s.exit != Running || t.getRaises || queue == [] || !queue[0].Event? {
      QuietTurn(s, t);
    } else {
      var s1 := s.(queue := queue[1..], taken := s.taken + [queue[0]]);
      EventFaithful(s, queue[0], queue[1..], t);
    }
  }

  lemma {:induction false} TurnExit(s: State, t: Turn)
    requires ExitExplained(s)
    ensures ExitExplained(DoTurn(s, t))
  {
    if s.exit == Running {
      TurnMoves(s, t);
      var s' := DoTurn(s, t);
      assert s'.taken != s.taken ==> s'.taken[..|s'.taken| - 1] == s.taken;
    }
  }

  lemma {:induction false} RunInv(s: State, turns: seq<Turn>)
    requires Inv(s) && forall k :: 0 <= k < |turns| ==> Sane(turns[k])
    ensures Inv(Run(s, turns))
    decreases turns
  {
    if turns != [] {
      TurnFaithful(s, turns[0]);
      TurnExit(s, turns[0]);
      RunInv(DoTurn(s, turns[0]), turns[1..]);
    }
  }

  /** The lookup of an issue for this job raises: it is an event of a known build that is not
      cooling down, and the service gave text for it. */
  ghost predicate LookupRaises(s: State, t: Turn, job: Job) {
    && job.Event? && job.build.Id? && t.checkTime >= Until(s.cooldown, job.build.id)
    && t.reply.Decoded? && t.lookupRaises
  }

  /** What the turn leaves queued at its end, if it gets there. */
  ghost function LeftQueued(s: State, t: Turn): seq<Job> {
    var queue := s.queue + t.arrivals;
    (if t.getRaises || queue == [] then queue else queue[1..]) + t.late
  }

  /** A turn ends the thread for one of three reasons: a stop mark at the head of the queue; an
      exception that says that something is closed; or, failing both, the termination event
      with nothing left on the queue. */
  ghost predicate ExitsBy(s: State, t: Turn, exit: Exit) {
    var queue := s.queue + t.arrivals;
    var stops := !t.getRaises && queue != [] && queue[0].Stop?;
    var closes := t.saysClosed && (t.getRaises || (queue != [] && LookupRaises(s, t, queue[0])));
    && (exit == Stopped <==> stops)
    && (exit == Closed <==> closes)
    && (exit == Terminated <==> !stops && !closes && t.terminating && LeftQueued(s, t) == [])
  }

  lemma {:induction false} TurnExits(s: State, t: Turn)
    requires s.exit == Running
    ensures ExitsBy(s, t, DoTurn(s, t).exit)
  {
  }

  /** What a turn keeps, from any state. */
  lemma {:induction false} TurnKeeps(s: State, t: Turn)
    requires s.exit == Running
    ensures ExitsBy(s, t, DoTurn(s, t).exit)
    ensures DoTurn(s, t).taken + DoTurn(s, t).queue == s.taken + s.queue + (t.arrivals + Late(DoTurn(s, t), t))
    ensures Sane(t) && Faithful(s) ==> Faithful(DoTurn(s, t))
    ensures ExitExplained(s) ==> ExitExplained(DoTurn(s, t))
  {
    TurnExits(s, t);
    TurnConserves(s, t);
    if Sane(t) && Faithful(s) {
      TurnFaithful(s, t);
    }
    if ExitExplained(s) {
      TurnExit(s, t);
    }
  }

  /** What arrives after the `get`: nothing once the thread has left its loop there. */
  function Late(s: State, t: Turn): seq<Job> {
    if s.exit == Running || s.exit == Terminated then t.late else []
  }

  /** A turn moves at most the head of the queue, and appends what arrives. */
  lemma {:induction false} TurnMoves(s: State, t: Turn)
    requires s.exit == Running
    ensures var s', queue := DoTurn(s, t), s.queue + t.arrivals;
            if t.getRaises || queue == [] then s'.taken == s.taken && s'.queue == queue + Late(s', t)
            else s'.taken == s.taken + [queue[0]] && s'.queue == queue[1..] + Late(s', t)
  {
  }

  lemma {:induction false} TurnConserves(s: State, t: Turn)
    requires s.exit == Running
    ensures DoTurn(s, t).taken + DoTurn(s, t).queue == s.taken + s.queue + (t.arrivals + Late(DoTurn(s, t), t))
  {
    TurnMoves(s, t);
    var queue := s.queue + t.arrivals;
    if queue != [] {
      assert queue == [queue[0]] + queue[1..];
    }
  }

  /** Jobs leave the queue in the order they came, none lost, none twice. */
  lemma {:induction false} RunConserves(s: State, turns: seq<Turn>)
    ensures Run(s, turns).taken + Run(s, turns).queue == s.taken + s.queue + Arrived(s, turns)
    decreases turns
  {
    if turns == [] {
    } else if s.exit != Running {
      RunOver(s, turns);
    } else {
      TurnConserves(s, turns[0]);
      RunConserves(DoTurn(s, turns[0]), turns[1..]);
    }
  }

  /** Every event taken off the queue is published once, in queue order, however decoding
      went, and decoded exactly when the service gave text for it; after a termination exit
      that is every event there was; after a stop mark, every event before it. */
  lemma {:induction false} EveryEventPublishedOnce(turns: seq<Turn>)
    requires forall k :: 0 <= k < |turns| ==> Sane(turns[k])
    ensures var s := Run(START, turns);
            && EventsOf(s.published) == Events(s.taken)
            && DecodedOf(s.published) == AnsweredOf(s.asks)
            && s.taken + s.queue == Arrived(START, turns)
            && (s.exit == Terminated ==> s.queue == [] && EventsOf(s.published) == Events(Arrived(START, turns)))
            && (s.exit == Stopped ==>
                  s.taken != [] && s.taken[|s.taken| - 1] == Stop && Stop !in s.taken[..|s.taken| - 1])
  {
    RunInv(START, turns);
    RunConserves(START, turns);
    var s := Run(START, turns);
    assert s.exit == Terminated ==> s.taken + s.queue == s.taken;
  }

  lemma {:induction false} RunLast(s: State, turns: seq<Turn>, k: nat)
    requires k < |turns|
    ensures Run(s, turns[..k + 1]) == DoTurn(Run(s, turns[..k]), turns[k])
    decreases k
  {
    if k > 0 {
      RunLast(DoTurn(s, turns[0]), turns[1..], k - 1);
      assert turns[1..][..k] == turns[..k + 1][1..] && turns[1..][..k - 1] == turns[..k][1..];
    } else {
      assert turns[..1] == [turns[0]] && turns[..0] == [];
      assert [turns[0]][1..] == [];
    }
  }

  /** In every run, each turn that is reached exits for the reason it has, and only then. */
  lemma RunExits(s: State, turns: seq<Turn>, k: nat)
    requires k < |turns| && Run(s, turns[..k]).exit == Running
    ensures ExitsBy(Run(s, turns[..k]), turns[k], Run(s, turns[..k + 1]).exit)
  {
    RunLast(s, turns, k);
    TurnExits(Run(s, turns[..k]), turns[k]);
  }

  /** The thread terminates only in a turn that finds the termination event set and leaves
      nothing queued. */
  lemma {:induction false} TerminatedHasCause(s: State, turns: seq<Turn>) returns (k: nat)
    requires s.exit == Running && Run(s, turns).exit == Terminated
    ensures k < |turns| && Run(s, turns[..k]).exit == Running && turns[k].terminating
    ensures Run(s, turns[..k + 1]) == Run(s, turns) && Run(s, turns).queue == []
    decreases turns
  {
    var s' := DoTurn(s, turns[0]);
    TurnExits(s, turns[0]);
    if s'.exit == Running {
      k := TerminatedHasCause(s', turns[1..]);
      assert turns[1..][..k] == turns[..k + 1][1..] && turns[1..][..k + 1] == turns[..k + 2][1..];
      k := k + 1;
    } else {
      k := 0;
      RunOver(s', turns[1..]);
      assert turns[..1] == [turns[0]] && [turns[0]][1..] == [] && turns[..0] == [];
    }
  }

  ghost predicate NoStop(jobs: seq<Job>) {
    forall i :: 0 <= i < |jobs| ==> !jobs[i].Stop?
  }

  /** Without a stop mark, a closed queue or a termination event the thread goes on, however
      often the queue runs empty. */
  lemma {:induction false} ThreadGoesOn(s: State, turns: seq<Turn>)
    requires s.exit == Running && NoStop(s.queue)
    requires forall k :: 0 <= k < |turns| ==>
               !turns[k].saysClosed && !turns[k].terminating && NoStop(turns[k].arrivals) && NoStop(turns[k].late)
    ensures Run(s, turns).exit == Running
    decreases turns
  {
    if turns != [] {
      TurnExits(s, turns[0]);
      TurnMoves(s, turns[0]);
      ThreadGoesOn(DoTurn(s, turns[0]), turns[1..]);
    }
  }

  /** The thread gives up on a closed queue only when an exception said so. */
  lemma {:induction false} ClosedHasCause(s: State, turns: seq<Turn>)
    requires s.exit == Running && Run(s, turns).exit == Closed
    ensures exists k :: 0 <= k < |turns| && turns[k].saysClosed && (turns[k].getRaises || turns[k].lookupRaises)
    decreases turns
  {
    if DoTurn(s, turns[0]).exit == Running {
      ClosedHasCause(DoTurn(s, turns[0]), turns[1..]);
      var rest := turns[1..];
      var k :| 0 <= k < |rest| && rest[k].saysClosed && (rest[k].getRaises || rest[k].lookupRaises);
      assert turns[k + 1] == rest[k];
    } else {
      RunOver(DoTurn(s, turns[0]), turns[1..]);
      assert turns[0].saysClosed;
    }
  }

  /** After a failed round the service is not asked about that build for 900 seconds. */
  lemma FailuresAreSpaced(turns: seq<Turn>, i: nat, j: nat)
    requires forall k :: 0 <= k < |turns| ==> Sane(turns[k])
    requires i < j < |Run(START, turns).asks|
    ensures var asks := Run(START, turns).asks;
            asks[i].Failed() && asks[i].build == asks[j].build ==> asks[j].time >= asks[i].failTime + 900
  {
    RunInv(START, turns);
  }

  /** Some failed round of `b` accounts for its cooldown. */
  ghost predicate Blamed(asks: seq<Ask>, b: string, until: int) {
    exists i :: 0 <= i < |asks| && asks[i].Failed() && asks[i].build == b && until == asks[i].failTime + COOLDOWN_SEC
  }

  ghost predicate Justified(s: State) {
    forall b :: b in s.cooldown ==> Blamed(s.asks, b, s.cooldown[b])
  }

  lemma BlamedAppend(asks: seq<Ask>, ask: Ask, b: string, until: int)
    requires Blamed(asks, b, until)
    ensures Blamed(asks + [ask], b, until)
  {
    var i :| 0 <= i < |asks| && asks[i].Failed() && asks[i].build == b && until == asks[i].failTime + COOLDOWN_SEC;
    assert (asks + [ask])[i] == asks[i];
  }

  lemma DecodeJustified(s: State, event: nat, build: Build, t: Turn)
    requires Justified(s)
    ensures Justified(Decode(s, event, build, t).state)
  {
    var s' := Decode(s, event, build, t).state;
    if s'.asks != s.asks {
      var ask := s'.asks[|s.asks|];
      forall b | b in s'.cooldown ensures Blamed(s'.asks, b, s'.cooldown[b]) {
        if b in s.cooldown && s'.cooldown[b] == s.cooldown[b] {
          BlamedAppend(s.asks, ask, b, s.cooldown[b]);
        } else {
          assert s'.asks[|s.asks|].build == b;
        }
      }
    }
  }

  lemma DecodeJustifiedIf(s: State, event: nat, build: Build, t: Turn)
    ensures Justified(s) ==> Justified(Decode(s, event, build, t).state)
  {
    if Justified(s) {
      DecodeJustified(s, event, build, t);
    }
  }

  lemma {:induction false} RunJustified(s: State, turns: seq<Turn>)
    requires Justified(s)
    ensures Justified(Run(s, turns))
    decreases turns
  {
    if turns != [] {
      var queue := s.queue + turns[0].arrivals;
      if s.exit == Running && !turns[0].getRaises && queue != [] && queue[0].Event? {
        var s1 := s.(queue := queue[1..], taken := s.taken + [queue[0]]);
        DecodeJustified(s1, queue[0].event, queue[0].build, turns[0]);
      }
      RunJustified(DoTurn(s, turns[0]), turns[1..]);
    }
  }

  /** A known build goes unasked only when a round for it failed less than 900 seconds ago. */
  lemma SkippedOnlyInCooldown(turns: seq<Turn>, event: nat, b: string, t: Turn)
    requires t.checkTime >= 0
    ensures var s := Run(START, turns);
            Decode(s, event, Id(b), t).state.asks == s.asks ==>
              exists i :: 0 <= i < |s.asks| && s.asks[i].Failed() && s.asks[i].build == b &&
                          t.checkTime < s.asks[i].failTime + 900
  {
    RunJustified(START, turns);
    var s := Run(START, turns);
    if t.checkTime < Until(s.cooldown, b) {
      assert Blamed(s.asks, b, s.cooldown[b]);
    }
  }
}
