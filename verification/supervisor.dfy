/** The child-process supervisor of devloop (server/cmd/devloop/proc.go) under the calling order of its
    run loop (server/cmd/devloop/main.go): one goroutine starts and stops the child, one reaper per
    started child waits for its exit, and all of them meet in the sections guarded by the mutex.

    Each section is a function of the guarded fields (`Fields`); the class `Supervisor` has the fields
    themselves. The protocol is `Enabled` and `Take`, over steps interleaved in any order. */
module Supervisor {
  import opened Options

  /** cmd, done and stopping. A generation numbers a started child, its cmd and its done channel. */
  datatype Fields = Fields(cmd: Option<nat>, done: Option<nat>, stopping: bool)

  function Started(f: Fields, gen: nat): Fields {
    Fields(Some(gen), Some(gen), false)
  }

  /** reportExit's section: whether to announce the exit. */
  function Reported(f: Fields): (Fields, bool) {
    if f.stopping then (f, false) else (f.(cmd := None), true)
  }

  function Marked(f: Fields): Fields {
    f.(stopping := true)
  }

  /** stop's section leaves this; it goes on with the old cmd and done. */
  function Stopped(f: Fields): Fields {
    f.(stopping := true, cmd := None)
  }

  class Supervisor {
    var cmd: Option<nat>
    var done: Option<nat>
    var stopping: bool

    function View(): Fields
      reads this
    {
      Fields(cmd, done, stopping)
    }

    constructor ()
      ensures View() == Fields(None, None, false)
    {
      cmd, done, stopping := None, None, false;
    }

    /** `launched` is what exec's Start answers; a failure leaves the fields alone. */
    method Start(gen: nat, launched: bool) returns (ok: bool)
      modifies this
      ensures ok == launched
      ensures View() == if launched then Started(old(View()), gen) else old(View())
    {
      if !launched {
        return false;
      }
      cmd := Some(gen);
      stopping := false;
      done := Some(gen);
      return true;
    }

    method ReportExit() returns (announce: bool)
      modifies this
      ensures (View(), announce) == Reported(old(View()))
    {
      var stop := stopping;
      if !stop {
        cmd := None;
      }
      return !stop;
    }

    method MarkStopping()
      modifies this
      ensures View() == Marked(old(View()))
    {
      stopping := true;
    }

    method BeginStop() returns (child: Option<nat>, exited: Option<nat>)
      modifies this
      ensures View() == Stopped(old(View()))
      ensures child == old(cmd) && exited == old(done)
    {
      child, exited := cmd, done;
      stopping := true;
      cmd := None;
    }
  }

  // ---- The protocol -----------------------------------------------------------------------------

  /** Where the reaper goroutine of one child is. */
  datatype Reaper =
    | Waiting    // in cmd.Wait
    | Exited     // Wait returned, reportExit's section is next
    | Announcing // decided to announce, the lock released
    | Closing    // close(done) is next
    | Closed

  datatype Child = Child(alive: bool, reaper: Reaper)

  /** Where the run loop is. `final` marks the shutdown, after which nothing is started. */
  datatype Loop =
    | Idle
    | ShuttingDown // markStopping is done, stop is next
    | Stopping(child: nat, exited: nat, killed: bool, final: bool)
    | Ready(final: bool) // stop has returned, or nothing was started yet

  /** What happened, in order. `Silenced(n)` is a stop or markStopping when n children had been started. */
  datatype Event = Silenced(started: nat) | Decided(gen: nat) | Announced(gen: nat)

  datatype State = State(children: seq<Child>, fields: Fields, loop: Loop, trace: seq<Event>)

  datatype Step =
    | Start(launched: bool)
    | ChildExits(gen: nat)
    | WaitReturns(gen: nat)
    | Report(gen: nat)
    | Announce(gen: nat)
    | CloseDone(gen: nat)
    | Mark
    | BeginStop
    | Kill
    | StopReturns

  const INITIAL := State([], Fields(None, None, false), Ready(false), [])

  predicate Enabled(s: State, step: Step) {
    match step
    case Start(_) => s.loop == Ready(false)
    case ChildExits(g) => g < |s.children| && s.children[g].alive
    case WaitReturns(g) => g < |s.children| && s.children[g].reaper.Waiting? && !s.children[g].alive
    case Report(g) => g < |s.children| && s.children[g].reaper.Exited?
    case Announce(g) => g < |s.children| && s.children[g].reaper.Announcing?
    case CloseDone(g) => g < |s.children| && s.children[g].reaper.Closing?
    case Mark => s.loop.Idle?
    case BeginStop => s.loop.Idle? || s.loop.ShuttingDown?
    case Kill => s.loop.Stopping? && !s.loop.killed
    case StopReturns => s.loop.Stopping? && s.loop.exited < |s.children| && s.children[s.loop.exited].reaper.Closed?
  }

  function MoveReaper(s: State, g: nat, to: Reaper): State
    requires g < |s.children|
  {
    s.(children := s.children[g := s.children[g].(reaper := to)])
  }

  function Take(s: State, step: Step): State
    requires Enabled(s, step)
  {
    match step
    case Start(launched) =>
      if launched then
        State(s.children + [Child(true, Waiting)], Started(s.fields, |s.children|), Idle, s.trace)
      else s.(loop := Idle)
    case ChildExits(g) => s.(children := s.children[g := s.children[g].(alive := false)])
    case WaitReturns(g) => MoveReaper(s, g, Exited)
    case Report(g) =>
      var (fields, announce) := Reported(s.fields);
      var next := MoveReaper(s, g, if announce then Announcing else Closing);
      next.(fields := fields, trace := if announce then s.trace + [Decided(g)] else s.trace)
    case Announce(g) => MoveReaper(s, g, Closing).(trace := s.trace + [Announced(g)])
    case CloseDone(g) => MoveReaper(s, g, Closed)
    case Mark =>
      s.(fields := Marked(s.fields), loop := ShuttingDown, trace := s.trace + [Silenced(|s.children|)])
    case BeginStop =>
      var final := s.loop.ShuttingDown?;
      var quiet := s.(fields := Stopped(s.fields), trace := s.trace + [Silenced(|s.children|)]);
      if s.fields.cmd.Some? && s.fields.done.Some? then
        quiet.(loop := Stopping(s.fields.cmd.value, s.fields.done.value, false, final))
      else quiet.(loop := Ready(final))
    case Kill => s.(loop := s.loop.(killed := true))
    case StopReturns => s.(loop := Ready(s.loop.final))
  }

  /** A run: steps taken one after the other, each enabled where it is taken. */
  ghost predicate Reaches(s: State, steps: seq<Step>, t: State)
    decreases |steps|
  {
    if steps == [] then s == t else Enabled(s, steps[0]) && Reaches(Take(s, steps[0]), steps[1..], t)
  }

  ghost predicate Reachable(s: State) {
    exists steps :: Reaches(INITIAL, steps, s)
  }

  // ---- What every interleaving keeps -------------------------------------------------------------

  /** The reaper has been through reportExit's section. */
  predicate Past(r: Reaper) {
    r.Announcing? || r.Closing? || r.Closed?
  }

  ghost predicate Protocol(s: State) {
    var n := |s.children|;
    && (forall g | 0 <= g < n :: s.children[g].alive ==> s.children[g].reaper.Waiting?)
    && (forall g | 0 <= g < n - 1 :: Past(s.children[g].reaper))
    && (s.fields.cmd.Some? ==>
          && s.fields.cmd == s.fields.done == Some(n - 1) && n > 0
          && if s.loop.Idle? then !s.fields.stopping && !Past(s.children[n - 1].reaper)
             else s.loop.ShuttingDown? && !s.children[n - 1].reaper.Announcing?)
    && (s.fields.cmd.None? && !s.loop.Stopping? && n > 0 ==> Past(s.children[n - 1].reaper))
    && (s.loop.ShuttingDown? ==> s.fields.stopping)
    && (s.loop.Ready? && n > 0 ==> s.fields.stopping)
    && (s.loop.Ready? ==> s.fields.cmd.None?)
    && (s.loop.Stopping? ==>
          && s.fields.cmd.None? && s.fields.stopping && n > 0
          && s.loop.child == s.loop.exited == n - 1
          && !s.children[n - 1].reaper.Announcing?)
  }

  /** An event of the trace agrees with the reapers: a decision is behind its reaper, and no reaper that has
      yet to decide has been silenced without `stopping` still standing. */
  ghost predicate EventAgrees(s: State, e: Event) {
    match e
    case Decided(g) => g < |s.children| && Past(s.children[g].reaper)
    case Announced(g) =>
      && g < |s.children| && (s.children[g].reaper.Closing? || s.children[g].reaper.Closed?)
      && Decided(g) in s.trace
    case Silenced(m) =>
      && m <= |s.children|
      && forall g | 0 <= g < m :: Past(s.children[g].reaper) || s.fields.stopping
  }

  ghost predicate TraceAgrees(s: State) {
    && (forall e | e in s.trace :: EventAgrees(s, e))
    && (forall g | 0 <= g < |s.children| && s.children[g].reaper.Announcing? :: Decided(g) in s.trace)
  }

  /** Each exit is decided and announced at most once, announced only after it is decided, and decided
      exactly before the stops and markStoppings of its generation. */
  ghost predicate QuietTrace(trace: seq<Event>) {
    && (forall i, j | 0 <= i < j < |trace| && !trace[i].Silenced? :: trace[i] != trace[j])
    && (forall i, j | 0 <= i < j < |trace| && trace[i].Silenced? && trace[j].Decided? ::
          trace[i].started <= trace[j].gen)
    && (forall i, j | 0 <= i < j < |trace| && trace[i].Decided? && trace[j].Silenced? ::
          trace[i].gen < trace[j].started)
    && (forall j | 0 <= j < |trace| && trace[j].Announced? :: Decided(trace[j].gen) in trace[..j])
  }

  lemma StepKeepsProtocol(s: State, step: Step)
    requires Protocol(s) && Enabled(s, step)
    ensures Protocol(Take(s, step))
  {
    if LoopStep(step) {
      LoopStepKeepsProtocol(s, step);
    } else {
      ReaperStepKeepsProtocol(s, step);
    }
  }

  /** A step of the run loop, rather than of a child or its reaper. */
  predicate LoopStep(step: Step) {
    step.Start? || step.Mark? || step.BeginStop? || step.Kill? || step.StopReturns?
  }

  lemma LoopStepKeepsProtocol(s: State, step: Step)
    requires Protocol(s) && Enabled(s, step) && LoopStep(step)
    ensures Protocol(Take(s, step))
  {
  }

  lemma ReaperStepKeepsProtocol(s: State, step: Step)
    requires Protocol(s) && Enabled(s, step) && !LoopStep(step)
    ensures Protocol(Take(s, step))
  {
  }

  lemma StepKeepsTrace(s: State, step: Step)
    requires Protocol(s) && TraceAgrees(s) && Enabled(s, step)
    ensures TraceAgrees(Take(s, step))
  {
    var t := Take(s, step);
    forall e | e in t.trace ensures EventAgrees(t, e) {
      if e in s.trace {
        OldEventAgrees(s, step, e);
      } else {
        NewEventAgrees(s, step, e);
      }
    }
  }

  lemma OldEventAgrees(s: State, step: Step, e: Event)
    requires Protocol(s) && Enabled(s, step) && e in s.trace && EventAgrees(s, e)
    ensures EventAgrees(Take(s, step), e)
  {
  }

  lemma NewEventAgrees(s: State, step: Step, e: Event)
    requires Protocol(s) && TraceAgrees(s) && Enabled(s, step) && e in Take(s, step).trace && e !in s.trace
    ensures EventAgrees(Take(s, step), e)
  {
    assert e == Take(s, step).trace[|s.trace|];
  }

  lemma StepKeepsQuiet(s: State, step: Step)
    requires Protocol(s) && TraceAgrees(s) && QuietTrace(s.trace) && Enabled(s, step)
    ensures QuietTrace(Take(s, step).trace)
  {
    var t := Take(s, step);
    if |t.trace| > |s.trace| {
      QuietAppend(s.trace, t.trace[|s.trace|]);
      assert t.trace == s.trace + [t.trace[|s.trace|]];
    }
  }

  lemma QuietAppend(trace: seq<Event>, e: Event)
    requires QuietTrace(trace)
    requires !e.Silenced? ==> e !in trace
    requires e.Decided? ==> forall m: nat | Silenced(m) in trace :: m <= e.gen
    requires e.Silenced? ==> forall g: nat | Decided(g) in trace :: g < e.started
    requires e.Announced? ==> Decided(e.gen) in trace
    ensures QuietTrace(trace + [e])
  {
    var longer := trace + [e];
    forall j | 0 <= j < |longer| && longer[j].Announced? ensures Decided(longer[j].gen) in longer[..j] {
      if j < |trace| {
        assert longer[..j] == trace[..j];
      } else {
        assert longer[..j] == trace;
      }
    }
    forall i, j | 0 <= i < j < |longer| && longer[i].Silenced? && longer[j].Decided?
      ensures longer[i].started <= longer[j].gen
    {
      if j == |trace| {
        assert Silenced(longer[i].started) in trace;
      }
    }
    forall i, j | 0 <= i < j < |longer| && longer[i].Decided? && longer[j].Silenced?
      ensures longer[i].gen < longer[j].started
    {
      if j == |trace| {
        assert Decided(longer[i].gen) in trace;
      }
    }
  }

  lemma {:induction false} RunKeeps(s: State, steps: seq<Step>, t: State)
    requires Protocol(s) && TraceAgrees(s) && QuietTrace(s.trace) && Reaches(s, steps, t)
    ensures Protocol(t) && TraceAgrees(t) && QuietTrace(t.trace)
    decreases |steps|
  {
    if steps != [] {
      StepKeepsProtocol(s, steps[0]);
      StepKeepsTrace(s, steps[0]);
      StepKeepsQuiet(s, steps[0]);
      RunKeeps(Take(s, steps[0]), steps[1..], t);
    }
  }

  /** Safety over every interleaving: at most one child is alive; once stop has returned none is, and each
      has been reaped; exits are reported as QuietTrace says; and the ones announced after a stop that their
      child was started before are the ones decided before that stop. */
  lemma Safety(s: State)
    requires Reachable(s)
    ensures forall g, h | 0 <= g < |s.children| && 0 <= h < |s.children| ::
              s.children[g].alive && s.children[h].alive ==> g == h
    ensures s.loop.Ready? ==>
              forall g | 0 <= g < |s.children| :: !s.children[g].alive && Past(s.children[g].reaper)
    ensures QuietTrace(s.trace)
    ensures forall i, j | 0 <= i < j < |s.trace| && s.trace[i].Silenced? && s.trace[j].Announced? ::
              s.trace[j].gen < s.trace[i].started <==> Decided(s.trace[j].gen) in s.trace[..i]
  {
    Invariants(s);
    forall i, j | 0 <= i < j < |s.trace| && s.trace[i].Silenced? && s.trace[j].Announced?
      ensures s.trace[j].gen < s.trace[i].started <==> Decided(s.trace[j].gen) in s.trace[..i]
    {
      LateAnnouncement(s, i, j);
    }
    assert forall g | 0 <= g < |s.children| :: s.children[g].alive ==> !Past(s.children[g].reaper);
  }

  lemma Invariants(s: State)
    requires Reachable(s)
    ensures Protocol(s) && TraceAgrees(s) && QuietTrace(s.trace)
  {
    var steps :| Reaches(INITIAL, steps, s);
    RunKeeps(INITIAL, steps, s);
  }

  /** A reaper only ever clears its own generation's cmd, and the done channel a stop waits on is the one
      of the child it took, which is gone when the wait is over. */
  lemma OwnGenerationOnly(s: State, step: Step)
    requires Reachable(s) && Enabled(s, step)
    ensures step.Report? && Take(s, step).fields.cmd != s.fields.cmd ==> s.fields.cmd == Some(step.gen)
    ensures step.StopReturns? ==> s.loop.child == s.loop.exited && !s.children[s.loop.child].alive
  {
    Invariants(s);
  }

  // ---- When a stop keeps exits quiet ---------------------------------------------------------------

  /** Child g is not about to be announced and never will be: its reaper has nothing left to announce, or
      will find `stopping` set. None of the events from n on announces it. */
  ghost predicate Quiet(s: State, g: nat, n: nat) {
    && g < |s.children| && n <= |s.trace|
    && !s.children[g].reaper.Announcing? && (Past(s.children[g].reaper) || s.fields.stopping)
    && Announced(g) !in s.trace[n..]
  }

  lemma StepKeepsQuietChild(s: State, step: Step, g: nat, n: nat)
    requires Protocol(s) && Quiet(s, g, n) && Enabled(s, step)
    ensures Quiet(Take(s, step), g, n)
  {
    var t := Take(s, step);
    assert |t.trace| > |s.trace| ==> t.trace[n..] == s.trace[n..] + [t.trace[|s.trace|]];
  }

  lemma {:induction false} RunKeepsQuietChild(s: State, steps: seq<Step>, t: State, g: nat, n: nat)
    requires Protocol(s) && Quiet(s, g, n) && Reaches(s, steps, t)
    ensures Quiet(t, g, n)
    decreases |steps|
  {
    if steps != [] {
      StepKeepsProtocol(s, steps[0]);
      StepKeepsQuietChild(s, steps[0], g, n);
      RunKeepsQuietChild(Take(s, steps[0]), steps[1..], t, g, n);
    }
  }

  /** From s to t a child that s has already started was announced. */
  ghost predicate Announces(s: State, t: State, g: nat) {
    g < |s.children| && |s.trace| <= |t.trace| && Announced(g) in t.trace[|s.trace|..]
  }

  /** Some run from s announces a child that s has already started. */
  ghost predicate AnnouncesLater(s: State) {
    exists steps, t, g: nat :: Reaches(s, steps, t) && Announces(s, t, g)
  }

  /** When a stop or markStopping keeps quiet, exactly: the exit of a child started before it is announced
      in some run from there if and only if, at the moment it takes the lock, some reaper has decided to
      announce and not yet printed. */
  lemma SilenceExactly(s: State, step: Step)
    requires Reachable(s) && Enabled(s, step) && (step.Mark? || step.BeginStop?)
    ensures AnnouncesLater(Take(s, step)) <==> exists g :: 0 <= g < |s.children| && s.children[g].reaper.Announcing?
  {
    Invariants(s);
    var q := Take(s, step);
    StepKeepsProtocol(s, step);
    if g: nat :| g < |s.children| && s.children[g].reaper.Announcing? {
      AnnouncesNext(q, g);
    } else if steps, t, g: nat :| Reaches(q, steps, t) && Announces(q, t, g) {
      RunKeepsQuietChild(q, steps, t, g, |q.trace|);
    }
  }

  lemma AnnouncesNext(q: State, g: nat)
    requires g < |q.children| && q.children[g].reaper.Announcing?
    ensures AnnouncesLater(q)
  {
    var t := Take(q, Announce(g));
    var steps := StepFirst(q, Announce(g), [], t);
    assert t.trace[|q.trace|..] == [Announced(g)];
    assert Announces(q, t, g);
  }

  /** A stop that found a child to wait for never has that child's exit announced: not before, and not in
      any run from there, however long after stop has returned. */
  lemma StoppedChildStaysSilent(s: State, steps: seq<Step>, t: State)
    requires Reachable(s) && s.loop.Stopping? && Reaches(s, steps, t)
    ensures Decided(s.loop.child) !in s.trace && Announced(s.loop.child) !in t.trace
  {
    var before :| Reaches(INITIAL, before, s);
    StoppingUndecided(INITIAL, before, s);
    Invariants(s);
    assert Announced(s.loop.child) !in s.trace;
    assert s.trace[0..] == s.trace;
    RunKeepsQuietChild(s, steps, t, s.loop.child, 0);
    assert t.trace[0..] == t.trace;
  }

  ghost predicate Undecided(s: State) {
    && (s.fields.cmd.Some? ==> Decided(s.fields.cmd.value) !in s.trace)
    && (s.loop.Stopping? ==> Decided(s.loop.child) !in s.trace)
  }

  lemma {:induction false} StoppingUndecided(s: State, steps: seq<Step>, t: State)
    requires Protocol(s) && TraceAgrees(s) && QuietTrace(s.trace) && Undecided(s) && Reaches(s, steps, t)
    ensures Undecided(t) && TraceAgrees(t)
    decreases |steps|
  {
    if steps != [] {
      StepKeepsProtocol(s, steps[0]);
      StepKeepsTrace(s, steps[0]);
      StepKeepsQuiet(s, steps[0]);
      StoppingUndecided(Take(s, steps[0]), steps[1..], t);
    }
  }

  /** The announcement itself is printed outside the lock, so it may come after a stop: one that does is of a
      child started before that stop if and only if its exit was decided before that stop. */
  lemma LateAnnouncement(s: State, i: nat, j: nat)
    requires Reachable(s) && i < j < |s.trace|
    requires s.trace[i].Silenced? && s.trace[j].Announced?
    ensures s.trace[j].gen < s.trace[i].started <==> Decided(s.trace[j].gen) in s.trace[..i]
  {
    Invariants(s);
    var gen := s.trace[j].gen;
    if gen < s.trace[i].started {
      var d :| 0 <= d < j && s.trace[..j][d] == Decided(gen);
      assert s.trace[d].Decided? && s.trace[d].gen < s.trace[i].started;
      assert s.trace[..i][d] == s.trace[d];
    }
    forall d | 0 <= d < i && s.trace[..i][d] == Decided(gen) ensures gen < s.trace[i].started {
      assert s.trace[d].Decided?;
    }
  }

  /** It does happen: the child exits on its own, its reaper decides, a stop finds nothing to wait for
      and returns, and only then is the exit announced. */
  lemma AnnouncedAfterStop() returns (steps: seq<Step>, s: State)
    ensures Reaches(INITIAL, steps, s)
    ensures s.trace == [Decided(0), Silenced(1), Announced(0)] && s.loop.Ready?
  {
    var s1 := Take(INITIAL, Start(true));
    var s2 := Take(s1, ChildExits(0));
    var s3 := Take(s2, WaitReturns(0));
    var s4 := Take(s3, Report(0));
    var s5 := Take(s4, BeginStop);
    s := Take(s5, Announce(0));
    var tail := StepFirst(s5, Announce(0), [], s);
    tail := StepFirst(s4, BeginStop, tail, s);
    tail := StepFirst(s3, Report(0), tail, s);
    tail := StepFirst(s2, WaitReturns(0), tail, s);
    tail := StepFirst(s1, ChildExits(0), tail, s);
    steps := StepFirst(INITIAL, Start(true), tail, s);
  }

  lemma StepFirst(s: State, step: Step, rest: seq<Step>, t: State) returns (steps: seq<Step>)
    requires Enabled(s, step) && Reaches(Take(s, step), rest, t)
    ensures Reaches(s, steps, t)
  {
    steps := [step] + rest;
    assert steps[1..] == rest;
  }

  /** How far the child a stop waits for is from closing its done channel. */
  function Distance(s: State): nat
    requires s.loop.Stopping? && s.loop.exited < |s.children|
  {
    var child := s.children[s.loop.exited];
    match child.reaper
    case Waiting => if child.alive then 5 else 4
    case Exited => 3
    case Announcing => 2
    case Closing => 1
    case Closed => 0
  }

  /** The step that brings the child a stop waits for closer. */
  function NextExitStep(s: State): Step
    requires s.loop.Stopping? && s.loop.exited < |s.children|
  {
    var g := s.loop.exited;
    match s.children[g].reaper
    case Waiting => if s.children[g].alive then ChildExits(g) else WaitReturns(g)
    case Exited => Report(g)
    case Announcing => Announce(g)
    case Closing => CloseDone(g)
    case Closed => StopReturns
  }

  /** stop is never stuck: until it can return, the exit of its child or the next step of that child's
      reaper is enabled and brings it closer, and no other step takes it further away. */
  lemma StopMakesProgress(s: State, step: Step)
    requires Reachable(s) && s.loop.Stopping? && Enabled(s, step)
    ensures s.loop.exited < |s.children| && Enabled(s, NextExitStep(s))
    ensures step == NextExitStep(s) && !step.StopReturns? ==>
              && Take(s, step).loop == s.loop && |Take(s, step).children| == |s.children|
              && Distance(Take(s, step)) < Distance(s)
    ensures NextExitStep(s).StopReturns? <==> Distance(s) == 0
    ensures Take(s, step).loop.Stopping? ==>
              && Take(s, step).loop.exited == s.loop.exited
              && |s.children| <= |Take(s, step).children| && Distance(Take(s, step)) <= Distance(s)
  {
    Invariants(s);
  }

  // ---- Starting again --------------------------------------------------------------------------------

  /** The shutdown has begun: markStopping, then stop, and nothing after it. */
  predicate ShutDown(s: State) {
    s.loop.ShuttingDown? || (s.loop.Stopping? && s.loop.final) || s.loop == Ready(true)
  }

  /** After a shutdown nothing is started any more. */
  lemma {:induction false} NoStartAfterShutdown(s: State, steps: seq<Step>, t: State)
    requires ShutDown(s) && Reaches(s, steps, t)
    ensures ShutDown(t) && |t.children| == |s.children|
    decreases |steps|
  {
    if steps != [] {
      NoStartAfterShutdown(Take(s, steps[0]), steps[1..], t);
    }
  }

  /** Some run from s starts one more child, which becomes the supervised one. */
  ghost predicate CanStartNext(s: State) {
    exists steps, t :: Reaches(s, steps, t) && StartedNext(s, t)
  }

  ghost predicate StartedNext(s: State, t: State) {
    && |t.children| == |s.children| + 1 && t.children[|s.children|].alive
    && t.fields == Fields(Some(|s.children|), Some(|s.children|), false)
  }

  /** A rebuild restarts: unless a shutdown has begun, the child can always be stopped and the next started,
      wherever its exit and its reaper stand. */
  lemma Restarts(s: State)
    requires Reachable(s) && !ShutDown(s)
    ensures CanStartNext(s)
  {
    Invariants(s);
    if s.loop.Idle? {
      var q := Take(s, BeginStop);
      StepKeepsProtocol(s, BeginStop);
      RestartsFrom(q);
      StepThenStart(s, BeginStop, q);
    } else {
      RestartsFrom(s);
    }
  }

  lemma {:induction false} RestartsFrom(s: State)
    requires Protocol(s) && (s.loop == Ready(false) || (s.loop.Stopping? && !s.loop.final))
    ensures CanStartNext(s)
    decreases s.loop.Stopping?, if s.loop.Stopping? && s.loop.exited < |s.children| then Distance(s) else 0
  {
    if s.loop.Stopping? {
      var step := NextExitStep(s);
      var q := Take(s, step);
      StepKeepsProtocol(s, step);
      RestartsFrom(q);
      StepThenStart(s, step, q);
    } else {
      var t := Take(s, Start(true));
      var steps := StepFirst(s, Start(true), [], t);
      assert StartedNext(s, t);
    }
  }

  lemma StepThenStart(s: State, step: Step, q: State)
    requires Enabled(s, step) && q == Take(s, step) && |q.children| == |s.children| && CanStartNext(q)
    ensures CanStartNext(s)
  {
    var rest, t :| Reaches(q, rest, t) && StartedNext(q, t);
    var steps := StepFirst(s, step, rest, t);
    assert StartedNext(s, t);
  }

  /** Some run from s ends the shutdown, starting nothing more. */
  ghost predicate CanFinish(s: State) {
    exists steps, t :: Reaches(s, steps, t) && Finished(s, t)
  }

  ghost predicate Finished(s: State, t: State) {
    t.loop == Ready(true) && |t.children| == |s.children|
  }

  /** A shutdown can begin whenever the loop waits, and one that has begun can always end. */
  lemma ShutdownEnds(s: State)
    requires Reachable(s) && (s.loop.Idle? || ShutDown(s))
    ensures CanFinish(s)
  {
    Invariants(s);
    FinishesFrom(s);
  }

  lemma {:induction false} FinishesFrom(s: State)
    requires Protocol(s) && (s.loop.Idle? || ShutDown(s))
    ensures CanFinish(s)
    decreases if s.loop.Idle? then 3 else if s.loop.ShuttingDown? then 2 else if s.loop.Stopping? then 1 else 0,
              if s.loop.Stopping? && s.loop.exited < |s.children| then Distance(s) else 0
  {
    if s.loop == Ready(true) {
      assert Reaches(s, [], s) && Finished(s, s);
    } else {
      var step := if s.loop.Idle? then Mark else if s.loop.ShuttingDown? then BeginStop else NextExitStep(s);
      var q := Take(s, step);
      StepKeepsProtocol(s, step);
      FinishesFrom(q);
      var rest, t :| Reaches(q, rest, t) && Finished(q, t);
      var steps := StepFirst(s, step, rest, t);
      assert Finished(s, t);
    }
  }

  // ---- What stop leaves behind ------------------------------------------------------------------------

  /** A reaper that is past its section and has not closed its done channel decided to announce, or is the one
      the supervisor still holds, or the one a stop waits for. */
  ghost predicate Drained(s: State) {
    forall g | 0 <= g < |s.children| && Past(s.children[g].reaper) && !s.children[g].reaper.Closed? ::
      Decided(g) in s.trace || s.fields.cmd == Some(g) || (s.loop.Stopping? && s.loop.exited == g)
  }

  lemma {:induction false} RunKeepsDrained(s: State, steps: seq<Step>, t: State)
    requires Protocol(s) && Drained(s) && Reaches(s, steps, t)
    ensures Drained(t)
    decreases |steps|
  {
    if steps != [] {
      StepKeepsProtocol(s, steps[0]);
      StepKeepsDrained(s, steps[0]);
      RunKeepsDrained(Take(s, steps[0]), steps[1..], t);
    }
  }

  lemma StepKeepsDrained(s: State, step: Step)
    requires Protocol(s) && Drained(s) && Enabled(s, step)
    ensures Drained(Take(s, step))
  {
  }

  /** Once stop has returned, the done channel of every child is closed, so its output is drained, unless the
      child exited on its own and its reaper is still announcing that. */
  lemma StopDrains(s: State)
    requires Reachable(s) && s.loop.Ready?
    ensures forall g | 0 <= g < |s.children| :: s.children[g].reaper.Closed? || Decided(g) in s.trace
  {
    Invariants(s);
    var steps :| Reaches(INITIAL, steps, s);
    RunKeepsDrained(INITIAL, steps, s);
  }

  /** A launch that fails leaves no child and nothing to stop, and the loop goes on. */
  lemma FailedStart(s: State)
    requires Reachable(s) && s.loop == Ready(false)
    ensures var t := Take(s, Start(false));
            t.children == s.children && t.fields.cmd == None && t.loop.Idle? && Take(t, BeginStop).loop == Ready(false)
  {
    Invariants(s);
  }
}
