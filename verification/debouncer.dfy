/** devloop's rebuild pipeline (server/cmd/devloop/main.go): file events reset a debounce timer, its
    tick drops a token in a one-slot channel, and the run loop takes the token and builds.

    The debounce goroutine, the run loop, the timer and the file system take steps in any order. */
module Debouncer {
  /** A time.Timer as debounce sees it: nil or not, running, and its channel holding a tick. */
  datatype Timer = Timer(present: bool, running: bool, ticked: bool)

  const NO_TIMER := Timer(false, false, false)

  /** resetTimer: stop, drain the channel if the timer had already fired, start again. */
  function Reset(t: Timer): Timer {
    if !t.present then Timer(true, true, false)
    else Timer(true, true, t.ticked && t.running)
  }

  /** The debounce goroutine's variables and the channel it sends on. */
  class Debounce {
    var timer: Timer
    var token: bool

    constructor ()
      ensures timer == NO_TIMER && !token
    {
      timer, token := NO_TIMER, false;
    }

    method OnRelevantEvent()
      modifies `timer
      ensures timer == Reset(old(timer))
      ensures !old(timer.running && timer.ticked) ==> timer.present && timer.running && !timer.ticked
    {
      if !timer.present {
        timer := Timer(true, true, false);
        return;
      }
      var stopped := timer.running;
      timer := timer.(running := false);
      if !stopped {
        timer := timer.(ticked := false);
      }
      timer := timer.(running := true);
    }

    method OnTick()
      requires timer.present && timer.ticked
      modifies this
      ensures timer == NO_TIMER && token
    {
      timer := NO_TIMER;
      if !token {
        token := true;
      }
    }
  }

  /** A save is a number; `events` are the watcher's undelivered events, None for an irrelevant one;
      `uncovered` are the saves no build has started after. */
  datatype State = State(
    saves: nat, uncovered: set<nat>, events: seq<Event>, timer: Timer, token: bool, building: bool)

  datatype Event = Relevant(save: nat) | Irrelevant

  const INITIAL := State(0, {}, [], NO_TIMER, false, false)

  datatype Step =
    | Save             // a watched source file changes
    | OtherChange      // some other file changes
    | Deliver          // debounce receives the oldest event
    | Fire             // the timer runs out
    | ReceiveTick      // debounce receives the tick
    | StartBuild       // the run loop receives the token
    | FinishBuild      // the build, and the restart after it, are over

  predicate Enabled(s: State, step: Step) {
    match step
    case Save => true
    case OtherChange => true
    case Deliver => s.events != []
    case Fire => s.timer.running
    case ReceiveTick => s.timer.present && s.timer.ticked
    case StartBuild => s.token && !s.building
    case FinishBuild => s.building
  }

  function Take(s: State, step: Step): State
    requires Enabled(s, step)
  {
    match step
    case Save =>
      s.(saves := s.saves + 1, uncovered := s.uncovered + {s.saves}, events := s.events + [Relevant(s.saves)])
    case OtherChange => s.(events := s.events + [Irrelevant])
    case Deliver =>
      var rest := s.(events := s.events[1..]);
      if s.events[0].Relevant? then rest.(timer := Reset(s.timer)) else rest
    case Fire => s.(timer := s.timer.(running := false, ticked := true))
    case ReceiveTick => s.(timer := NO_TIMER, token := true)
    case StartBuild => s.(token := false, building := true, uncovered := {})
    case FinishBuild => s.(building := false)
  }

  ghost predicate Reaches(s: State, steps: seq<Step>, t: State)
    decreases |steps|
  {
    if steps == [] then s == t else Enabled(s, steps[0]) && Reaches(Take(s, steps[0]), steps[1..], t)
  }

  /** A rebuild is on its way: the timer is running, its tick waits, or a token is queued. */
  predicate Pending(s: State) {
    s.timer.running || s.timer.ticked || s.token
  }

  ghost predicate NoSaveLost(s: State) {
    && (s.timer.running || s.timer.ticked ==> s.timer.present)
    && !(s.timer.running && s.timer.ticked)
    && forall save | save in s.uncovered :: Relevant(save) in s.events || Pending(s)
  }

  lemma StepLosesNothing(s: State, step: Step)
    requires NoSaveLost(s) && Enabled(s, step)
    ensures NoSaveLost(Take(s, step))
  {
    var t := Take(s, step);
    assert step.Deliver? ==> s.events == [s.events[0]] + t.events;
    forall save | save in t.uncovered ensures Relevant(save) in t.events || Pending(t) {
      if save in s.uncovered && Relevant(save) in s.events && step.Deliver? {
        assert Relevant(save) == s.events[0] || Relevant(save) in t.events;
      }
    }
  }

  /** No save is lost: in every reachable state a relevant change that no build has started after has its
      event still to be delivered, or a rebuild is on its way; also while a build runs or the channel is
      full. */
  lemma {:induction false} RunLosesNothing(s: State, steps: seq<Step>, t: State)
    requires NoSaveLost(s) && Reaches(s, steps, t)
    ensures NoSaveLost(t)
    decreases |steps|
  {
    if steps != [] {
      StepLosesNothing(s, steps[0]);
      RunLosesNothing(Take(s, steps[0]), steps[1..], t);
    }
  }

  lemma ReachableLosesNothing(steps: seq<Step>, s: State)
    requires Reaches(INITIAL, steps, s)
    ensures NoSaveLost(s)
  {
    RunLosesNothing(INITIAL, steps, s);
  }

  predicate FileStep(step: Step) {
    step.Save? || step.OtherChange?
  }

  /** Bounds the steps the pipeline can take when no file changes. */
  function Backlog(s: State): nat {
    8 * |s.events|
    + (if s.timer.running then 4 else 0) + (if s.timer.ticked then 3 else 0)
    + (if s.token then 2 else 0) + (if s.building then 1 else 0)
  }

  /** Once the files are left alone every run is finite, and where it can go no further a build has
      started after every save. */
  lemma {:induction false} QuietRunCoversAll(s: State, steps: seq<Step>, t: State)
    requires NoSaveLost(s) && Reaches(s, steps, t)
    requires forall step | step in steps :: !FileStep(step)
    ensures |steps| + Backlog(t) <= Backlog(s)
    ensures (forall step | Enabled(t, step) :: FileStep(step)) ==> t.uncovered == {}
    decreases |steps|
  {
    if steps != [] {
      assert steps[0] in steps;
      StepLosesNothing(s, steps[0]);
      QuietRunCoversAll(Take(s, steps[0]), steps[1..], t);
    } else if forall step | Enabled(t, step) :: FileStep(step) {
      assert !Enabled(t, Deliver) && !Enabled(t, Fire) && !Enabled(t, ReceiveTick);
      assert !Enabled(t, StartBuild) && !Enabled(t, FinishBuild);
    }
  }

  /** A relevant event starts the window anew, whatever the timer was doing; an irrelevant one leaves timer and
      token alone. */
  lemma DeliverExactly(steps: seq<Step>, s: State)
    requires Reaches(INITIAL, steps, s) && s.events != []
    ensures var t := Take(s, Deliver);
            && t.events == s.events[1..] && t.token == s.token && t.building == s.building
            && t.uncovered == s.uncovered
            && (s.events[0].Relevant? ==> t.timer == Timer(true, true, false))
            && (s.events[0].Irrelevant? ==> t.timer == s.timer)
  {
    ReachableLosesNothing(steps, s);
  }

  /** How many steps of a run satisfy p. */
  function Count(steps: seq<Step>, p: Step -> bool): nat {
    if steps == [] then 0 else (if p(steps[0]) then 1 else 0) + Count(steps[1..], p)
  }

  function RelevantEvents(events: seq<Event>): nat {
    if events == [] then 0 else (if events[0].Relevant? then 1 else 0) + RelevantEvents(events[1..])
  }

  /** The builds still to come from what has happened so far, at most. */
  function Coming(s: State): nat {
    RelevantEvents(s.events) + (if s.timer.running || s.timer.ticked then 1 else 0) + (if s.token then 1 else 0)
  }

  lemma {:induction false} OneMoreEvent(events: seq<Event>, e: Event)
    ensures RelevantEvents(events + [e]) == RelevantEvents(events) + if e.Relevant? then 1 else 0
  {
    if events == [] {
      assert events + [e] == [e] && [e][1..] == [];
    } else {
      assert (events + [e])[0] == events[0] && (events + [e])[1..] == events[1..] + [e];
      OneMoreEvent(events[1..], e);
    }
  }

  /** Saves are folded into builds, never multiplied: no run builds more often than files were saved, and one
      without a save never builds. */
  lemma {:induction false} NoBuildWithoutSave(s: State, steps: seq<Step>, t: State)
    requires NoSaveLost(s) && Reaches(s, steps, t)
    ensures Count(steps, (step: Step) => step.StartBuild?) + Coming(t)
            <= Count(steps, (step: Step) => step.Save?) + Coming(s)
    decreases |steps|
  {
    if steps != [] {
      var step := steps[0];
      StepLosesNothing(s, step);
      if step.Save? {
        OneMoreEvent(s.events, Relevant(s.saves));
      } else if step.OtherChange? {
        OneMoreEvent(s.events, Irrelevant);
      }
      NoBuildWithoutSave(Take(s, step), steps[1..], t);
    }
  }

  /** Builds never overlap: at any point of a run all builds started are finished but the one under way. */
  lemma {:induction false} BuildsDoNotOverlap(s: State, steps: seq<Step>, t: State)
    requires Reaches(s, steps, t)
    ensures Count(steps, (step: Step) => step.StartBuild?) + (if s.building then 1 else 0)
            == Count(steps, (step: Step) => step.FinishBuild?) + (if t.building then 1 else 0)
    decreases |steps|
  {
    if steps != [] {
      BuildsDoNotOverlap(Take(s, steps[0]), steps[1..], t);
    }
  }
}
