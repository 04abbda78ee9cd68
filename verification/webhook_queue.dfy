/** The webhook queue of the scenario driver (server/cmd/scenariodriver/receiver.go): payloads, a notify
    channel that each append closes and replaces, and waiters that look at the payloads and then park.

    Notify channels are numbered: channel n is the one open while n payloads are queued. */
module WebhookQueue {
  import opened Options

  type Payload = map<string, string>

  class ChannelQueue {
    var payloads: seq<Payload>
    var notify: nat
    var closed: set<nat>

    ghost predicate Valid()
      reads this
    {
      notify == |payloads| && forall n: nat :: n in closed <==> n < |payloads|
    }

    constructor ()
      ensures Valid() && payloads == []
    {
      payloads, notify, closed := [], 0, {};
    }

    /** Closes the open channel, after replacing it. */
    method Append(payload: Payload)
      requires Valid()
      modifies this
      ensures Valid() && payloads == old(payloads) + [payload]
      ensures notify == old(notify) + 1 && closed == old(closed) + {old(notify)}
    {
      payloads := payloads + [payload];
      var old' := notify;
      notify := notify + 1;
      closed := closed + {old'};
    }

    /** All payloads, one for each channel that has been closed: a channel read later is at least as new. */
    method Snapshot() returns (out: seq<Payload>)
      requires Valid()
      ensures out == payloads
      ensures forall n: nat :: n in closed <==> n < |out|
    {
      out := payloads;
    }

    /** The one open channel, numbered by the payloads queued: every older one is closed. */
    method NotifyChan() returns (channel: nat)
      requires Valid()
      ensures channel == |payloads| && channel !in closed
      ensures forall n: nat | n < channel :: n in closed
    {
      channel := notify;
    }
  }

  // ---- One waiter against any number of senders ---------------------------------------------------------

  /** Where WaitForEvent is. `seen` is how many payloads its last snapshot held; none of them matched once
      it is past looking. */
  datatype Waiter =
    | Looking                            // about to take a snapshot
    | Looked(seen: nat)                  // the snapshot held no match
    | Parked(seen: nat, channel: nat)    // waiting on a notify channel
    | Matched(at: nat)                   // returned nil
    | Cancelled

  /** The order of the waiter's two reads: the source's, or the channel before the snapshot. */
  datatype Order = SnapshotFirst | ChannelFirst

  /** `held` is the channel a ChannelFirst waiter read before it looks. */
  datatype State = State(payloads: seq<Payload>, waiter: Waiter, held: Option<nat>)

  datatype Step =
    | Append(payload: Payload)
    | ReadChannel // ChannelFirst only
    | Look
    | Park
    | Wake
    | Cancel

  const INITIAL := State([], Looking, None)

  predicate Closed(s: State, channel: nat) {
    channel < |s.payloads|
  }

  /** The first payload that matches, or None. */
  function FirstMatch(payloads: seq<Payload>, matches: Payload -> bool, from: nat): (r: Option<nat>)
    requires from <= |payloads|
    ensures r.Some? ==> from <= r.value < |payloads| && matches(payloads[r.value])
    ensures r.None? ==> forall i | from <= i < |payloads| :: !matches(payloads[i])
    decreases |payloads| - from
  {
    if from == |payloads| then None
    else if matches(payloads[from]) then Some(from)
    else FirstMatch(payloads, matches, from + 1)
  }

  predicate Enabled(s: State, order: Order, step: Step) {
    match step
    case Append(_) => true
    case ReadChannel => order == ChannelFirst && s.waiter.Looking? && s.held.None?
    case Look => s.waiter.Looking? && (order == ChannelFirst ==> s.held.Some?)
    case Park => s.waiter.Looked? && (order == ChannelFirst ==> s.held.Some?)
    case Wake => s.waiter.Parked? && Closed(s, s.waiter.channel)
    case Cancel => s.waiter.Looked? || s.waiter.Parked?
  }

  function Take(s: State, order: Order, matches: Payload -> bool, step: Step): State
    requires Enabled(s, order, step)
  {
    match step
    case Append(payload) => s.(payloads := s.payloads + [payload])
    case ReadChannel => s.(held := Some(|s.payloads|))
    case Look =>
      var found := FirstMatch(s.payloads, matches, 0);
      s.(waiter := if found.Some? then Matched(found.value) else Looked(|s.payloads|))
    case Park =>
      var channel := if order == ChannelFirst then s.held.value else |s.payloads|;
      s.(waiter := Parked(s.waiter.seen, channel), held := None)
    case Wake => s.(waiter := Looking)
    case Cancel => s.(waiter := Cancelled)
  }

  ghost predicate Reaches(s: State, order: Order, matches: Payload -> bool, steps: seq<Step>, t: State)
    decreases |steps|
  {
    if steps == [] then s == t
    else Enabled(s, order, steps[0]) && Reaches(Take(s, order, matches, steps[0]), order, matches, steps[1..], t)
  }

  /** What the waiter knows: everything it has seen failed to match, and the order of its two reads bounds
      the channel it parks on by what it saw. */
  ghost predicate WaiterKnows(s: State, order: Order, matches: Payload -> bool) {
    && (s.waiter.Looked? || s.waiter.Parked? ==>
          s.waiter.seen <= |s.payloads| && forall i | 0 <= i < s.waiter.seen :: !matches(s.payloads[i]))
    && (s.waiter.Parked? ==>
          && s.waiter.channel <= |s.payloads|
          && if order == SnapshotFirst then s.waiter.seen <= s.waiter.channel else s.waiter.channel <= s.waiter.seen)
    && (s.waiter.Matched? ==> s.waiter.at < |s.payloads| && matches(s.payloads[s.waiter.at]))
    && (s.held.Some? ==> s.held.value <= |s.payloads| && (s.waiter.Looked? ==> s.held.value <= s.waiter.seen))
  }

  lemma {:induction false} WaiterAlwaysKnows(
    s: State, order: Order, matches: Payload -> bool, steps: seq<Step>, t: State)
    requires WaiterKnows(s, order, matches) && Reaches(s, order, matches, steps, t)
    ensures WaiterKnows(t, order, matches)
    decreases |steps|
  {
    if steps != [] {
      WaiterAlwaysKnows(Take(s, order, matches, steps[0]), order, matches, steps[1..], t);
    }
  }

  /** A match is queued, and the waiter is parked on a channel still open. */
  ghost predicate LostWakeup(s: State, matches: Payload -> bool) {
    && s.waiter.Parked? && !Closed(s, s.waiter.channel)
    && exists i | 0 <= i < |s.payloads| :: matches(s.payloads[i])
  }

  /** WaitForEvent returns nil only for a payload that matches. A parked waiter that nothing will wake has
      examined every queued payload but those appended between its snapshot and its channel read; it has
      missed a match exactly when one of these matches. */
  lemma WakeupCharacterised(matches: Payload -> bool, steps: seq<Step>, s: State)
    requires Reaches(INITIAL, SnapshotFirst, matches, steps, s)
    ensures s.waiter.Matched? ==> s.waiter.at < |s.payloads| && matches(s.payloads[s.waiter.at])
    ensures s.waiter.Parked? && !Closed(s, s.waiter.channel) ==>
              && s.waiter.seen <= s.waiter.channel == |s.payloads|
              && (forall i | 0 <= i < s.waiter.seen :: !matches(s.payloads[i]))
              && (LostWakeup(s, matches) <==>
                  exists i | s.waiter.seen <= i < s.waiter.channel :: matches(s.payloads[i]))
  {
    WaiterAlwaysKnows(INITIAL, SnapshotFirst, matches, steps, s);
    if s.waiter.Parked? && !Closed(s, s.waiter.channel) && LostWakeup(s, matches) {
      var i :| 0 <= i < |s.payloads| && matches(s.payloads[i]);
      assert s.waiter.seen <= i;
    }
  }

  /** Reading the channel before the snapshot loses no wakeup. */
  lemma ChannelFirstLosesNone(matches: Payload -> bool, steps: seq<Step>, s: State)
    requires Reaches(INITIAL, ChannelFirst, matches, steps, s)
    ensures !LostWakeup(s, matches)
    ensures s.waiter.Parked? && !Closed(s, s.waiter.channel) ==> s.waiter.seen == |s.payloads|
  {
    WaiterAlwaysKnows(INITIAL, ChannelFirst, matches, steps, s);
  }

  /** The source's order loses one: the match arrives between the snapshot and the channel read. */
  lemma SnapshotFirstLosesOne(matches: Payload -> bool, payload: Payload) returns (steps: seq<Step>, s: State)
    requires matches(payload)
    ensures Reaches(INITIAL, SnapshotFirst, matches, steps, s) && LostWakeup(s, matches)
  {
    steps := [Look, Append(payload), Park];
    var s1 := Take(INITIAL, SnapshotFirst, matches, Look);
    var s2 := Take(s1, SnapshotFirst, matches, Append(payload));
    s := Take(s2, SnapshotFirst, matches, Park);
    assert s.payloads == [payload];
    assert steps[1..] == [Append(payload), Park] && steps[1..][1..] == [Park] && [Park][1..] == [];
    assert Reaches(s2, SnapshotFirst, matches, [Park], s);
    assert Reaches(s1, SnapshotFirst, matches, steps[1..], s);
    assert matches(s.payloads[0]);
  }

  /** A woken waiter looks again: one parked on a closed channel while a match is queued finds it, in two steps
      of its own; one that is looking finds it in one. */
  lemma WokenFinds(matches: Payload -> bool, s: State, i: nat)
    requires i < |s.payloads| && matches(s.payloads[i])
    requires s.waiter.Looking? || (s.waiter.Parked? && Closed(s, s.waiter.channel))
    ensures exists steps, t :: && Reaches(s, SnapshotFirst, matches, steps, t) && |steps| <= 2
                               && t.payloads == s.payloads && t.waiter.Matched? && t.waiter.at <= i
  {
    FirstMatchIsFirst(s.payloads, matches, 0);
    var woken := if s.waiter.Parked? then Take(s, SnapshotFirst, matches, Wake) else s;
    var t := Take(woken, SnapshotFirst, matches, Look);
    assert [Look][1..] == [];
    assert Reaches(woken, SnapshotFirst, matches, [Look], t);
    if s.waiter.Parked? {
      assert [Wake, Look][1..] == [Look];
      assert Reaches(s, SnapshotFirst, matches, [Wake, Look], t);
    }
  }

  /** Every append closes the channel a waiter is parked on, if it was open. */
  lemma AppendWakes(matches: Payload -> bool, steps: seq<Step>, s: State, payload: Payload)
    requires Reaches(INITIAL, SnapshotFirst, matches, steps, s) && s.waiter.Parked?
    ensures var t := Take(s, SnapshotFirst, matches, Append(payload));
            t.waiter == s.waiter && Closed(t, s.waiter.channel)
  {
    WaiterAlwaysKnows(INITIAL, SnapshotFirst, matches, steps, s);
  }

  /** Of the queued payloads the waiter returns for the first that matches. */
  lemma {:induction false} FirstMatchIsFirst(payloads: seq<Payload>, matches: Payload -> bool, from: nat)
    requires from <= |payloads|
    ensures var r := FirstMatch(payloads, matches, from);
            r.Some? ==> forall j | from <= j < r.value :: !matches(payloads[j])
    decreases |payloads| - from
  {
    if from < |payloads| && !matches(payloads[from]) {
      FirstMatchIsFirst(payloads, matches, from + 1);
    }
  }
}
