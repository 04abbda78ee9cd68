/** The run_script tool of an AI authoring loop and its page tools
    (server/internal/aichecks/tools.go, server/internal/aichecks/runner.go): what each outbound call may
    reach once a run had real secret values, and which script the loop hands back.

    What the outside answers (the grant `prepare` gives, how a run ends) is a parameter of each call. */
module RunRecorder {
  import opened Options

  /** A scriptRun: what ran, whether it returned up, and whether it was marked final. */
  datatype ScriptRun = ScriptRun(script: string, up: bool, final: bool)

  datatype Grant = Grant(secrets: map<string, string>, hosts: seq<string>)

  /** How Runner.run ends: the script's verdict, the allowlist's refusal, or another error. */
  datatype Outcome = Ran(up: bool) | HostRefused | RunError

  /** One outbound call: the allowlist it was given, whether it was held to it, and whether it had real
      secret values. */
  datatype Call = Call(hosts: seq<string>, held: bool, secret: bool)

  /** The text functions the recorder uses: strings.TrimSpace and fencedScript. */
  datatype Texts = Texts(trim: string -> string, fenced: string -> string)

  datatype Reply = Stop | CouldNotRun | DidNotPass | WriteTheWholeCheck

  /** The runs the recorder remembers, and all it recorded. */
  datatype Log = Log(
    last: Option<ScriptRun>, lastFinal: Option<ScriptRun>, lastUp: Option<ScriptRun>, ups: map<string, ScriptRun>,
    runs: seq<ScriptRun>)

  /** The seal, and all the calls made. */
  datatype Seal = Seal(sealed: bool, hosts: seq<string>, calls: seq<Call>)

  datatype State = State(log: Log, seal: Seal, refused: bool, nudges: nat, invitedToStop: bool)

  const INITIAL := State(Log(None, None, None, map[], []), Seal(false, [], []), false, 0, false)

  const MAX_NUDGES: nat := 2

  predicate HasSecretValues(secrets: map<string, string>) {
    exists name | name in secrets :: secrets[name] != ""
  }

  /** Runner.run applies the allowlist when it is told to, and always with a real value. */
  predicate Restricted(call: Call) {
    call.held || call.secret
  }

  // ---- The methods as functions of the state --------------------------------------------------------

  function Recorded(log: Log, run: ScriptRun): Log {
    log.(last := Some(run), lastFinal := if run.final then Some(run) else log.lastFinal, runs := log.runs + [run])
  }

  /** What a run leaves behind: a passing one is also kept by its trimmed text. */
  function Kept(log: Log, texts: Texts, run: ScriptRun): Log {
    var r := Recorded(log, run);
    if !run.up then r
    else r.(ups := r.ups[texts.trim(run.script) := run], lastUp := if run.final then Some(run) else r.lastUp)
  }

  /** The call of a run: with a real value it seals the loop and gets its own hosts, without it gets
      what the loop is held to. */
  function RunCall(seal: Seal, grant: Grant): Seal {
    if HasSecretValues(grant.secrets) then
      Seal(true, seal.hosts + grant.hosts, seal.calls + [Call(grant.hosts, true, true)])
    else HeldCall(seal)
  }

  function HeldCall(seal: Seal): Seal {
    seal.(calls := seal.calls + [Call(seal.hosts, seal.sealed, false)])
  }

  /** rec.run, and whether the tool answers with a result rather than an error. */
  function RanScript(
    s: State, texts: Texts, script: string, final: bool, grant: Option<Grant>, outcome: Outcome): (State, bool)
  {
    if texts.trim(script) == "" || grant.None? then (s, false)
    else
      var run := ScriptRun(script, outcome.Ran? && outcome.up, final);
      var next := s.(
        seal := RunCall(s.seal, grant.value), log := Kept(s.log, texts, run),
        refused := s.refused || outcome.HostRefused?);
      (next, outcome.Ran?)
  }

  function Fetched(s: State, blankURL: bool, outcome: Outcome): State {
    if blankURL then s else s.(seal := HeldCall(s.seal), refused := s.refused || outcome.HostRefused?)
  }

  predicate Done(s: State) {
    s.log.last.Some? && s.log.last.value.final && s.log.last.value.up
  }

  function Nudged(s: State, texts: Texts, text: string, grant: Option<Grant>, outcome: Outcome): (State, Reply) {
    if Done(s) || s.nudges >= MAX_NUDGES then (s, Stop)
    else
      var n := s.(nudges := s.nudges + 1);
      var script := texts.fenced(text);
      if script != "" && script !in s.log.ups then
        var (after, ok) := RanScript(n, texts, script, true, grant, outcome);
        (after, if !ok then CouldNotRun else if Done(after) then Stop else DidNotPass)
      else if script != "" || s.invitedToStop then (n, Stop)
      else (n.(invitedToStop := true), WriteTheWholeCheck)
  }

  /** passing: the script the loop produced, `answer` being the model's last text if the loop returned. */
  function Passing(s: State, texts: Texts, answer: Option<string>): Option<ScriptRun> {
    if s.log.lastUp.Some? then s.log.lastUp
    else if answer.None? || texts.fenced(answer.value) == "" || texts.fenced(answer.value) !in s.log.ups then None
    else Some(s.log.ups[texts.fenced(answer.value)])
  }

  /** attempt: the run to show when nothing passed, the last final one if there is one. */
  function Attempt(s: State): Option<ScriptRun> {
    if s.log.lastFinal.Some? then s.log.lastFinal else s.log.last
  }

  class Recorder {
    const texts: Texts
    var last: Option<ScriptRun>
    var lastFinal: Option<ScriptRun>
    var lastUp: Option<ScriptRun>
    var ups: map<string, ScriptRun>
    var refused: bool
    var sealed: bool
    var sealedHosts: seq<string>
    var nudges: nat
    var invitedToStop: bool
    ghost var calls: seq<Call>
    ghost var runs: seq<ScriptRun>

    ghost function View(): State
      reads this
    {
      State(
        Log(last, lastFinal, lastUp, ups, runs), Seal(sealed, sealedHosts, calls), refused, nudges, invitedToStop)
    }

    constructor (texts: Texts)
      ensures View() == INITIAL && this.texts == texts
    {
      this.texts := texts;
      last, lastFinal, lastUp, ups := None, None, None, map[];
      refused, sealed, sealedHosts, nudges, invitedToStop := false, false, [], 0, false;
      calls, runs := [], [];
    }

    method SealTo(hosts: seq<string>)
      modifies `sealed, `sealedHosts
      ensures sealed && sealedHosts == old(sealedHosts) + hosts
    {
      sealed := true;
      sealedHosts := sealedHosts + hosts;
    }

    method Record(run: ScriptRun)
      modifies `last, `lastFinal, `runs
      ensures View() == old(View()).(log := Recorded(old(View()).log, run))
    {
      last := Some(run);
      if run.final {
        lastFinal := Some(run);
      }
      runs := runs + [run];
    }

    method Run(script: string, final: bool, grant: Option<Grant>, outcome: Outcome) returns (ok: bool)
      modifies this
      ensures (View(), ok) == RanScript(old(View()), texts, script, final, grant, outcome)
    {
      if texts.trim(script) == "" {
        return false;
      }
      if grant.None? {
        return false;
      }
      var secret := HasSecretValues(grant.value.secrets);
      var hosts, held := grant.value.hosts, true;
      if secret {
        SealTo(hosts);
      } else {
        hosts, held := sealedHosts, sealed;
      }
      calls := calls + [Call(hosts, held, secret)];
      if outcome == HostRefused {
        refused := true;
      }
      if !outcome.Ran? {
        Record(ScriptRun(script, false, final));
        return false;
      }
      Keep(ScriptRun(script, outcome.up, final));
      return true;
    }

    /** What a run that returned leaves behind. */
    method Keep(run: ScriptRun)
      modifies `last, `lastFinal, `lastUp, `ups, `runs
      ensures View() == old(View()).(log := Kept(old(View()).log, texts, run))
    {
      Record(run);
      if run.up {
        ups := ups[texts.trim(run.script) := run];
        if run.final {
          lastUp := Some(run);
        }
      }
    }

    /** fetch_page and browser_snapshot. */
    method Page(blankURL: bool, outcome: Outcome)
      modifies this
      ensures View() == Fetched(old(View()), blankURL, outcome)
    {
      if blankURL {
        return;
      }
      calls := calls + [Call(sealedHosts, sealed, false)];
      if outcome == HostRefused {
        refused := true;
      }
    }

    predicate IsDone()
      reads this
    {
      last.Some? && last.value.final && last.value.up
    }

    method Nudge(text: string, grant: Option<Grant>, outcome: Outcome) returns (reply: Reply)
      modifies this
      ensures (View(), reply) == Nudged(old(View()), texts, text, grant, outcome)
    {
      if IsDone() || nudges >= MAX_NUDGES {
        return Stop;
      }
      nudges := nudges + 1;
      var script := texts.fenced(text);
      if script != "" && script !in ups {
        var ok := Run(script, true, grant, outcome);
        if !ok {
          return CouldNotRun;
        }
        if IsDone() {
          return Stop;
        }
        return DidNotPass;
      }
      if script != "" || invitedToStop {
        return Stop;
      }
      invitedToStop := true;
      return WriteTheWholeCheck;
    }
  }

  // ---- Runs of a loop ---------------------------------------------------------------------------------

  datatype Op =
    | RunTool(script: string, final: bool, grant: Option<Grant>, outcome: Outcome)
    | PageTool(blankURL: bool, outcome: Outcome)
    | NudgeHook(text: string, grant: Option<Grant>, outcome: Outcome)

  function Step(s: State, texts: Texts, op: Op): State {
    match op
    case RunTool(script, final, grant, outcome) => RanScript(s, texts, script, final, grant, outcome).0
    case PageTool(blankURL, outcome) => Fetched(s, blankURL, outcome)
    case NudgeHook(text, grant, outcome) => Nudged(s, texts, text, grant, outcome).0
  }

  function Steps(s: State, texts: Texts, ops: seq<Op>): State
    decreases |ops|
  {
    if ops == [] then s else Steps(Step(s, texts, ops[0]), texts, ops[1..])
  }

  // ---- Sealing is permanent -----------------------------------------------------------------------------

  function HostSet(hosts: seq<string>): set<string> {
    set host | host in hosts
  }

  predicate AnySecret(calls: seq<Call>) {
    exists call | call in calls :: call.secret
  }

  /** The hosts granted to the runs with real values among these calls. */
  function Granted(calls: seq<Call>): set<string> {
    if calls == [] then {}
    else
      var last := calls[|calls| - 1];
      Granted(calls[..|calls| - 1]) + if last.secret then HostSet(last.hosts) else {}
  }

  /** From the first call with real values on, every call is restricted, to hosts granted to such calls up
      to then; before it none is. */
  ghost predicate SealedFromFirst(calls: seq<Call>) {
    calls == [] ||
      var last := calls[|calls| - 1];
      && SealedFromFirst(calls[..|calls| - 1])
      && (Restricted(last) <==> AnySecret(calls))
      && (Restricted(last) ==> HostSet(last.hosts) <= Granted(calls))
  }

  ghost predicate SealAgrees(seal: Seal) {
    && (seal.sealed <==> AnySecret(seal.calls))
    && HostSet(seal.hosts) == Granted(seal.calls)
    && SealedFromFirst(seal.calls)
  }

  lemma CallKeepsSeal(seal: Seal, call: Call, next: Seal)
    requires SealAgrees(seal)
    requires var more := if call.secret then call.hosts else [];
             next == Seal(seal.sealed || call.secret, seal.hosts + more, seal.calls + [call])
    requires call.secret || call == Call(seal.hosts, seal.sealed, false)
    ensures SealAgrees(next)
  {
    var n := |seal.calls|;
    assert next.calls[..n] == seal.calls && next.calls[n] == call;
    assert forall c :: c in next.calls <==> c in seal.calls || c == call;
    assert HostSet(next.hosts) == HostSet(seal.hosts) + if call.secret then HostSet(call.hosts) else {};
  }

  lemma RunKeepsSeal(seal: Seal, grant: Grant)
    requires SealAgrees(seal)
    ensures SealAgrees(RunCall(seal, grant)) && SealAgrees(HeldCall(seal))
  {
    assert seal.hosts + [] == seal.hosts;
    CallKeepsSeal(seal, Call(seal.hosts, seal.sealed, false), HeldCall(seal));
    if HasSecretValues(grant.secrets) {
      CallKeepsSeal(seal, Call(grant.hosts, true, true), RunCall(seal, grant));
    }
  }

  /** What one step does to the seal. */
  lemma StepSeal(s: State, texts: Texts, op: Op)
    ensures var seal := Step(s, texts, op).seal;
            || seal == s.seal || seal == HeldCall(s.seal)
            || (!op.PageTool? && op.grant.Some? && seal == RunCall(s.seal, op.grant.value))
  {
  }

  /** Sealing is permanent: in any trace of script runs, page fetches, snapshots and nudges, from the first
      run given a real secret value on every outbound call is held to an allowlist within the hosts granted
      to such runs, and no call is held before. */
  lemma {:induction false} SealingIsPermanent(s: State, texts: Texts, ops: seq<Op>)
    requires SealAgrees(s.seal)
    ensures SealAgrees(Steps(s, texts, ops).seal)
    decreases |ops|
  {
    if ops != [] {
      var op := ops[0];
      StepSeal(s, texts, op);
      RunKeepsSeal(s.seal, if !op.PageTool? && op.grant.Some? then op.grant.value else Grant(map[], []));
      SealingIsPermanent(Step(s, texts, op), texts, ops[1..]);
    }
  }

  /** The same, call by call: once call i had real values, call j after it (or i itself) is restricted, to
      hosts some grant with real values named. */
  lemma LoopIsSealed(texts: Texts, ops: seq<Op>, i: nat, j: nat)
    requires var calls := Steps(INITIAL, texts, ops).seal.calls; i <= j < |calls| && calls[i].secret
    ensures var calls := Steps(INITIAL, texts, ops).seal.calls;
            Restricted(calls[j]) && HostSet(calls[j].hosts) <= Granted(calls)
  {
    SealingIsPermanent(INITIAL, texts, ops);
    SealedAt(Steps(INITIAL, texts, ops).seal.calls, i, j);
  }

  lemma {:induction false} SealedAt(calls: seq<Call>, i: nat, j: nat)
    requires SealedFromFirst(calls) && i <= j < |calls| && calls[i].secret
    ensures Restricted(calls[j]) && HostSet(calls[j].hosts) <= Granted(calls)
  {
    if j < |calls| - 1 {
      SealedAt(calls[..|calls| - 1], i, j);
    }
  }

  // ---- When a loop is sealed, told from its operations ----------------------------------------------------

  /** A grant of real values: some secret is not blank. */
  ghost predicate RealGrant(grant: Option<Grant>) {
    grant.Some? && exists name | name in grant.value.secrets :: grant.value.secrets[name] != ""
  }

  /** The script a nudge runs: the fenced one of the answer, unless the loop is done, was nudged twice, or
      saw it pass. */
  ghost predicate NudgeRuns(s: State, texts: Texts, text: string) {
    && !(s.log.last.Some? && s.log.last.value.final && s.log.last.value.up) && s.nudges < 2
    && texts.fenced(text) != "" && texts.fenced(text) !in s.log.ups
  }

  /** The operation runs a script that is not blank, as granted. */
  ghost predicate RunsScript(s: State, texts: Texts, op: Op) {
    match op
    case RunTool(script, _, grant, _) => grant.Some? && texts.trim(script) != ""
    case NudgeHook(text, grant, _) =>
      grant.Some? && NudgeRuns(s, texts, text) && texts.trim(texts.fenced(text)) != ""
    case PageTool(_, _) => false
  }

  /** It runs one with real secret values. */
  ghost predicate RunsWithSecrets(s: State, texts: Texts, op: Op) {
    RunsScript(s, texts, op) && !op.PageTool? && RealGrant(op.grant)
  }

  /** The hosts granted to the operations that run with real values. */
  ghost function RealHosts(s: State, texts: Texts, ops: seq<Op>): set<string>
    decreases |ops|
  {
    if ops == [] then {}
    else
      (if RunsWithSecrets(s, texts, ops[0]) then HostSet(ops[0].grant.value.hosts) else {})
      + RealHosts(Step(s, texts, ops[0]), texts, ops[1..])
  }

  /** The call is held, to some of these hosts. */
  ghost predicate HeldWithin(call: Call, hosts: set<string>) {
    call.held && forall host | host in call.hosts :: host in hosts
  }

  /** What one operation does to the seal and the calls: nothing if it reaches nothing; one call, of the
      granted hosts and sealing the loop, if it runs a script with real values; one call held as the loop is
      if it fetches a page or runs a script without. */
  lemma StepCalls(s: State, texts: Texts, op: Op)
    ensures var next := Step(s, texts, op).seal;
            if RunsWithSecrets(s, texts, op) then
              && next.sealed && next.hosts == s.seal.hosts + op.grant.value.hosts
              && |next.calls| == |s.seal.calls| + 1 && next.calls[..|s.seal.calls|] == s.seal.calls
              && next.calls[|s.seal.calls|].held && next.calls[|s.seal.calls|].hosts == op.grant.value.hosts
            else if RunsScript(s, texts, op) || (op.PageTool? && !op.blankURL) then
              && next.sealed == s.seal.sealed && next.hosts == s.seal.hosts
              && |next.calls| == |s.seal.calls| + 1 && next.calls[..|s.seal.calls|] == s.seal.calls
              && next.calls[|s.seal.calls|].held == s.seal.sealed && next.calls[|s.seal.calls|].hosts == s.seal.hosts
            else next == s.seal
  {
  }

  /** Once sealed within some hosts, all later calls are held within them and those granted later. */
  lemma {:induction false} StaysSealed(s: State, texts: Texts, ops: seq<Op>, hosts: set<string>)
    requires s.seal.sealed && (forall host | host in s.seal.hosts :: host in hosts)
    requires RealHosts(s, texts, ops) <= hosts
    ensures var calls := Steps(s, texts, ops).seal.calls;
            && |s.seal.calls| <= |calls| && calls[..|s.seal.calls|] == s.seal.calls
            && forall j | |s.seal.calls| <= j < |calls| :: HeldWithin(calls[j], hosts)
    decreases |ops|
  {
    if ops != [] {
      StepCalls(s, texts, ops[0]);
      var next := Step(s, texts, ops[0]);
      StaysSealed(next, texts, ops[1..], hosts);
      var calls := Steps(next, texts, ops[1..]).seal.calls;
      var n := |s.seal.calls|;
      assert calls[..n] == calls[..|next.seal.calls|][..n];
      if |next.seal.calls| > n {
        assert calls[n] == calls[..|next.seal.calls|][n] == next.seal.calls[n];
      }
    }
  }

  lemma {:induction false} StepsConcat(s: State, texts: Texts, ops: seq<Op>, more: seq<Op>)
    ensures Steps(s, texts, ops + more) == Steps(Steps(s, texts, ops), texts, more)
    ensures RealHosts(s, texts, ops + more)
            == RealHosts(s, texts, ops) + RealHosts(Steps(s, texts, ops), texts, more)
    decreases |ops|
  {
    if ops == [] {
      assert ops + more == more;
    } else {
      assert (ops + more)[0] == ops[0] && (ops + more)[1..] == ops[1..] + more;
      StepsConcat(Step(s, texts, ops[0]), texts, ops[1..], more);
    }
  }

  /** Sealing starts with the first real value: when operation i runs a script with one, its own call and
      every later one is held, to hosts granted to such operations. */
  lemma SealedFromRun(texts: Texts, ops: seq<Op>, i: nat)
    requires i < |ops| && RunsWithSecrets(Steps(INITIAL, texts, ops[..i]), texts, ops[i])
    ensures var before, calls := Steps(INITIAL, texts, ops[..i]).seal.calls, Steps(INITIAL, texts, ops).seal.calls;
            && |before| < |calls| && calls[|before|].hosts == ops[i].grant.value.hosts
            && forall j | |before| <= j < |calls| :: HeldWithin(calls[j], RealHosts(INITIAL, texts, ops))
  {
    var s := Steps(INITIAL, texts, ops[..i]);
    var hosts := RealHosts(INITIAL, texts, ops);
    assert ops[..i] + ops[i..] == ops;
    StepsConcat(INITIAL, texts, ops[..i], ops[i..]);
    SealedBefore(INITIAL, texts, ops[..i]);
    StepCalls(s, texts, ops[i]);
    assert ops[i..][0] == ops[i] && ops[i..][1..] == ops[i + 1..];
    SealedSuffix(s, texts, ops[i], ops[i + 1..], hosts);
  }

  lemma SealedSuffix(s: State, texts: Texts, op: Op, more: seq<Op>, hosts: set<string>)
    requires RunsWithSecrets(s, texts, op) && (forall host | host in s.seal.hosts :: host in hosts)
    requires HostSet(op.grant.value.hosts) <= hosts && RealHosts(Step(s, texts, op), texts, more) <= hosts
    ensures var n, calls := |s.seal.calls|, Steps(Step(s, texts, op), texts, more).seal.calls;
            && n < |calls| && calls[n].hosts == op.grant.value.hosts
            && forall j | n <= j < |calls| :: HeldWithin(calls[j], hosts)
  {
    StepCalls(s, texts, op);
    var next := Step(s, texts, op);
    assert forall host | host in op.grant.value.hosts :: host in HostSet(op.grant.value.hosts);
    StaysSealed(next, texts, more, hosts);
    var calls, n := Steps(next, texts, more).seal.calls, |s.seal.calls|;
    assert calls[n] == calls[..n + 1][n] == next.seal.calls[n];
  }

  /** What the loop is held to always comes from the operations. */
  lemma {:induction false} SealedBefore(s: State, texts: Texts, ops: seq<Op>)
    ensures forall host | host in Steps(s, texts, ops).seal.hosts ::
              host in s.seal.hosts || host in RealHosts(s, texts, ops)
    decreases |ops|
  {
    if ops != [] {
      StepCalls(s, texts, ops[0]);
      SealedBefore(Step(s, texts, ops[0]), texts, ops[1..]);
    }
  }

  /** No operation of the run has real values. */
  ghost predicate NoSecrets(s: State, texts: Texts, ops: seq<Op>)
    decreases |ops|
  {
    ops == [] || (!RunsWithSecrets(s, texts, ops[0]) && NoSecrets(Step(s, texts, ops[0]), texts, ops[1..]))
  }

  /** And not before: as long as no operation runs with real values, no call is held or gets a host list. */
  lemma {:induction false} OpenUntilSecrets(s: State, texts: Texts, ops: seq<Op>)
    requires !s.seal.sealed && s.seal.hosts == [] && NoSecrets(s, texts, ops)
    requires forall call | call in s.seal.calls :: !call.held && call.hosts == []
    ensures var seal := Steps(s, texts, ops).seal;
            && !seal.sealed && seal.hosts == []
            && forall call | call in seal.calls :: !call.held && call.hosts == []
    decreases |ops|
  {
    if ops != [] {
      StepCalls(s, texts, ops[0]);
      var calls, next := s.seal.calls, Step(s, texts, ops[0]).seal.calls;
      if |next| > |calls| {
        assert next == next[..|calls|] + [next[|calls|]];
      }
      OpenUntilSecrets(Step(s, texts, ops[0]), texts, ops[1..]);
    }
  }

  /** prepare of a repair loop: a refusal, or always the same secrets and hosts. */
  predicate GrantsOnly(op: Op, grant: Grant) {
    op.PageTool? || op.grant == None || op.grant == Some(grant)
  }

  /** Each of these calls that is restricted may reach exactly these hosts. */
  ghost predicate HeldExactly(seal: Seal, hosts: set<string>) {
    && (if seal.sealed then HostSet(seal.hosts) == hosts else seal.hosts == [])
    && (forall call | call in seal.calls && Restricted(call) :: HostSet(call.hosts) == hosts)
  }

  lemma RunHeldExactly(seal: Seal, grant: Grant)
    requires HeldExactly(seal, HostSet(grant.hosts))
    ensures HeldExactly(RunCall(seal, grant), HostSet(grant.hosts))
    ensures HeldExactly(HeldCall(seal), HostSet(grant.hosts))
  {
    assert HostSet(seal.hosts + grant.hosts) == HostSet(seal.hosts) + HostSet(grant.hosts);
  }

  /** In a repair loop the allowlist of every held call is exactly the one grant. */
  lemma {:induction false} RepairLoopHeldExactly(s: State, texts: Texts, ops: seq<Op>, grant: Grant)
    requires forall op | op in ops :: GrantsOnly(op, grant)
    requires HeldExactly(s.seal, HostSet(grant.hosts))
    ensures HeldExactly(Steps(s, texts, ops).seal, HostSet(grant.hosts))
    decreases |ops|
  {
    if ops != [] {
      assert GrantsOnly(ops[0], grant);
      StepSeal(s, texts, ops[0]);
      RunHeldExactly(s.seal, grant);
      RepairLoopHeldExactly(Step(s, texts, ops[0]), texts, ops[1..], grant);
    }
  }

  // ---- A success is never lost or invented ----------------------------------------------------------------

  /** The latest passing final run. */
  function LatestFinal(runs: seq<ScriptRun>): Option<ScriptRun> {
    if runs == [] then None
    else
      var run := runs[|runs| - 1];
      if run.up && run.final then Some(run) else LatestFinal(runs[..|runs| - 1])
  }

  /** The latest final run, passing or not. */
  function LatestMarked(runs: seq<ScriptRun>): Option<ScriptRun> {
    if runs == [] then None
    else
      var run := runs[|runs| - 1];
      if run.final then Some(run) else LatestMarked(runs[..|runs| - 1])
  }

  /** The latest passing run of a script, by its trimmed text. */
  function LatestUp(runs: seq<ScriptRun>, texts: Texts, script: string): Option<ScriptRun> {
    if runs == [] then None
    else
      var run := runs[|runs| - 1];
      if run.up && texts.trim(run.script) == script then Some(run) else LatestUp(runs[..|runs| - 1], texts, script)
  }

  ghost predicate LogAgrees(log: Log, texts: Texts) {
    && log.lastUp == LatestFinal(log.runs)
    && (log.last == if log.runs == [] then None else Some(log.runs[|log.runs| - 1]))
    && log.lastFinal == LatestMarked(log.runs)
    && (forall script :: LatestUp(log.runs, texts, script) == if script in log.ups then Some(log.ups[script]) else None)
  }

  lemma KeptAgrees(log: Log, texts: Texts, run: ScriptRun)
    requires LogAgrees(log, texts)
    ensures LogAgrees(Kept(log, texts, run), texts)
  {
    assert (log.runs + [run])[..|log.runs|] == log.runs;
  }

  /** What one step does to the log. */
  lemma StepLog(s: State, texts: Texts, op: Op)
    ensures var log := Step(s, texts, op).log;
            log == s.log || exists run :: log == Kept(s.log, texts, run)
  {
    var (script, final) :=
      match op
      case RunTool(script, final, _, _) => (script, final)
      case PageTool(_, _) => ("", false)
      case NudgeHook(text, _, _) => (texts.fenced(text), true);
    var run := ScriptRun(script, op.outcome.Ran? && op.outcome.up, final);
    assert Step(s, texts, op).log == s.log || Step(s, texts, op).log == Kept(s.log, texts, run);
  }

  lemma {:induction false} StepsAgree(s: State, texts: Texts, ops: seq<Op>)
    requires LogAgrees(s.log, texts)
    ensures LogAgrees(Steps(s, texts, ops).log, texts)
    ensures s.log.runs <= Steps(s, texts, ops).log.runs
    decreases |ops|
  {
    if ops != [] {
      var next := Step(s, texts, ops[0]);
      StepLog(s, texts, ops[0]);
      if next.log != s.log {
        var run :| next.log == Kept(s.log, texts, run);
        KeptAgrees(s.log, texts, run);
      }
      StepsAgree(next, texts, ops[1..]);
    }
  }

  lemma {:induction false} LatestIsRecorded(runs: seq<ScriptRun>, texts: Texts, script: string)
    ensures LatestFinal(runs).None? <==> forall run | run in runs :: !(run.up && run.final)
    ensures LatestFinal(runs).Some? ==>
              LatestFinal(runs).value in runs && LatestFinal(runs).value.up && LatestFinal(runs).value.final
    ensures LatestUp(runs, texts, script).Some? ==>
              var run := LatestUp(runs, texts, script).value;
              run in runs && run.up && texts.trim(run.script) == script
  {
    if runs != [] {
      var n := |runs| - 1;
      LatestIsRecorded(runs[..n], texts, script);
      assert runs == runs[..n] + [runs[n]];
    }
  }

  /** A success is never lost or invented. Once any final run has passed, passing is the latest such run,
      whatever probes, nudges, failures or refusals came after; otherwise it is the latest passing run of
      the script fenced in the answer; it is never a failing run. */
  lemma SuccessKept(texts: Texts, ops: seq<Op>, answer: Option<string>)
    ensures var s := Steps(INITIAL, texts, ops);
            var p := Passing(s, texts, answer);
            var fenced := if answer.Some? then texts.fenced(answer.value) else "";
            && ((exists run | run in s.log.runs :: run.up && run.final) ==> p == LatestFinal(s.log.runs) && p.Some?)
            && ((forall run | run in s.log.runs :: !(run.up && run.final)) ==>
                  p == if fenced == "" then None else LatestUp(s.log.runs, texts, fenced))
            && (p.Some? ==> p.value in s.log.runs && p.value.up
                            && (p.value.final || texts.trim(p.value.script) == fenced))
  {
    StepsAgree(INITIAL, texts, ops);
    var fenced := if answer.None? then "" else texts.fenced(answer.value);
    LatestIsRecorded(Steps(INITIAL, texts, ops).log.runs, texts, fenced);
  }

  /** What to show when nothing passed: the latest final run, or the latest run when none was final. */
  lemma AttemptIsLatest(texts: Texts, ops: seq<Op>)
    ensures var s := Steps(INITIAL, texts, ops);
            var runs := s.log.runs;
            && (LatestMarked(runs).Some? ==> Attempt(s) == LatestMarked(runs))
            && (LatestMarked(runs).None? && runs != [] ==> Attempt(s) == Some(runs[|runs| - 1]))
            && (Attempt(s).None? <==> runs == [])
  {
    StepsAgree(INITIAL, texts, ops);
  }

  /** What one operation records: a run of its script when it runs one, passing exactly when it came back
      up, final as asked and always for a nudge; and whether a host was refused. */
  lemma StepRecords(s: State, texts: Texts, op: Op)
    ensures var next := Step(s, texts, op);
            var calls := RunsScript(s, texts, op) || (op.PageTool? && !op.blankURL);
            && (next.refused <==> s.refused || (calls && op.outcome == HostRefused))
            && next.log.runs == s.log.runs +
               if !RunsScript(s, texts, op) then []
               else if op.RunTool? then [ScriptRun(op.script, op.outcome == Ran(true), op.final)]
               else [ScriptRun(texts.fenced(op.text), op.outcome == Ran(true), true)]
  {
    assert s.log.runs + [] == s.log.runs;
  }

  /** What a nudge answers: it ends a loop that is done or was nudged twice; otherwise it tells how the run of
      the fenced script went, ends the loop for a script already passed or after the invitation to stop, and
      gives that invitation once. */
  lemma NudgeAnswers(s: State, texts: Texts, text: string, grant: Option<Grant>, outcome: Outcome)
    ensures var (next, reply) := Nudged(s, texts, text, grant, outcome);
            var op := NudgeHook(text, grant, outcome);
            var fenced := texts.fenced(text);
            && (Done(s) || s.nudges >= 2 ==> next == s && reply == Stop)
            && (!Done(s) && s.nudges < 2 ==>
                  && next.nudges == s.nudges + 1
                  && (RunsScript(s, texts, op) ==>
                        reply == if !outcome.Ran? then CouldNotRun else if outcome.up then Stop else DidNotPass)
                  && (NudgeRuns(s, texts, text) && !RunsScript(s, texts, op) ==> reply == CouldNotRun)
                  && (!NudgeRuns(s, texts, text) ==>
                        && reply == (if fenced == "" && !s.invitedToStop then WriteTheWholeCheck else Stop)
                        && next.invitedToStop == (s.invitedToStop || fenced == "")))
  {
  }

  /** The loop is done exactly when its last run was final and came back up. */
  lemma DoneExactly(texts: Texts, ops: seq<Op>)
    ensures var s := Steps(INITIAL, texts, ops);
            var runs := s.log.runs;
            Done(s) <==> runs != [] && runs[|runs| - 1].final && runs[|runs| - 1].up
  {
    StepsAgree(INITIAL, texts, ops);
  }

  /** Later steps never take a success away. */
  lemma SuccessSurvives(texts: Texts, ops: seq<Op>, more: seq<Op>, answer: Option<string>)
    requires Steps(INITIAL, texts, ops).log.lastUp.Some?
    ensures var p := Passing(Steps(Steps(INITIAL, texts, ops), texts, more), texts, answer);
            p.Some? && p.value.up && p.value.final
  {
    var s := Steps(INITIAL, texts, ops);
    var t := Steps(s, texts, more);
    StepsAgree(INITIAL, texts, ops);
    StepsAgree(s, texts, more);
    LatestIsRecorded(s.log.runs, texts, "");
    LatestIsRecorded(t.log.runs, texts, "");
    var run :| run in s.log.runs && run.up && run.final;
    assert run in t.log.runs;
  }

  /** How many nudges of a run send the model back to work. */
  function NudgesSent(s: State, texts: Texts, ops: seq<Op>): nat
    decreases |ops|
  {
    if ops == [] then 0
    else
      var op := ops[0];
      (if op.NudgeHook? && Nudged(s, texts, op.text, op.grant, op.outcome).1 != Stop then 1 else 0)
      + NudgesSent(Step(s, texts, op), texts, ops[1..])
  }

  lemma {:induction false} AtMostTwoNudges(s: State, texts: Texts, ops: seq<Op>)
    requires s.nudges <= 2
    ensures NudgesSent(s, texts, ops) + s.nudges <= 2
    decreases |ops|
  {
    if ops != [] {
      AtMostTwoNudges(Step(s, texts, ops[0]), texts, ops[1..]);
    }
  }
}
