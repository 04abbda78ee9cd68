/** The host grants of AI repairs (server/internal/aichecks/repair.go), the mechanical guards of a
    candidate (server/internal/aichecks/guards.go) and the stored allowlist they lead to
    (server/internal/checkers/checkjs/config/config.go).

    Host extraction, the regexes and the digest are a `World` of arbitrary functions. */
module RepairGrant {
  import opened Options
  import opened ScriptScanner
  import ScriptScannerTheorems

  type Env = map<string, string>

  /** A hex digest: never empty. */
  type Digest = s: string | s != "" witness "0"

  /** What the regexes read off a text: the hosts, the number of try blocks, a "down" literal and the
      protocol globals used; and the digest of a script and env. */
  datatype World = World(
    hosts: (string, Env) -> set<string>, tries: string -> nat, down: string -> bool, apis: string -> set<string>,
    digest: (string, Env) -> Digest)

  datatype Mode = Propose | Auto

  /** The parts of a js check's config that a repair reads or writes; repairGrant is "" for none. */
  datatype Config = Config(script: string, env: Env, mode: Mode, repairHosts: set<string>, repairGrant: string)

  function ScriptHosts(w: World, script: string, env: Env): set<string> {
    w.hosts(Strip(script), env)
  }

  datatype GuardError = NewHost | NewTryCatch | DroppedAssertion | NewAPI

  function CheckCandidate(w: World, previous: string, candidate: string, env: Env): Option<GuardError> {
    if !(ScriptHosts(w, candidate, env) <= ScriptHosts(w, previous, env)) then Some(NewHost)
    else if w.tries(Code(candidate)) > w.tries(Code(previous)) then Some(NewTryCatch)
    else if w.down(Strip(previous)) && !w.down(Strip(candidate)) then Some(DroppedAssertion)
    else if !(w.apis(Code(candidate)) <= w.apis(Code(previous))) then Some(NewAPI)
    else None
  }

  /** RepairAllowlist: the hosts a stored config is held to; None when it is not held. A grant issued for
      another script or env holds to no host. */
  function Allowlist(w: World, c: Config): Option<set<string>> {
    if c.repairGrant == "" then None
    else if c.repairGrant != w.digest(c.script, c.env) then Some({})
    else Some(c.repairHosts)
  }

  function GrantedHosts(w: World, c: Config): set<string> {
    var hosts := ScriptHosts(w, c.script, c.env);
    match Allowlist(w, c)
    case Some(held) => hosts * held
    case None => hosts
  }

  function RepairedConfig(w: World, c: Config, candidate: string, granted: bool): Config {
    c.(script := candidate,
       repairHosts := if granted then GrantedHosts(w, c) else {},
       repairGrant := if granted then w.digest(candidate, c.env) else "")
  }

  /** NormalizeConfig: the write path drops a grant the stored script or env no longer matches. */
  function Normalized(w: World, c: Config): Config {
    if c.repairGrant == w.digest(c.script, c.env) then c else c.(repairHosts := {}, repairGrant := "")
  }

  datatype Verification = VerifiedUp | VerifiedNotUp | VerificationError

  /** What storeCandidate learns on the way: how the verification run ended, and whether the candidate
      hides a host, adds a reference, or follows an applied repair too closely. */
  datatype Findings = Findings(verification: Verification, hidden: bool, addsReference: bool, recent: bool)

  datatype Outcome = Rejected | Proposed(config: Config) | Applied(config: Config)

  /** What becomes of a candidate: applied when nothing was found against it and the check is in auto mode,
      rejected when it was refused outside that mode, and proposed otherwise. */
  function StoreCandidate(w: World, c: Config, candidate: string, f: Findings): Outcome {
    var accepted := CheckCandidate(w, c.script, candidate, c.env).None? && f.verification.VerifiedUp?;
    if accepted && c.mode == Auto && !f.hidden && !f.addsReference && !f.recent then
      Applied(Normalized(w, RepairedConfig(w, c, candidate, true)))
    else if !accepted && c.mode == Propose then Rejected
    else Proposed(RepairedConfig(w, c, candidate, false))
  }

  /** storeCandidate, in its own order: the verification run only for a candidate that passes the guards, and
      the findings on hosts, references and earlier repairs only for one that could be applied. */
  method Store(w: World, c: Config, candidate: string, f: Findings) returns (outcome: Outcome)
    ensures outcome == StoreCandidate(w, c, candidate, f)
  {
    var refused := CheckCandidate(w, c.script, candidate, c.env).Some?;
    if !refused {
      if f.verification.VerificationError? {
        refused := true;
      } else if !f.verification.VerifiedUp? {
        refused := true;
      }
    }
    if refused && c.mode != Auto {
      return Rejected;
    }
    if !refused && c.mode == Auto {
      if f.hidden {
        return Proposed(RepairedConfig(w, c, candidate, false));
      }
      if f.addsReference {
        return Proposed(RepairedConfig(w, c, candidate, false));
      }
    }
    if !refused && c.mode == Auto {
      if !f.recent {
        return Applied(Normalized(w, RepairedConfig(w, c, candidate, true)));
      }
    }
    return Proposed(RepairedConfig(w, c, candidate, false));
  }

  // ---- The guards ------------------------------------------------------------------------------------

  /** The guards read what the scripts say, never their comments: stripped scripts get the same verdict. */
  lemma GuardsIgnoreComments(w: World, previous: string, candidate: string, env: Env)
    ensures CheckCandidate(w, Strip(previous), Strip(candidate), env) == CheckCandidate(w, previous, candidate, env)
  {
    ScriptScannerTheorems.StripStable(previous);
    ScriptScannerTheorems.StripStable(candidate);
    SameVerdict(w, previous, Strip(previous), candidate, Strip(candidate), env);
  }

  lemma SameVerdict(w: World, p: string, p': string, c: string, c': string, env: Env)
    requires Strip(p) == Strip(p') && Code(p) == Code(p')
    requires Strip(c) == Strip(c') && Code(c) == Code(c')
    ensures CheckCandidate(w, p, c, env) == CheckCandidate(w, p', c', env)
  {
  }

  /** Passing the guards is a preorder: a script passes against itself, and candidates that pass one after
      the other pass against the first. */
  lemma GuardsCompose(w: World, a: string, b: string, c: string, env: Env)
    ensures CheckCandidate(w, a, a, env).None?
    ensures CheckCandidate(w, a, b, env).None? && CheckCandidate(w, b, c, env).None?
            ==> CheckCandidate(w, a, c, env).None?
  {
  }

  /** When a candidate passes, in terms of what the two scripts say: no new host; no more try blocks outside
      comments and strings; a "down" kept, outside comments, if there was one; no new protocol global outside
      comments and strings. The error is that of the first of these that fails. */
  lemma PassesExactly(w: World, previous: string, candidate: string, env: Env)
    ensures var error := CheckCandidate(w, previous, candidate, env);
            var hosts := w.hosts(Strip(candidate), env) <= w.hosts(Strip(previous), env);
            var tries := w.tries(Code(candidate)) <= w.tries(Code(previous));
            var down := w.down(Strip(previous)) ==> w.down(Strip(candidate));
            var apis := w.apis(Code(candidate)) <= w.apis(Code(previous));
            && (error == None <==> hosts && tries && down && apis)
            && (error == Some(NewHost) <==> !hosts)
            && (error == Some(NewTryCatch) <==> hosts && !tries)
            && (error == Some(DroppedAssertion) <==> hosts && tries && !down)
            && (error == Some(NewAPI) <==> hosts && tries && down && !apis)
  {
  }

  // ---- The hold of a stored version -------------------------------------------------------------------

  /** A grant holds to its hosts for the script and env it was issued for, to no host for any other, and a
      version without one is not held; storing a version drops a grant that is not its own. */
  lemma HoldExactly(w: World, c: Config)
    ensures c.repairGrant == "" <==> Allowlist(w, c) == None
    ensures c.repairGrant == w.digest(c.script, c.env) ==> Allowlist(w, c) == Some(c.repairHosts)
    ensures c.repairGrant != "" && c.repairGrant != w.digest(c.script, c.env) ==> Allowlist(w, c) == Some({})
    ensures var stored := Normalized(w, c);
            && stored.script == c.script && stored.env == c.env && stored.mode == c.mode
            && (c.repairGrant == w.digest(c.script, c.env) ==> stored == c)
            && (c.repairGrant != w.digest(c.script, c.env) ==> stored.repairGrant == "" && stored.repairHosts == {})
  {
  }

  /** So a human edit, which the digest tells from the granted version, frees the check of its allowlist. */
  lemma EditFrees(w: World, c: Config, script: string, env: Env)
    requires c.repairGrant == w.digest(c.script, c.env) != w.digest(script, env)
    ensures Allowlist(w, c) == Some(c.repairHosts)
    ensures Allowlist(w, c.(script := script, env := env)) == Some({})
    ensures Allowlist(w, Normalized(w, c.(script := script, env := env))) == None
  {
  }

  // ---- One repair --------------------------------------------------------------------------------------

  /** A candidate is applied exactly when the check is in auto mode and nothing was found against it;
      rejected exactly when it was refused outside auto mode; proposed otherwise. A proposal is not held
      to any host; an applied version is held to what the version before it reached, within its own hold. */
  lemma StoreCandidateExactly(w: World, c: Config, candidate: string, f: Findings)
    ensures var accepted := CheckCandidate(w, c.script, candidate, c.env).None? && f.verification.VerifiedUp?;
            var outcome := StoreCandidate(w, c, candidate, f);
            && (outcome.Applied? <==> accepted && c.mode == Auto && !f.hidden && !f.addsReference && !f.recent)
            && (outcome.Rejected? <==> !accepted && c.mode != Auto)
            && (!outcome.Rejected? ==>
                  && outcome.config.script == candidate
                  && outcome.config.env == c.env && outcome.config.mode == c.mode)
            && (outcome.Proposed? ==> Allowlist(w, outcome.config) == None)
            && (outcome.Applied? ==> Allowlist(w, outcome.config) == Some(GrantedHosts(w, c)))
  {
  }

  /** What is stored, field by field: a proposal has no grant; an applied version is granted, for itself, the
      hosts its predecessor names outside comments, narrowed to what that was held to. */
  lemma StoredExactly(w: World, c: Config, candidate: string, f: Findings)
    ensures var outcome := StoreCandidate(w, c, candidate, f);
            var hosts := w.hosts(Strip(c.script), c.env);
            && (outcome.Proposed? ==> outcome.config == Config(candidate, c.env, c.mode, {}, ""))
            && (outcome.Applied? ==>
                  && outcome.config.repairGrant == w.digest(candidate, c.env)
                  && outcome.config.repairHosts
                     == set host | host in hosts && (Allowlist(w, c).Some? ==> host in Allowlist(w, c).value))
  {
    var hosts := w.hosts(Strip(c.script), c.env);
    assert GrantedHosts(w, c)
           == set host | host in hosts && (Allowlist(w, c).Some? ==> host in Allowlist(w, c).value);
  }

  // ---- A run of applied repairs --------------------------------------------------------------------------

  ghost predicate AppliedRepair(w: World, c: Config, next: Config) {
    exists candidate, f :: StoreCandidate(w, c, candidate, f) == Applied(next)
  }

  /** Versions of a check, each an applied repair of the one before; the first is the last one a human
      wrote or approved. */
  ghost predicate RepairRun(w: World, versions: seq<Config>) {
    versions != [] && forall i | 0 < i < |versions| :: AppliedRepair(w, versions[i - 1], versions[i])
  }

  function Hosts(w: World, c: Config): set<string> {
    ScriptHosts(w, c.script, c.env)
  }

  lemma OneRepair(w: World, c: Config, next: Config)
    requires AppliedRepair(w, c, next)
    ensures next.env == c.env && next.mode == c.mode == Auto
    ensures CheckCandidate(w, c.script, next.script, c.env).None?
    ensures Allowlist(w, next) == Some(GrantedHosts(w, c))
  {
    var candidate, f :| StoreCandidate(w, c, candidate, f) == Applied(next);
    StoreCandidateExactly(w, c, candidate, f);
  }

  /** Along the run env stays, and any later text passes every guard against any earlier one: no new
      host, no more try blocks, no dropped down path, no new API. */
  lemma {:induction false} RunPassesGuards(w: World, versions: seq<Config>, i: nat, j: nat)
    requires RepairRun(w, versions) && i <= j < |versions|
    ensures versions[j].env == versions[i].env
    ensures CheckCandidate(w, versions[i].script, versions[j].script, versions[i].env).None?
    decreases j - i
  {
    if i == j {
      GuardsCompose(w, versions[i].script, versions[i].script, versions[i].script, versions[i].env);
    } else {
      RunPassesGuards(w, versions, i, j - 1);
      OneRepair(w, versions[j - 1], versions[j]);
      GuardsCompose(w, versions[i].script, versions[j - 1].script, versions[j].script, versions[i].env);
    }
  }

  /** The grant of each applied version, exactly: the hosts of the version before it, within what the
      human-written version was itself held to. */
  lemma {:induction false} GrantExactly(w: World, versions: seq<Config>, i: nat)
    requires RepairRun(w, versions) && 0 < i < |versions|
    ensures var first := Allowlist(w, versions[0]);
            Allowlist(w, versions[i])
            == Some(Hosts(w, versions[i - 1]) * if first.Some? then first.value else Hosts(w, versions[0]))
  {
    OneRepair(w, versions[i - 1], versions[i]);
    var first, hosts := Allowlist(w, versions[0]), Hosts(w, versions[i - 1]);
    if i == 1 {
      assert hosts * hosts == hosts;
    } else {
      GrantExactly(w, versions, i - 1);
      RunPassesGuards(w, versions, i - 2, i - 1);
      var before, held := Hosts(w, versions[i - 2]), if first.Some? then first.value else Hosts(w, versions[0]);
      assert hosts <= before;
      assert hosts * (before * held) == hosts * held;
    }
  }

  /** Host grants only shrink: along any run of applied repairs each grant is within the ones before it
      and within the hosts of the human-written version, each text contacts only hosts of every text
      before it, and has no more try blocks. */
  lemma GrantsOnlyShrink(w: World, versions: seq<Config>, i: nat, j: nat)
    requires RepairRun(w, versions) && 0 < i <= j < |versions|
    ensures var (v, v') := (versions[i].script, versions[j].script);
            (w.down(Strip(v)) ==> w.down(Strip(v'))) && w.apis(Code(v')) <= w.apis(Code(v))
    ensures Allowlist(w, versions[i]).Some? && Allowlist(w, versions[j]).Some?
    ensures Allowlist(w, versions[j]).value <= Allowlist(w, versions[i]).value <= Hosts(w, versions[0])
    ensures Hosts(w, versions[j]) <= Hosts(w, versions[i]) <= Hosts(w, versions[0])
    ensures w.tries(Code(versions[j].script)) <= w.tries(Code(versions[i].script))
  {
    GrantExactly(w, versions, i);
    GrantExactly(w, versions, j);
    RunPassesGuards(w, versions, i - 1, j - 1);
    RunPassesGuards(w, versions, 0, i);
    RunPassesGuards(w, versions, i, j);
    RunPassesGuards(w, versions, 0, i - 1);
  }

  /** The hosts an applied text names are all within its grant if and only if they are within what the
      human-written version was held to; in particular always when that version was not held. */
  lemma TextWithinGrant(w: World, versions: seq<Config>, i: nat)
    requires RepairRun(w, versions) && 0 < i < |versions|
    ensures Allowlist(w, versions[i]).Some?
    ensures Hosts(w, versions[i]) <= Allowlist(w, versions[i]).value
            <==> Allowlist(w, versions[0]).Some? ==> Hosts(w, versions[i]) <= Allowlist(w, versions[0]).value
  {
    GrantExactly(w, versions, i);
    RunPassesGuards(w, versions, i - 1, i);
    RunPassesGuards(w, versions, 0, i - 1);
  }
}
