/** The agent's pull cycle: check in, apply, run pending actions, and the slots that survive a restart. */
module Agent {
  import opened Text
  import opened Models
  import opened Protected
  import opened Ufw
  import opened UfwCompile
  import opened UfwApply
  import opened ReplayCache
  import Snapshot

  // ---- state and messages --------------------------------------------------

  datatype Defaults = Defaults(input: Option<string>, output: Option<string>)

  datatype PullConfig = PullConfig(interval: int, version: int, safeMode: bool)

  /** What does not change during a run: the host, the manager's endpoint, the protected networks, the
      safe-mode timeout. */
  datatype Setup = Setup(
    sys: System, endpoint: Option<(string, nat)>, protected: seq<string>, timeout: nat)

  /** The live firewall, the four persisted slots, the running and the saved configuration, and the time of
      the last contact with the manager. */
  datatype State = State(
    fw: Firewall, lastGood: Option<seq<Rule>>, lastDefaults: Option<Defaults>, expected: Option<string>,
    replayLog: string, running: PullConfig, saved: PullConfig, lastContact: nat)

  datatype PendingAction = PendingAction(id: string, kind: string)

  datatype Response = Response(
    rulesChanged: bool, rules: seq<RuleDto>, config: Option<PullConfig>,
    actions: seq<PendingAction>, defaults: Defaults)

  /** What the tools and the disk report during one cycle; per action for the last two. */
  datatype Faults = Faults(
    statusOk: bool, lockOk: bool, apply: Outcome, goodOk: bool, expectedOk: bool, defaultsOk: bool,
    configOk: bool, resetOk: nat -> bool, recordOk: nat -> bool)

  // ---- what a cycle looks at -----------------------------------------------

  /** The hash reported on check-in: of the rules last applied, empty when there are none. */
  function ReportedHash(su: Setup, s: State): string {
    match s.lastGood
    case None => ""
    case Some(rs) => RulesHash(su.sys.digest, RulesParts(rs))
  }

  /** `load_expected_hash`: an empty slot reads back as none. */
  function LoadExpected(slot: Option<string>): Option<string> {
    match slot
    case None => None
    case Some(t) => if Trim(t) == "" then None else Some(Trim(t))
  }

  predicate LocalDrift(su: Setup, s: State, statusOk: bool) {
    match LoadExpected(s.expected)
    case None => false
    case Some(e) => e != if statusOk then LiveHash(su.sys, s.fw) else ""
  }

  function CachedDefaults(s: State): Defaults {
    OrElse(s.lastDefaults, Defaults(None, None))
  }

  /** The apply context; an unusable endpoint becomes one the safety gate refuses. */
  function Context(su: Setup, d: Defaults): ApplyContext {
    match su.endpoint
    case Some((ip, port)) => ApplyContext(ip, port, d.input, d.output)
    case None => ApplyContext("", 0, d.input, d.output)
  }

  // ---- applying ------------------------------------------------------------

  /** `hash` is `None` for a refused or failed apply; `ran` when the backend was invoked. */
  datatype ApplyEnd = ApplyEnd(s: State, hash: Option<string>, ran: bool)

  /** The checks before anything is touched: protected networks, the manager endpoint, the lock. */
  predicate MayApply(su: Setup, rules: seq<Rule>, ctx: ApplyContext, f: Faults) {
    Violations(su.sys.rd, rules, su.protected) == [] && Gate(su.sys.rd, ctx) && f.lockOk
  }

  /** `apply_rules`. */
  function ApplyRules(su: Setup, s: State, rules: seq<Rule>, ctx: ApplyContext, f: Faults): ApplyEnd {
    if !MayApply(su, rules, ctx, f) then ApplyEnd(s, None, false)
    else
      var a := ApplyLines(su.sys, s.fw, CompileLines(rules, ctx), f.apply);
      var s1 := s.(fw := a.fw);
      if a.failed > 0 then ApplyEnd(s1, None, true)
      else ApplyEnd(if f.goodOk then s1.(lastGood := Some(rules)) else s1, Some(a.hash), true)
  }

  /** A policy to apply and the defaults to remember with it. */
  datatype Plan = Plan(rules: seq<Rule>, defaults: Defaults)

  /** The manager's policy or its defaults are not the ones last applied. */
  predicate PolicyPending(s: State, r: Response) {
    r.rules != [] && (r.rulesChanged || CachedDefaults(s) != r.defaults)
  }

  predicate HasLastGood(s: State) { s.lastGood.Some? && s.lastGood.value != [] }

  /** The three triggers of an apply on a delivered reply, in order of precedence. */
  function Choose(s: State, r: Response, drift: bool): Option<Plan> {
    if PolicyPending(s, r) then Some(Plan(DtosToRules(r.rules), r.defaults))
    else if drift && HasLastGood(s) then Some(Plan(s.lastGood.value, CachedDefaults(s)))
    else None
  }

  /** Records a successful apply. */
  function Remember(s: State, hash: string, d: Defaults, f: Faults): State {
    var s1 := if f.expectedOk then s.(expected := Some(hash)) else s;
    if f.defaultsOk then s1.(lastDefaults := Some(d)) else s1
  }

  function ApplyPlan(su: Setup, s: State, plan: Option<Plan>, f: Faults): ApplyEnd {
    match plan
    case None => ApplyEnd(s, None, false)
    case Some(p) =>
      var e := ApplyRules(su, s, p.rules, Context(su, p.defaults), f);
      match e.hash
      case None => e
      case Some(h) => e.(s := Remember(e.s, h, p.defaults, f))
  }

  /** What is reported about an apply: its snapshot hash, or the one taken before when it failed. */
  datatype ApplyReport = ApplyReport(success: bool, newHash: string)

  function ReportOf(plan: Option<Plan>, hash: Option<string>, liveHash: string): Option<ApplyReport> {
    if plan.None? then None else Some(ApplyReport(hash.Some?, OrElse(hash, liveHash)))
  }

  // ---- pending actions -----------------------------------------------------

  /** `executed` lists the ids of successful executions, `reports` what is sent back, `resets` counts
      rollbacks that cleared the firewall. */
  datatype ActionsEnd = ActionsEnd(s: State, executed: seq<string>, reports: seq<(string, bool)>, resets: nat)

  predicate NoEffectKind(kind: string) {
    kind in ["safe_mode_on", "safe_mode_off", "reload_config", "agent_upgrade", "apply_rules"]
  }

  function RunAction(e: ActionsEnd, a: PendingAction, i: nat, f: Faults): ActionsEnd {
    if AlreadyExecuted(e.s.replayLog, a.id) then e.(reports := e.reports + [(a.id, true)])
    else
      var rollback := a.kind == "rollback" && f.resetOk(i);
      if !rollback && !NoEffectKind(a.kind) then e.(reports := e.reports + [(a.id, false)])
      else
        var s1 := if rollback then e.s.(fw := Ufw.Reset(e.s.fw)) else e.s;
        var s2 := if f.recordOk(i) then s1.(replayLog := Record(s1.replayLog, a.id)) else s1;
        ActionsEnd(s2, e.executed + [a.id], e.reports + [(a.id, true)], e.resets + if rollback then 1 else 0)
  }

  function RunActions(s: State, actions: seq<PendingAction>, f: Faults): ActionsEnd {
    if actions == [] then ActionsEnd(s, [], [], 0)
    else
      var n := |actions| - 1;
      RunAction(RunActions(s, actions[..n], f), actions[n], n, f)
  }

  // ---- the cycle -----------------------------------------------------------

  datatype CycleEnd = CycleEnd(s: State, ran: bool, executed: seq<string>, reports: seq<(string, bool)>, resets: nat)

  predicate TimedOut(su: Setup, s: State, now: nat) {
    now > s.lastContact && now - s.lastContact > su.timeout
  }

  /** The check-in failed: past the timeout, safe mode reverts to the last good ruleset. */
  predicate Reverts(su: Setup, s: State, now: nat) {
    s.running.safeMode && TimedOut(su, s, now) && HasLastGood(s) && su.endpoint.Some?
  }

  function LostCycle(su: Setup, s: State, now: nat, f: Faults): CycleEnd {
    if Reverts(su, s, now) then
      var e := ApplyRules(su, s, s.lastGood.value, Context(su, CachedDefaults(s)), f);
      CycleEnd(e.s, e.ran, [], [], 0)
    else CycleEnd(s, false, [], [], 0)
  }

  /** Takes over a configuration the manager sent, in memory and on disk. */
  function TakeConfig(s: State, config: Option<PullConfig>, f: Faults): State {
    match config
    case None => s
    case Some(c) =>
      var s1 := s.(running := c);
      if f.configOk then s1.(saved := c) else s1
  }

  function DeliveredCycle(su: Setup, s: State, now: nat, r: Response, f: Faults): CycleEnd {
    var s1 := TakeConfig(s.(lastContact := now), r.config, f);
    var e := ApplyPlan(su, s1, Choose(s1, r, LocalDrift(su, s, f.statusOk)), f);
    var x := RunActions(e.s, r.actions, f);
    CycleEnd(x.s, e.ran, x.executed, x.reports, x.resets)
  }

  /** What the agent reports about the apply of a delivered reply, if there was one. */
  function CycleReport(su: Setup, s: State, now: nat, r: Response, f: Faults): Option<ApplyReport> {
    var s1 := TakeConfig(s.(lastContact := now), r.config, f);
    var plan := Choose(s1, r, LocalDrift(su, s, f.statusOk));
    ReportOf(plan, ApplyPlan(su, s1, plan, f).hash, if f.statusOk then LiveHash(su.sys, s.fw) else "")
  }

  /** `run_pull_cycle`; the reply is `None` when the check-in failed. */
  function Cycle(su: Setup, s: State, now: nat, reply: Option<Response>, f: Faults): CycleEnd {
    match reply
    case None => LostCycle(su, s, now, f)
    case Some(r) => DeliveredCycle(su, s, now, r, f)
  }

  /** A daemon restart: the slots and the saved configuration survive, the contact clock starts over. */
  function Restart(s: State, now: nat): State {
    s.(running := s.saved, lastContact := now)
  }

  // ---- the daemon ----------------------------------------------------------

  /** The daemon with its host; `View` is the state the functions above speak about. */
  class AgentDaemon {
    const host: UfwHost
    var lastGood: Option<seq<Rule>>
    var lastDefaults: Option<Defaults>
    var expected: Option<string>
    var replayLog: string
    var running: PullConfig
    var saved: PullConfig
    var lastContact: nat
    /** Whether a failed check-in has found the timeout passed since the last contact; nothing reads it. */
    var safeModeActive: bool

    constructor (h: UfwHost, s: State)
      ensures host == h && lastGood == s.lastGood && lastDefaults == s.lastDefaults
      ensures expected == s.expected && replayLog == s.replayLog
      ensures running == s.running && saved == s.saved && lastContact == s.lastContact && !safeModeActive
    {
      host := h;
      lastGood, lastDefaults, expected, replayLog := s.lastGood, s.lastDefaults, s.expected, s.replayLog;
      running, saved, lastContact, safeModeActive := s.running, s.saved, s.lastContact, false;
    }

    ghost function View(): State
      reads this, host
    {
      State(host.fw, lastGood, lastDefaults, expected, replayLog, running, saved, lastContact)
    }

    /** `apply_rules`: check, gate, lock, compile, apply, and remember the ruleset unless a command failed. */
    method DoApply(su: Setup, rules: seq<Rule>, ctx: ApplyContext, f: Faults)
      returns (hash: Option<string>, ran: bool)
      modifies this`lastGood, host
      ensures ApplyEnd(View(), hash, ran) == ApplyRules(su, old(View()), rules, ctx, f)
    {
      var violations := CheckRulesAgainstProtected(su.sys.rd, rules, su.protected);
      if violations != [] {
        return None, false;
      }
      var ip := su.sys.rd.ip(ctx.managerIp);
      if ip.None? || ip.value.Unspecified() || !f.lockOk {
        return None, false;
      }
      var commands := Compile(rules, ctx);
      var applied, failed, h, error := host.Apply(su.sys, commands, f.apply);
      if failed > 0 {
        return None, true;
      }
      if f.goodOk {
        lastGood := Some(rules);
      }
      return Some(h), true;
    }

    /** One pending action, the `i`th of its reply: skipped when already executed, else run and recorded. */
    method DoAction(a: PendingAction, ghost before: ActionsEnd, i: nat, f: Faults)
      returns (ran: bool, success: bool, reset: bool)
      requires before.s == View()
      modifies this`replayLog, host
      ensures
        ActionsEnd(View(), before.executed + (if ran then [a.id] else []),
                   before.reports + [(a.id, success)], before.resets + if reset then 1 else 0)
        == RunAction(before, a, i, f)
    {
      if AlreadyExecuted(replayLog, a.id) {
        return false, true, false;
      }
      success, reset := NoEffectKind(a.kind), false;
      if a.kind == "rollback" {
        success := host.Reset(f.resetOk(i));
        reset := success;
      }
      if success && f.recordOk(i) {
        replayLog := Record(replayLog, a.id);
      }
      ran := success;
    }

    /** The pending actions in order. */
    method DoActions(actions: seq<PendingAction>, f: Faults)
      returns (executed: seq<string>, reports: seq<(string, bool)>, resets: nat)
      modifies this`replayLog, host
      ensures ActionsEnd(View(), executed, reports, resets) == RunActions(old(View()), actions, f)
    {
      executed, reports, resets := [], [], 0;
      for i := 0 to |actions|
        invariant ActionsEnd(View(), executed, reports, resets) == RunActions(old(View()), actions[..i], f)
      {
        var ran, success, reset := DoAction(actions[i], ActionsEnd(View(), executed, reports, resets), i, f);
        executed := executed + if ran then [actions[i].id] else [];
        reports := reports + [(actions[i].id, success)];
        resets := resets + if reset then 1 else 0;
        assert actions[..i + 1][..i] == actions[..i];
      }
      assert actions[..|actions|] == actions;
    }

    /** Applies the plan of a delivered reply and remembers a success. */
    method DoPlan(su: Setup, plan: Option<Plan>, f: Faults, liveHash: string)
      returns (ghost hash: Option<string>, ran: bool, report: Option<ApplyReport>)
      modifies this`lastGood, this`expected, this`lastDefaults, host
      ensures ApplyEnd(View(), hash, ran) == ApplyPlan(su, old(View()), plan, f)
      ensures report == ReportOf(plan, hash, liveHash)
    {
      hash, ran, report := None, false, None;
      if plan.Some? {
        var ctx := Context(su, plan.value.defaults);
        var outcome, r := DoApply(su, plan.value.rules, ctx, f);
        hash, ran := outcome, r;
        report := Some(ApplyReport(outcome.Some?, OrElse(outcome, liveHash)));
        if outcome.Some? {
          if f.expectedOk {
            expected := Some(outcome.value);
          }
          if f.defaultsOk {
            lastDefaults := Some(plan.value.defaults);
          }
        }
      }
    }

    /** The branch of a failed check-in. */
    method HandleLost(su: Setup, now: nat, f: Faults) returns (ran: bool)
      modifies this`lastGood, this`safeModeActive, host
      ensures CycleEnd(View(), ran, [], [], 0) == LostCycle(su, old(View()), now, f)
      ensures safeModeActive == (old(safeModeActive) || (running.safeMode && TimedOut(su, old(View()), now)))
    {
      ran := false;
      if running.safeMode && now > lastContact && now - lastContact > su.timeout {
        safeModeActive := true;
        if lastGood.Some? && lastGood.value != [] && su.endpoint.Some? {
          var cached := OrElse(lastDefaults, Defaults(None, None));
          var _, r := DoApply(su, lastGood.value, Context(su, cached), f);
          ran := r;
        }
      }
    }

    method TakeOver(config: Option<PullConfig>, f: Faults)
      modifies this`running, this`saved
      ensures View() == TakeConfig(old(View()), config, f)
    {
      if config.Some? {
        running := config.value;
        if f.configOk {
          saved := config.value;
        }
      }
    }

    method ChoosePlan(r: Response, drift: bool) returns (plan: Option<Plan>)
      ensures plan == Choose(View(), r, drift)
    {
      var cached := OrElse(lastDefaults, Defaults(None, None));
      plan := None;
      if r.rules != [] && (r.rulesChanged || cached != r.defaults) {
        plan := Some(Plan(DtosToRules(r.rules), r.defaults));
      } else if drift && lastGood.Some? && lastGood.value != [] {
        plan := Some(Plan(lastGood.value, cached));
      }
    }

    /** `run_pull_cycle`. The result is the drift flag the loop uses to shorten its wait. */
    method RunPullCycle(su: Setup, now: nat, reply: Option<Response>, f: Faults)
      returns (drift: bool, ran: bool, applied: Option<ApplyReport>, executed: seq<string>,
               reports: seq<(string, bool)>, resets: nat)
      modifies this, host
      ensures CycleEnd(View(), ran, executed, reports, resets) == Cycle(su, old(View()), now, reply, f)
      ensures drift == (reply.Some? && LocalDrift(su, old(View()), f.statusOk))
      ensures applied == if reply.Some? then CycleReport(su, old(View()), now, reply.value, f) else None
      ensures safeModeActive ==
                (reply.None? && (old(safeModeActive) || (old(running).safeMode && TimedOut(su, old(View()), now))))
    {
      var rules, liveHash := Snapshot.TakeSnapshot(su.sys.digest, f.statusOk, su.sys.listing(host.fw));
      var loaded := LoadExpected(expected);
      drift := loaded.Some? && loaded.value != liveHash;
      assert drift == LocalDrift(su, View(), f.statusOk);
      if reply.None? {
        ran := HandleLost(su, now, f);
        drift, applied, executed, reports, resets := false, None, [], [], 0;
        return;
      }
      var r := reply.value;
      lastContact, safeModeActive := now, false;
      TakeOver(r.config, f);
      var plan := ChoosePlan(r, drift);
      var _, ran', report := DoPlan(su, plan, f, liveHash);
      ran, applied := ran', report;
      executed, reports, resets := DoActions(r.actions, f);
    }
  }
}
