/** What single steps of the agent do, stated over their inputs and results. */
module AgentLaws {
  import opened Text
  import opened Encoding
  import opened Models
  import opened Protected
  import opened Ufw
  import opened UfwCompile
  import opened UfwApply
  import opened ReplayCache
  import opened Agent
  import opened Manager
  import opened Protocol
  import AgentSafety

  // ---- before an apply -----------------------------------------------------

  /** No rule blocks or exposes a protected network, the manager's address is readable and not all zero, and the lock
      is had. */
  ghost predicate ChecksPass(su: Setup, rules: seq<Rule>, ctx: ApplyContext, f: Faults) {
    && (forall i :: 0 <= i < |rules| ==>
          !BlocksNetwork(su.sys.rd, rules[i], su.protected) && !ExposesNetwork(su.sys.rd, rules[i], su.protected))
    && su.sys.rd.ip(ctx.managerIp).Some? && su.sys.rd.ip(ctx.managerIp).value.bits != 0
    && f.lockOk
  }

  /** The firewall is touched iff the checks pass; a refused apply changes nothing at all. */
  lemma AppliesIffChecksPass(su: Setup, s: State, rules: seq<Rule>, ctx: ApplyContext, f: Faults)
    ensures ApplyRules(su, s, rules, ctx, f).ran <==> ChecksPass(su, rules, ctx, f)
    ensures !ChecksPass(su, rules, ctx, f) ==> ApplyRules(su, s, rules, ctx, f) == ApplyEnd(s, None, false)
  {
    RefusedIff(su.sys.rd, rules, su.protected);
  }

  /** A successful apply writes each of the three slots whose write succeeds and leaves the others as they were. */
  lemma SuccessWrites(su: Setup, s: State, p: Plan, f: Faults)
    ensures
      var e := ApplyPlan(su, s, Some(p), f);
      e.hash.Some? ==>
        && e.s.lastGood == (if f.goodOk then Some(p.rules) else s.lastGood)
        && e.s.expected == (if f.expectedOk then e.hash else s.expected)
        && e.s.lastDefaults == (if f.defaultsOk then Some(p.defaults) else s.lastDefaults)
  {
  }

  // ---- drift ---------------------------------------------------------------

  /** No slot, or an empty one, shows no drift. A slot with a hash shows it iff the live hash is another or the status
      command fails. */
  lemma DriftIff(su: Setup, s: State, statusOk: bool)
    ensures (s.expected.Some? ==> AllSpace(s.expected.value)) ==> !LocalDrift(su, s, statusOk)
    ensures s.expected.Some? && IsHex64(s.expected.value) ==>
              (LocalDrift(su, s, statusOk) <==> !statusOk || s.expected.value != LiveHash(su.sys, s.fw))
  {
    if s.expected.Some? {
      var t := s.expected.value;
      if AllSpace(t) {
        TrimPadded(t, "", "");
        assert t + "" + "" == t;
      }
      if IsHex64(t) {
        HexIsSpaceFree(t);
        TrimSpaceFree(t);
      }
    }
  }

  /** What is reported at check-in: nothing before the first apply, then what the manager computes for the policy. */
  lemma ReportedMeans(su: Setup, s: State, ds: seq<RuleDto>)
    requires forall i :: 0 <= i < |ds| ==> KnownNames(ds[i])
    ensures s.lastGood.None? ==> ReportedHash(su, s) == ""
    ensures s.lastGood == Some(DtosToRules(ds)) ==> ReportedHash(su, s) == RulesHash(su.sys.digest, DtosParts(ds))
  {
    SameRulesSameHash(su.sys.digest, ds);
  }

  // ---- safe mode -----------------------------------------------------------

  /** When the agent last heard from the manager or was started. */
  function LastHeard(s: State, steps: seq<AgentSafety.Step>): nat {
    if steps == [] then s.lastContact
    else match steps[|steps| - 1]
      case Pull(now, Some(_), _) => now
      case Pull(_, None, _) => LastHeard(s, steps[..|steps| - 1])
      case Reboot(now) => now
  }

  lemma {:induction false} ActionsKeepContact(s: State, actions: seq<PendingAction>, f: Faults)
    ensures RunActions(s, actions, f).s.lastContact == s.lastContact
  {
    if actions != [] {
      ActionsKeepContact(s, actions[..|actions| - 1], f);
    }
  }

  lemma CycleContact(su: Setup, s: State, now: nat, reply: Option<Response>, f: Faults)
    ensures Cycle(su, s, now, reply, f).s.lastContact == if reply.Some? then now else s.lastContact
  {
    if reply.Some? {
      var s1 := TakeConfig(s.(lastContact := now), reply.value.config, f);
      var plan := Choose(s1, reply.value, LocalDrift(su, s, f.statusOk));
      ApplyKeepsContact(su, s1, plan, f);
      ActionsKeepContact(ApplyPlan(su, s1, plan, f).s, reply.value.actions, f);
    }
  }

  lemma ApplyKeepsContact(su: Setup, s: State, plan: Option<Plan>, f: Faults)
    ensures ApplyPlan(su, s, plan, f).s.lastContact == s.lastContact
  {
  }

  lemma {:induction false} ContactIsLastHeard(su: Setup, s: State, steps: seq<AgentSafety.Step>)
    ensures AgentSafety.Run(su, s, steps).lastContact == LastHeard(s, steps)
  {
    if steps != [] {
      var n := |steps| - 1;
      ContactIsLastHeard(su, s, steps[..n]);
      if steps[n].Pull? {
        CycleContact(su, AgentSafety.Run(su, s, steps[..n]), steps[n].now, steps[n].reply, steps[n].f);
      }
    }
  }

  /** Over every run a failed check-in touches the firewall iff safe mode is on, more than the timeout has gone by since
      the agent last heard from the manager or was started, there is a last good ruleset with rules and an endpoint,
      and the checks pass. */
  lemma RevertsAfterSilence(su: Setup, s: State, steps: seq<AgentSafety.Step>, now: nat, f: Faults)
    ensures
      var v := AgentSafety.Run(su, s, steps);
      Cycle(su, v, now, None, f).ran <==>
        && v.running.safeMode && now > LastHeard(s, steps) + su.timeout
        && v.lastGood.Some? && v.lastGood.value != [] && su.endpoint.Some?
        && ChecksPass(su, v.lastGood.value, Context(su, CachedDefaults(v)), f)
  {
    var v := AgentSafety.Run(su, s, steps);
    ContactIsLastHeard(su, s, steps);
    if HasLastGood(v) {
      AppliesIffChecksPass(su, v, v.lastGood.value, Context(su, CachedDefaults(v)), f);
    }
  }

  // ---- pending actions -----------------------------------------------------

  /** The kinds the agent takes without doing anything. */
  predicate IsAcknowledged(kind: string) {
    || kind == "safe_mode_on" || kind == "safe_mode_off" || kind == "reload_config"
    || kind == "agent_upgrade" || kind == "apply_rules"
  }

  /** A rollback succeeds with the reset, the kinds above always, any other never. */
  predicate ActionSucceeds(a: PendingAction, i: nat, f: Faults) {
    if a.kind == "rollback" then f.resetOk(i) else IsAcknowledged(a.kind)
  }

  /** One action: acknowledged and left alone when the log has it; otherwise its success is reported, and a success is
      executed and recorded; only a rollback touches the firewall, which it clears and switches off. */
  lemma ActionDoes(e: ActionsEnd, a: PendingAction, i: nat, f: Faults)
    ensures
      var x, logged, good := RunAction(e, a, i, f), AlreadyExecuted(e.s.replayLog, a.id), ActionSucceeds(a, i, f);
      && x.reports == e.reports + [(a.id, logged || good)]
      && x.executed == e.executed + (if !logged && good then [a.id] else [])
      && x.s == e.s.(fw := x.s.fw, replayLog := x.s.replayLog)
      && (!logged && good && f.recordOk(i) ==> x.s.replayLog == e.s.replayLog + a.id + "\n")
      && (logged || !good || !f.recordOk(i) ==> x.s.replayLog == e.s.replayLog)
      && (!logged && good && a.kind == "rollback" ==>
            && x.s.fw.rules == [] && !x.s.fw.active && x.resets == e.resets + 1
            && x.s.fw.defaultIn == e.s.fw.defaultIn && x.s.fw.defaultOut == e.s.fw.defaultOut)
      && (logged || !good || a.kind != "rollback" ==> x.s.fw == e.s.fw && x.resets == e.resets)
  {
    assert NoEffectKind(a.kind) <==> IsAcknowledged(a.kind);
    Regroup(e.s.replayLog, a.id, "\n");
  }

  /** All actions of a reply: one report each, in order; a firewall rolled back at least once is cleared and off, any
      other is as it was. */
  lemma {:induction false} ActionsDo(s: State, actions: seq<PendingAction>, f: Faults)
    ensures
      var x := RunActions(s, actions, f);
      && |x.reports| == |actions| && (forall k :: 0 <= k < |actions| ==> x.reports[k].0 == actions[k].id)
      && (x.resets > 0 ==> x.s.fw.rules == [] && !x.s.fw.active)
      && (x.resets == 0 ==> x.s.fw == s.fw)
      && x.s.fw.defaultIn == s.fw.defaultIn && x.s.fw.defaultOut == s.fw.defaultOut
  {
    if actions != [] {
      var n := |actions| - 1;
      ActionsDo(s, actions[..n], f);
      ActionDoes(RunActions(s, actions[..n], f), actions[n], n, f);
      assert forall k :: 0 <= k < n ==> actions[..n][k] == actions[k];
    }
  }

  /** A rollback that is not in the log yet, and whose reset succeeds, leaves no rule live. */
  lemma RollbackClears(s: State, before: seq<PendingAction>, a: PendingAction, f: Faults)
    requires a.kind == "rollback" && f.resetOk(|before|)
    requires !AlreadyExecuted(RunActions(s, before, f).s.replayLog, a.id)
    ensures
      var x := RunActions(s, before + [a], f);
      && x.s.fw.rules == [] && !x.s.fw.active && x.executed == RunActions(s, before, f).executed + [a.id]
      && x.reports == RunActions(s, before, f).reports + [(a.id, true)]
  {
    assert (before + [a])[..|before|] == before;
    ActionDoes(RunActions(s, before, f), a, |before|, f);
  }

  // ---- reports about applies -----------------------------------------------

  lemma PlanReport(su: Setup, s: State, plan: Option<Plan>, f: Faults, live: string)
    ensures
      var e := ApplyPlan(su, s, plan, f);
      var report := ReportOf(plan, e.hash, live);
      && (report.Some? <==> plan.Some?)
      && (report.Some? ==>
            var ctx := Context(su, plan.value.defaults);
            && (report.value.success <==>
                  ChecksPass(su, plan.value.rules, ctx, f)
                  && ApplyLines(su.sys, s.fw, CompileLines(plan.value.rules, ctx), f.apply).failed == 0)
            && (report.value.success && f.expectedOk ==> e.s.expected == Some(report.value.newHash))
            && (!report.value.success ==>
                  && e.s.lastGood == s.lastGood && e.s.expected == s.expected && e.s.lastDefaults == s.lastDefaults
                  && report.value.newHash == live))
  {
    if plan.Some? {
      AppliesIffChecksPass(su, s, plan.value.rules, Context(su, plan.value.defaults), f);
      SuccessWrites(su, s, plan.value, f);
    }
  }

  /** What the agent reports about the apply of a delivered reply is what happened: success iff the checks passed and no
      command failed; then the hash reported is the one the drift slot gets, and otherwise the slots are as they were
      and the hash is that of the firewall before. */
  lemma ReportIsTrue(su: Setup, s: State, now: nat, r: Response, f: Faults)
    ensures
      var s1 := TakeConfig(s.(lastContact := now), r.config, f);
      var plan, report := Choose(s1, r, LocalDrift(su, s, f.statusOk)), CycleReport(su, s, now, r, f);
      var end := DeliveredCycle(su, s, now, r, f).s;
      && (report.Some? <==> plan.Some?)
      && (report.Some? ==>
            var ctx := Context(su, plan.value.defaults);
            && (report.value.success <==>
                  ChecksPass(su, plan.value.rules, ctx, f)
                  && ApplyLines(su.sys, s.fw, CompileLines(plan.value.rules, ctx), f.apply).failed == 0)
            && (report.value.success && f.expectedOk ==> end.expected == Some(report.value.newHash))
            && (!report.value.success ==>
                  && end.lastGood == s.lastGood && end.expected == s.expected && end.lastDefaults == s.lastDefaults
                  && report.value.newHash == if f.statusOk then LiveHash(su.sys, s.fw) else ""))
  {
    var s1 := TakeConfig(s.(lastContact := now), r.config, f);
    var plan := Choose(s1, r, LocalDrift(su, s, f.statusOk));
    ActionsLeaveSlots(ApplyPlan(su, s1, plan, f).s, r.actions, f);
    PlanReport(su, s1, plan, f, if f.statusOk then LiveHash(su.sys, s.fw) else "");
  }

  // ---- configuration -------------------------------------------------------

  /** The manager's configuration is newer than the one the agent runs. */
  predicate NewerKnown(w: World) {
    w.mgr.config.Some? && w.mgr.config.value.version > w.agent.running.version
  }

  lemma ReplyConfig(su: Setup, w: World, now: nat)
    ensures Reply(su, w, now).config == if NewerKnown(w) then w.mgr.config else None
  {
  }

  /** A delivered reply brings the manager's whole configuration, safe-mode switch included, iff it is newer, and it is
      saved if the write succeeds. */
  lemma ConfigTaken(su: Setup, w: World, now: nat, f: Faults)
    ensures
      var v := Next(su, w, CheckInEvent(now, Complete, f)).agent;
      && v.running == (if NewerKnown(w) then w.mgr.config.value else w.agent.running)
      && v.saved == (if NewerKnown(w) && f.configOk then w.mgr.config.value else w.agent.saved)
  {
    ReplyConfig(su, w, now);
    CycleKeepsConfig(su, w.agent, now, Some(Reply(su, w, now)), f);
  }

  /** A failed check-in changes neither copy; a restart runs the saved one. */
  lemma ConfigOtherwise(su: Setup, w: World, now: nat, d: Delivery, f: Faults)
    ensures !d.Complete? ==>
              var v := Next(su, w, CheckInEvent(now, d, f)).agent;
              v.running == w.agent.running && v.saved == w.agent.saved
    ensures
      var v := Next(su, w, RestartEvent(now)).agent;
      v.running == w.agent.saved && v.saved == w.agent.saved
  {
    if !d.Complete? {
      LostKeepsConfig(su, w.agent, now, f);
    }
  }
}
