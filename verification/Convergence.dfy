/** From the manager's policy to packets: one good check-in puts the policy in force, and it stays in force. */
module Convergence {
  import opened Text
  import opened Encoding
  import opened Models
  import opened Ufw
  import opened UfwApply
  import opened UfwMeaning
  import opened Agent
  import opened Manager
  import opened Protocol

  /** Nothing goes wrong during the check-in: the checks pass, the tools and writes succeed, no command fails. */
  predicate GoodCheckIn(su: Setup, w: World, now: nat, f: Faults) {
    && CleanCheckIn(su, w, now, f) && f.apply.resetOk && f.apply.enableOk
    && ApplyStep(su, w, now, f).ran
    && RunActions(ApplyStep(su, w, now, f).s, Reply(su, w, now).actions, f).resets == 0
  }

  /** The firewall is what a complete replay of the last good ruleset leaves: another one changes nothing. */
  predicate InForce(su: Setup, s: State) {
    s.lastGood.Some?
    && s.fw == CompleteState(su.sys.rd, s.lastGood.value, Context(su, CachedDefaults(s)), s.fw)
  }

  /** What the plan of a check-in leaves when it is applied completely. */
  function PlanState(su: Setup, plan: Plan, before: Firewall): Firewall {
    CompleteState(su.sys.rd, plan.rules, Context(su, plan.defaults), before)
  }

  lemma AppliedState(su: Setup, s: State, plan: Plan, f: Faults)
    requires su.sys.rd.Valid() && HexDigest(su.sys.digest) && f.apply.resetOk && f.apply.enableOk
    requires f.goodOk && f.expectedOk && f.defaultsOk && ApplyPlan(su, s, Some(plan), f).hash.Some?
    ensures
      var v := ApplyPlan(su, s, Some(plan), f).s;
      v.fw == PlanState(su, plan, s.fw) && InForce(su, v)
  {
    AppliedHash(su, s, plan.rules, plan.defaults, f);
    ApplyRecords(su, s, plan, f);
    CompleteTwice(su.sys.rd, plan.rules, Context(su, plan.defaults), s.fw);
  }

  lemma SameInForce(su: Setup, s: State, v: State)
    requires s.fw == v.fw && s.lastGood == v.lastGood && s.lastDefaults == v.lastDefaults
    ensures InForce(su, s) == InForce(su, v)
  {
  }

  /** A clean check-in that applies, whatever became of reset and enable, leaves its plan recorded and nothing to
      do; its actions touch neither the firewall nor the slots unless one rolls back. */
  lemma CheckInSettles(su: Setup, w: World, now: nat, f: Faults)
    requires GoodSystem(su) && KnownPolicy(w.mgr) && CleanCheckIn(su, w, now, f) && ApplyStep(su, w, now, f).ran
    requires RunActions(ApplyStep(su, w, now, f).s, Reply(su, w, now).actions, f).resets == 0
    ensures
      var v, plan := Next(su, w, CheckInEvent(now, Complete, f)), PlanOf(su, w, now, f).value;
      && SameFirewall(ApplyStep(su, w, now, f).s, v.agent)
      && v.agent.lastGood == Some(plan.rules) && CachedDefaults(v.agent) == plan.defaults
      && Recorded(su, v.agent) && !Unsettled(su, v) && v.mgr.policy == w.mgr.policy
  {
    var x, actions := ApplyStep(su, w, now, f), Reply(su, w, now).actions;
    var mgr, end := AfterCheckIn(w.mgr, now), RunActions(x.s, actions, f).s;
    CheckInParts(su, w, now, f);
    ApplyRecords(su, Prepared(su, w, now, f), PlanOf(su, w, now, f).value, f);
    ApplyKeepsRecorded(su, Prepared(su, w, now, f), PlanOf(su, w, now, f).value, f);
    ApplySettles(su, w, now, f, mgr);
    ActionsLeaveSlots(x.s, actions, f);
    SameRecorded(su, x.s, end);
    SameDebt(su, World(x.s, mgr), World(end, mgr));
  }

  /** Convergence: from any world, whatever failed before and whatever the texts hold, one good check-in that
      applies leaves exactly its plan completely applied, and nothing to do. */
  lemma Converges(su: Setup, w: World, now: nat, f: Faults)
    requires GoodSystem(su) && KnownPolicy(w.mgr) && GoodCheckIn(su, w, now, f)
    ensures
      var v := Next(su, w, CheckInEvent(now, Complete, f));
      && v.agent.fw == PlanState(su, PlanOf(su, w, now, f).value, w.agent.fw)
      && InForce(su, v.agent) && Recorded(su, v.agent) && !Unsettled(su, v) && v.mgr.policy == w.mgr.policy
  {
    CheckInSettles(su, w, now, f);
    PreparedKeepsSlots(su, w, now, f);
    AppliedState(su, Prepared(su, w, now, f), PlanOf(su, w, now, f).value, f);
    SameInForce(su, ApplyStep(su, w, now, f).s, Next(su, w, CheckInEvent(now, Complete, f)).agent);
  }

  predicate SameFirewall(s: State, v: State) {
    v.fw == s.fw && v.lastGood == s.lastGood && v.lastDefaults == s.lastDefaults
  }

  lemma DeliveredKeepsFirewall(su: Setup, w: World, now: nat, f: Faults)
    requires !ApplyStep(su, w, now, f).ran
    requires RunActions(ApplyStep(su, w, now, f).s, Reply(su, w, now).actions, f).resets == 0
    ensures SameFirewall(w.agent, Next(su, w, CheckInEvent(now, Complete, f)).agent)
  {
    CheckInParts(su, w, now, f);
    PreparedKeepsSlots(su, w, now, f);
    NotRunKeepsState(su, Prepared(su, w, now, f), PlanOf(su, w, now, f), f);
    ActionsLeaveSlots(ApplyStep(su, w, now, f).s, Reply(su, w, now).actions, f);
  }

  /** A complete safe-mode revert puts back what is already there. */
  lemma RevertKeepsFirewall(su: Setup, s: State, now: nat, f: Faults)
    requires su.sys.rd.Valid() && InForce(su, s) && CleanRevert(su, s, now, f)
    ensures SameFirewall(s, LostCycle(su, s, now, f).s)
  {
    LostKeepsSlots(su, s, now, f);
    LostCheckInAppliesIff(su, s, now, f);
    if LostCycle(su, s, now, f).ran {
      AppliedHash(su, s, s.lastGood.value, CachedDefaults(s), f);
    }
  }

  /** Only applies and the counted changes touch a firewall in force. */
  lemma EventKeepsFirewall(su: Setup, w: World, e: Event)
    requires su.sys.rd.Valid() && InForce(su, w.agent) && CleanEvent(su, w, e)
    requires !Applies(su, w, e) && Changes(su, w, e) == 0
    ensures SameFirewall(w.agent, Next(su, w, e).agent)
  {
    if Delivers(e) {
      CheckInParts(su, w, e.now, e.f);
      DeliveredKeepsFirewall(su, w, e.now, e.f);
    } else if e.CheckInEvent? {
      RevertKeepsFirewall(su, w.agent, e.now, e.f);
    }
  }

  lemma {:induction false} QuietKeepsFirewall(su: Setup, w: World, es: seq<Event>)
    requires su.sys.rd.Valid() && InForce(su, w.agent) && CleanRun(su, w, es)
    requires ApplyCount(su, w, es) == 0 && ChangeCount(su, w, es) == 0
    ensures SameFirewall(w.agent, Worlds(su, w, es).agent)
  {
    if es != [] {
      var n := |es| - 1;
      CleanPrefix(su, w, es, n);
      QuietKeepsFirewall(su, w, es[..n]);
      SameInForce(su, w.agent, Worlds(su, w, es[..n]).agent);
      EventKeepsFirewall(su, Worlds(su, w, es[..n]), es[n]);
    }
  }

  /** The manager's policy, as the agent would apply it. */
  function ManagerPlan(m: Host): Plan { Plan(DtosToRules(AssignedRules(m)), AssignedDefaults(m)) }

  /** The policy in force: after one good check-in with an update pending, over every clean run with nothing
      edited, changed or rolled back, lost check-ins, restarts and safe-mode reverts included, the firewall is
      exactly the manager's policy completely applied. */
  lemma PolicyStaysInForce(su: Setup, w: World, now: nat, f: Faults, es: seq<Event>)
    requires GoodSystem(su) && KnownPolicy(w.mgr) && UpdatePending(su, w) && GoodCheckIn(su, w, now, f)
    requires
      var v := Next(su, w, CheckInEvent(now, Complete, f));
      CleanRun(su, v, es) && ChangeCount(su, v, es) == 0
    ensures
      var v := Next(su, w, CheckInEvent(now, Complete, f));
      Worlds(su, v, es).agent.fw == PlanState(su, ManagerPlan(w.mgr), w.agent.fw)
  {
    var v := Next(su, w, CheckInEvent(now, Complete, f));
    PlansIffUnsettled(su, w, now, f);
    Converges(su, w, now, f);
    ConvergedStaysQuiet(su, v, es);
    QuietKeepsFirewall(su, v, es);
  }

  lemma EventWithoutReset(su: Setup, w: World, e: Event)
    requires !Resets(su, w, e) && Changes(su, w, e) == 0
    ensures SameFirewall(w.agent, Next(su, w, e).agent)
  {
    if Delivers(e) {
      CheckInParts(su, w, e.now, e.f);
      DeliveredKeepsFirewall(su, w, e.now, e.f);
    } else if e.CheckInEvent? {
      LostCheckInAppliesIff(su, w.agent, e.now, e.f);
    }
  }

  /** Only resets and the counted changes touch the firewall, whatever it holds and whatever fails. */
  lemma {:induction false} NothingElseTouches(su: Setup, w: World, es: seq<Event>)
    requires ResetCount(su, w, es) == 0 && ChangeCount(su, w, es) == 0
    ensures SameFirewall(w.agent, Worlds(su, w, es).agent)
  {
    if es != [] {
      var n := |es| - 1;
      NothingElseTouches(su, w, es[..n]);
      EventWithoutReset(su, Worlds(su, w, es[..n]), es[n]);
    }
  }

  lemma FailedStart(su: Setup, w: World, now: nat, f: Faults)
    requires ApplyStep(su, w, now, f).ran && !(f.apply.resetOk && f.apply.enableOk)
    ensures ApplyStep(su, w, now, f).s.fw == if f.apply.resetOk then Reset(w.agent.fw) else w.agent.fw
  {
    PreparedKeepsSlots(su, w, now, f);
  }

  /** A check-in whose reset or enable fails counts as done: its policy is recorded, nothing is left to do, and over
      every clean run without change no delivered check-in applies it. Unless safe mode happens to revert, the
      firewall stays as it was left, cleared and inactive after a failed enable. */
  lemma FailedStartIsFinal(su: Setup, w: World, now: nat, f: Faults, es: seq<Event>)
    requires GoodSystem(su) && KnownPolicy(w.mgr) && CleanCheckIn(su, w, now, f) && ApplyStep(su, w, now, f).ran
    requires RunActions(ApplyStep(su, w, now, f).s, Reply(su, w, now).actions, f).resets == 0
    requires !(f.apply.resetOk && f.apply.enableOk)
    requires
      var v := Next(su, w, CheckInEvent(now, Complete, f));
      CleanRun(su, v, es) && ChangeCount(su, v, es) == 0
    ensures
      var v := Next(su, w, CheckInEvent(now, Complete, f));
      && v.agent.lastGood == Some(PlanOf(su, w, now, f).value.rules) && !Unsettled(su, v)
      && ApplyCount(su, v, es) == 0
      && (RevertCount(su, v, es) == 0 ==>
            Worlds(su, v, es).agent.fw == if f.apply.resetOk then Reset(w.agent.fw) else w.agent.fw)
  {
    var v := Next(su, w, CheckInEvent(now, Complete, f));
    CheckInSettles(su, w, now, f);
    FailedStart(su, w, now, f);
    ConvergedStaysQuiet(su, v, es);
    ResetsAreAppliesAndReverts(su, v, es);
    if RevertCount(su, v, es) == 0 {
      NothingElseTouches(su, v, es);
    }
  }

  /** What that means for packets: the policy's own verdict when its lines are read as meant, which they are when
      interfaces and addresses are plain. */
  lemma PlanStateMeans(su: Setup, plan: Plan, before: Firewall, p: Packet)
    requires su.sys.rd.Valid() && Gate(su.sys.rd, Context(su, plan.defaults))
    requires ReadsAsMeant(su.sys.rd, plan.rules) && PlainDefaults(Context(su, plan.defaults))
    ensures Verdict(su.sys.rd, PlanState(su, plan, before), p)
         == PolicyVerdict(su.sys.rd, plan.rules, Context(su, plan.defaults), before, p)
  {
    CompleteMeans(su.sys.rd, plan.rules, Context(su, plan.defaults), before, p);
  }

  /** Self-healing: after an out-of-band change that the snapshot shows, with no update pending, one good check-in
      puts the last good ruleset back in force under the remembered defaults. */
  lemma DriftIsHealed(su: Setup, w: World, now: nat, f: Faults)
    requires GoodSystem(su) && KnownPolicy(w.mgr) && GoodCheckIn(su, w, now, f)
    requires !UpdatePending(su, w) && LocalDrift(su, w.agent, true) && HasLastGood(w.agent)
    ensures
      var v := Next(su, w, CheckInEvent(now, Complete, f));
      && v.agent.fw == PlanState(su, Plan(w.agent.lastGood.value, CachedDefaults(w.agent)), w.agent.fw)
      && !Unsettled(su, v)
  {
    PlansIffUnsettled(su, w, now, f);
    PlanCases(su, w, now, f);
    Converges(su, w, now, f);
  }

  lemma PendingPlanComplete(su: Setup, w: World, now: nat, f: Faults)
    requires su.sys.rd.Valid() && UpdatePending(su, w) && GoodCheckIn(su, w, now, f)
    requires PlainRules(ManagerPlan(w.mgr).rules)
    ensures Gate(su.sys.rd, Context(su, ManagerPlan(w.mgr).defaults))
    ensures ReadsAsMeant(su.sys.rd, ManagerPlan(w.mgr).rules)
  {
    var plan := ManagerPlan(w.mgr);
    PendingIsRetried(su, w, now, f);
    CompleteReplay(su.sys, Prepared(su, w, now, f).fw, plan.rules, Context(su, plan.defaults), f.apply);
    PlainReadsAll(su.sys.rd, plan.rules);
  }
}
