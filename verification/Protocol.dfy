/** Agent and manager together: when applies stop, that updates are not lost, and the config handshake. */
module Protocol {
  import opened Text
  import opened Encoding
  import opened Models
  import opened Ufw
  import opened UfwCompile
  import opened UfwApply
  import opened UfwMeaning
  import opened Agent
  import opened Manager

  datatype World = World(agent: State, mgr: Host)

  /** How far a check-in got: not to the manager, to the manager only, or all the way. */
  datatype Delivery = RequestLost | ReplyLost | Complete

  datatype Event =
    | CheckInEvent(now: nat, delivery: Delivery, f: Faults)
    | ReportEvent(id: string, success: bool)
    | QueueEvent(row: ActionRow)
    | PolicyEdit(policy: Option<seq<RuleDto>>)
    | DefaultsEdit(defaults: Defaults)
    | IntervalEdit(interval: int)
    | OutOfBand(fw: Firewall)
    | RestartEvent(now: nat)

  /** The manager's answer to the agent's own request. */
  function Reply(su: Setup, w: World, now: nat): Response {
    Answer(su.sys.digest, w.mgr, now, ReportedHash(su, w.agent), w.agent.running.version)
  }

  function CheckInCycle(su: Setup, w: World, now: nat, d: Delivery, f: Faults): CycleEnd {
    Cycle(su, w.agent, now, if d.Complete? then Some(Reply(su, w, now)) else None, f)
  }

  function EditPolicy(m: Host, rules: Option<seq<RuleDto>>): Host {
    match rules
    case None => m.(policy := None)
    case Some(rs) => m.(policy := Some(Policy(rs, AssignedDefaults(m))))
  }

  function EditDefaults(m: Host, d: Defaults): Host {
    match m.policy
    case None => m
    case Some(p) => m.(policy := Some(p.(defaults := d)))
  }

  function Next(su: Setup, w: World, e: Event): World {
    match e
    case CheckInEvent(now, d, f) =>
      World(CheckInCycle(su, w, now, d, f).s, if d.RequestLost? then w.mgr else AfterCheckIn(w.mgr, now))
    case ReportEvent(id, success) => w.(mgr := AfterReport(w.mgr, id, success))
    case QueueEvent(row) => w.(mgr := w.mgr.(actions := w.mgr.actions + [row]))
    case PolicyEdit(rs) => w.(mgr := EditPolicy(w.mgr, rs))
    case DefaultsEdit(d) => w.(mgr := EditDefaults(w.mgr, d))
    case IntervalEdit(n) => w.(mgr := AfterInterval(w.mgr, n))
    case OutOfBand(fw) => w.(agent := w.agent.(fw := fw))
    case RestartEvent(now) => w.(agent := Restart(w.agent, now))
  }

  function Worlds(su: Setup, w: World, es: seq<Event>): World {
    if es == [] then w else Next(su, Worlds(su, w, es[..|es| - 1]), es[|es| - 1])
  }

  // ---- counting resets -----------------------------------------------------

  /** The event makes the backend reset the firewall and replay a ruleset. */
  predicate Resets(su: Setup, w: World, e: Event) {
    e.CheckInEvent? && CheckInCycle(su, w, e.now, e.delivery, e.f).ran
  }

  predicate Delivers(e: Event) { e.CheckInEvent? && e.delivery.Complete? }

  /** It does so on a delivered reply: for a new policy, or to heal drift. */
  predicate Applies(su: Setup, w: World, e: Event) { Delivers(e) && Resets(su, w, e) }

  /** It does so on a failed check-in: safe mode. */
  predicate SafeModeRevert(su: Setup, w: World, e: Event) { !Delivers(e) && Resets(su, w, e) }

  /** How many changes the event makes to what should be or is live: an edit, an out-of-band change, each
      rollback executed. */
  function Changes(su: Setup, w: World, e: Event): nat {
    match e
    case PolicyEdit(_) => 1
    case DefaultsEdit(_) => 1
    case OutOfBand(_) => 1
    case CheckInEvent(now, d, f) => CheckInCycle(su, w, now, d, f).resets
    case _ => 0
  }

  function ResetCount(su: Setup, w: World, es: seq<Event>): nat {
    if es == [] then 0
    else
      var n := |es| - 1;
      ResetCount(su, w, es[..n]) + Tally(Resets(su, Worlds(su, w, es[..n]), es[n]))
  }

  function ApplyCount(su: Setup, w: World, es: seq<Event>): nat {
    if es == [] then 0
    else
      var n := |es| - 1;
      ApplyCount(su, w, es[..n]) + Tally(Applies(su, Worlds(su, w, es[..n]), es[n]))
  }

  function RevertCount(su: Setup, w: World, es: seq<Event>): nat {
    if es == [] then 0
    else
      var n := |es| - 1;
      RevertCount(su, w, es[..n]) + Tally(SafeModeRevert(su, Worlds(su, w, es[..n]), es[n]))
  }

  function ChangeCount(su: Setup, w: World, es: seq<Event>): nat {
    if es == [] then 0
    else
      var n := |es| - 1;
      ChangeCount(su, w, es[..n]) + Changes(su, Worlds(su, w, es[..n]), es[n])
  }

  lemma {:induction false} ResetsAreAppliesAndReverts(su: Setup, w: World, es: seq<Event>)
    ensures ResetCount(su, w, es) == ApplyCount(su, w, es) + RevertCount(su, w, es)
  {
    if es != [] {
      ResetsAreAppliesAndReverts(su, w, es[..|es| - 1]);
    }
  }

  // ---- what the drift slot records -----------------------------------------

  /** `ufw status numbered` shows whether the firewall is active and its rules, not the default policies. */
  ghost predicate ListsRules(sys: System) {
    forall a: Firewall, b: Firewall :: a.active == b.active && a.rules == b.rules ==> sys.listing(a) == sys.listing(b)
  }

  function Umbilical(su: Setup): UfwRule { UmbilicalRule(Context(su, Defaults(None, None))) }

  /** The live rules of a ruleset, under some defaults. */
  function LiveForm(su: Setup, rules: seq<Rule>): Firewall {
    Firewall(true, [Umbilical(su)] + ReadBacks(su.sys.rd, rules), Allow, Allow)
  }

  /** The drift slot is empty or holds the snapshot of the last good ruleset completely applied. */
  predicate Recorded(su: Setup, s: State) {
    s.lastGood.Some? && LoadExpected(s.expected).Some? ==>
      LoadExpected(s.expected).value == LiveHash(su.sys, LiveForm(su, s.lastGood.value))
  }

  lemma SameRecorded(su: Setup, s: State, v: State)
    requires s.lastGood == v.lastGood && s.expected == v.expected
    ensures Recorded(su, s) == Recorded(su, v)
  {
  }

  lemma CompleteHash(su: Setup, rules: seq<Rule>, d: Defaults, before: Firewall)
    requires ListsRules(su.sys)
    ensures LiveHash(su.sys, CompleteState(su.sys.rd, rules, Context(su, d), before))
         == LiveHash(su.sys, LiveForm(su, rules))
  {
    var a, b := CompleteState(su.sys.rd, rules, Context(su, d), before), LiveForm(su, rules);
    assert su.sys.listing(a) == su.sys.listing(b);
  }

  lemma HexIsSpaceFree(s: string)
    requires IsHex64(s)
    ensures SpaceFree(s)
  {
  }

  /** A snapshot hash, or the empty one of a failed snapshot, as the slot reads back. */
  lemma SlotReadsBack(h: string)
    requires h == "" || IsHex64(h)
    ensures LoadExpected(Some(h)) == if h == "" then None else Some(h)
  {
    if h != "" {
      HexIsSpaceFree(h);
      TrimSpaceFree(h);
    }
  }

  /** What a successful apply leaves: a complete replay and its hash, or an empty hash. */
  lemma AppliedHash(su: Setup, s: State, rules: seq<Rule>, d: Defaults, f: Faults)
    requires su.sys.rd.Valid() && ApplyRules(su, s, rules, Context(su, d), f).hash.Some?
    ensures
      var e := ApplyRules(su, s, rules, Context(su, d), f);
      && (f.apply.resetOk && f.apply.enableOk ==> e.s.fw == CompleteState(su.sys.rd, rules, Context(su, d), s.fw))
      && (e.hash.value != "" ==> f.apply.resetOk && f.apply.enableOk && e.hash.value == LiveHash(su.sys, e.s.fw))
  {
    if f.apply.resetOk && f.apply.enableOk {
      CompleteReplay(su.sys, s.fw, rules, Context(su, d), f.apply);
    }
  }

  // ---- when applies stop ---------------------------------------------------

  /** The policy the manager holds is not the one the agent recorded. */
  predicate UpdatePending(su: Setup, w: World) {
    AssignedRules(w.mgr) != []
    && (ReportedHash(su, w.agent) != ExpectedRulesHash(su.sys.digest, w.mgr)
        || CachedDefaults(w.agent) != AssignedDefaults(w.mgr))
  }

  /** The next delivered check-in would want to apply something. */
  predicate Unsettled(su: Setup, w: World) {
    UpdatePending(su, w) || (LocalDrift(su, w.agent, true) && HasLastGood(w.agent))
  }

  predicate KnownPolicy(m: Host) {
    forall i :: 0 <= i < |AssignedRules(m)| ==> KnownNames(AssignedRules(m)[i])
  }

  /** The step of a delivered check-in between taking the reply and running its actions. */
  function Prepared(su: Setup, w: World, now: nat, f: Faults): State {
    TakeConfig(w.agent.(lastContact := now), Reply(su, w, now).config, f)
  }

  function PlanOf(su: Setup, w: World, now: nat, f: Faults): Option<Plan> {
    Choose(Prepared(su, w, now, f), Reply(su, w, now), LocalDrift(su, w.agent, f.statusOk))
  }

  function ApplyStep(su: Setup, w: World, now: nat, f: Faults): ApplyEnd {
    ApplyPlan(su, Prepared(su, w, now, f), PlanOf(su, w, now, f), f)
  }

  /** A delivered check-in plans an apply exactly when the world is unsettled. */
  lemma PlansIffUnsettled(su: Setup, w: World, now: nat, f: Faults)
    requires f.statusOk
    ensures PlanOf(su, w, now, f).Some? <==> Unsettled(su, w)
    ensures UpdatePending(su, w) ==>
              PlanOf(su, w, now, f) == Some(Plan(DtosToRules(AssignedRules(w.mgr)), AssignedDefaults(w.mgr)))
  {
  }

  /** The status command and the slot writes succeed, and no command of a replay fails. */
  predicate CleanCheckIn(su: Setup, w: World, now: nat, f: Faults) {
    && f.statusOk && f.goodOk && f.expectedOk && f.defaultsOk
    && (ApplyStep(su, w, now, f).ran ==> ApplyStep(su, w, now, f).hash.Some?)
  }

  /** A slot just written with a snapshot hash never reads as drift against the same live state. */
  lemma NoDriftAfterApply(su: Setup, s: State, rules: seq<Rule>, ctx: ApplyContext, f: Faults, d: Defaults)
    requires HexDigest(su.sys.digest) && f.expectedOk
    requires ApplyRules(su, s, rules, ctx, f).hash.Some?
    ensures
      var e := ApplyRules(su, s, rules, ctx, f);
      !LocalDrift(su, Remember(e.s, e.hash.value, d, f), true)
  {
    SlotReadsBack(ApplyRules(su, s, rules, ctx, f).hash.value);
  }

  /** A successful apply records its rules and defaults, and leaves no drift. */
  lemma ApplyRecords(su: Setup, s: State, plan: Plan, f: Faults)
    requires HexDigest(su.sys.digest) && f.goodOk && f.expectedOk && f.defaultsOk
    requires ApplyPlan(su, s, Some(plan), f).hash.Some?
    ensures
      var v := ApplyPlan(su, s, Some(plan), f).s;
      v.lastGood == Some(plan.rules) && CachedDefaults(v) == plan.defaults && !LocalDrift(su, v, true)
  {
    NoDriftAfterApply(su, s, plan.rules, Context(su, plan.defaults), f, plan.defaults);
  }

  /** What it writes into the drift slot is the snapshot of its own rules completely applied. */
  lemma ApplyKeepsRecorded(su: Setup, s: State, plan: Plan, f: Faults)
    requires su.sys.rd.Valid() && HexDigest(su.sys.digest) && ListsRules(su.sys)
    requires f.goodOk && f.expectedOk && ApplyPlan(su, s, Some(plan), f).hash.Some?
    ensures Recorded(su, ApplyPlan(su, s, Some(plan), f).s)
  {
    var e := ApplyRules(su, s, plan.rules, Context(su, plan.defaults), f);
    AppliedHash(su, s, plan.rules, plan.defaults, f);
    CompleteHash(su, plan.rules, plan.defaults, s.fw);
    SlotReadsBack(e.hash.value);
  }

  lemma PlanCases(su: Setup, w: World, now: nat, f: Faults)
    requires f.statusOk && PlanOf(su, w, now, f).Some?
    ensures
      var plan := PlanOf(su, w, now, f).value;
      if UpdatePending(su, w)
      then plan == Plan(DtosToRules(AssignedRules(w.mgr)), AssignedDefaults(w.mgr))
      else w.agent.lastGood == Some(plan.rules) && plan.defaults == CachedDefaults(w.agent)
  {
    PlansIffUnsettled(su, w, now, f);
  }

  /** A successful apply settles the world. */
  lemma ApplySettles(su: Setup, w: World, now: nat, f: Faults, mgr: Host)
    requires HexDigest(su.sys.digest) && KnownPolicy(w.mgr)
    requires CleanCheckIn(su, w, now, f) && ApplyStep(su, w, now, f).ran
    requires mgr.policy == w.mgr.policy
    ensures !Unsettled(su, World(ApplyStep(su, w, now, f).s, mgr))
  {
    var plan := PlanOf(su, w, now, f).value;
    ApplyRecords(su, Prepared(su, w, now, f), plan, f);
    PlanCases(su, w, now, f);
    RecordedSettles(su, w, plan, World(ApplyStep(su, w, now, f).s, mgr));
  }

  lemma RecordedSettles(su: Setup, w: World, plan: Plan, v: World)
    requires KnownPolicy(w.mgr) && v.mgr.policy == w.mgr.policy
    requires v.agent.lastGood == Some(plan.rules) && CachedDefaults(v.agent) == plan.defaults
    requires !LocalDrift(su, v.agent, true)
    requires if UpdatePending(su, w)
             then plan == Plan(DtosToRules(AssignedRules(w.mgr)), AssignedDefaults(w.mgr))
             else w.agent.lastGood == Some(plan.rules) && plan.defaults == CachedDefaults(w.agent)
    ensures !Unsettled(su, v)
  {
    SameRulesSameHash(su.sys.digest, AssignedRules(w.mgr));
  }

  lemma {:induction false} ActionsLeaveSlots(s: State, actions: seq<PendingAction>, f: Faults)
    ensures
      var e := RunActions(s, actions, f);
      && e.s.lastGood == s.lastGood && e.s.lastDefaults == s.lastDefaults && e.s.expected == s.expected
      && e.s.running == s.running && e.s.saved == s.saved
      && (e.resets == 0 ==> e.s.fw == s.fw)
  {
    if actions != [] {
      ActionsLeaveSlots(s, actions[..|actions| - 1], f);
    }
  }

  function Debt(su: Setup, w: World): nat { Tally(Unsettled(su, w)) }

  /** A revert replays completely. */
  predicate CleanRevert(su: Setup, s: State, now: nat, f: Faults) {
    LostCycle(su, s, now, f).ran ==>
      && f.apply.resetOk && f.apply.enableOk
      && ApplyRules(su, s, s.lastGood.value, Context(su, CachedDefaults(s)), f).hash.Some?
  }

  /** A clean run step: the check-in is clean and edited rules use known names. */
  predicate CleanEvent(su: Setup, w: World, e: Event) {
    match e
    case CheckInEvent(now, d, f) =>
      if d.Complete? then CleanCheckIn(su, w, now, f) else CleanRevert(su, w.agent, now, f)
    case PolicyEdit(Some(rs)) => forall i :: 0 <= i < |rs| ==> KnownNames(rs[i])
    case _ => true
  }

  /** The parts of a delivered check-in. */
  lemma CheckInParts(su: Setup, w: World, now: nat, f: Faults)
    ensures
      var e := CheckInEvent(now, Complete, f);
      var x := ApplyStep(su, w, now, f);
      var end := RunActions(x.s, Reply(su, w, now).actions, f);
      && Next(su, w, e) == World(end.s, AfterCheckIn(w.mgr, now))
      && Applies(su, w, e) == x.ran && Changes(su, w, e) == end.resets
  {
  }

  lemma NotRunKeepsState(su: Setup, s: State, plan: Option<Plan>, f: Faults)
    ensures !ApplyPlan(su, s, plan, f).ran ==> ApplyPlan(su, s, plan, f).s == s
    ensures ApplyPlan(su, s, plan, f).ran ==> plan.Some?
  {
  }

  lemma PreparedKeepsSlots(su: Setup, w: World, now: nat, f: Faults)
    ensures
      var s := Prepared(su, w, now, f);
      && s.fw == w.agent.fw && s.lastGood == w.agent.lastGood
      && s.lastDefaults == w.agent.lastDefaults && s.expected == w.agent.expected
  {
  }

  lemma ApplyDebt(su: Setup, w: World, now: nat, f: Faults, mgr: Host)
    requires HexDigest(su.sys.digest) && KnownPolicy(w.mgr) && CleanCheckIn(su, w, now, f)
    requires mgr.policy == w.mgr.policy
    ensures
      var x := ApplyStep(su, w, now, f);
      (if x.ran then 1 else 0) + Debt(su, World(x.s, mgr)) <= Debt(su, w)
  {
    var x := ApplyStep(su, w, now, f);
    NotRunKeepsState(su, Prepared(su, w, now, f), PlanOf(su, w, now, f), f);
    if x.ran {
      PlansIffUnsettled(su, w, now, f);
      ApplySettles(su, w, now, f, mgr);
    } else {
      PreparedKeepsSlots(su, w, now, f);
      SameDebt(su, w, World(x.s, mgr));
    }
  }

  lemma ActionsDebt(su: Setup, s: State, mgr: Host, actions: seq<PendingAction>, f: Faults)
    ensures
      var end := RunActions(s, actions, f);
      Debt(su, World(end.s, mgr)) <= Debt(su, World(s, mgr)) + end.resets
  {
    ActionsLeaveSlots(s, actions, f);
    SameDebt(su, World(s, mgr), World(RunActions(s, actions, f).s, mgr));
  }

  lemma CheckInDebt(su: Setup, w: World, now: nat, f: Faults)
    requires HexDigest(su.sys.digest) && KnownPolicy(w.mgr) && CleanCheckIn(su, w, now, f)
    ensures
      var e := CheckInEvent(now, Complete, f);
      Tally(Applies(su, w, e)) + Debt(su, Next(su, w, e)) <= Debt(su, w) + Changes(su, w, e)
  {
    CheckInParts(su, w, now, f);
    ApplyDebt(su, w, now, f, AfterCheckIn(w.mgr, now));
    ActionsDebt(su, ApplyStep(su, w, now, f).s, AfterCheckIn(w.mgr, now), Reply(su, w, now).actions, f);
  }

  lemma CheckInKeepsRecorded(su: Setup, w: World, now: nat, f: Faults)
    requires GoodSystem(su) && Recorded(su, w.agent) && CleanCheckIn(su, w, now, f)
    ensures Recorded(su, Next(su, w, CheckInEvent(now, Complete, f)).agent)
  {
    var s, x := Prepared(su, w, now, f), ApplyStep(su, w, now, f);
    CheckInParts(su, w, now, f);
    PreparedKeepsSlots(su, w, now, f);
    NotRunKeepsState(su, s, PlanOf(su, w, now, f), f);
    if x.ran {
      ApplyKeepsRecorded(su, s, PlanOf(su, w, now, f).value, f);
    } else {
      SameRecorded(su, w.agent, x.s);
    }
    ActionsLeaveSlots(x.s, Reply(su, w, now).actions, f);
    SameRecorded(su, x.s, RunActions(x.s, Reply(su, w, now).actions, f).s);
  }

  /** A complete revert puts back exactly what the drift slot records. */
  lemma RevertLeavesNoDrift(su: Setup, s: State, now: nat, f: Faults)
    requires su.sys.rd.Valid() && ListsRules(su.sys) && Recorded(su, s)
    requires LostCycle(su, s, now, f).ran && CleanRevert(su, s, now, f)
    ensures !LocalDrift(su, LostCycle(su, s, now, f).s, true)
  {
    AppliedHash(su, s, s.lastGood.value, CachedDefaults(s), f);
    CompleteHash(su, s.lastGood.value, CachedDefaults(s), s.fw);
  }

  lemma LostDebt(su: Setup, w: World, now: nat, d: Delivery, f: Faults)
    requires GoodSystem(su) && Recorded(su, w.agent) && !d.Complete? && CleanRevert(su, w.agent, now, f)
    ensures
      var v := Next(su, w, CheckInEvent(now, d, f));
      Debt(su, v) <= Debt(su, w) && Recorded(su, v.agent) && v.mgr.policy == w.mgr.policy
  {
    var v := Next(su, w, CheckInEvent(now, d, f));
    LostKeepsSlots(su, w.agent, now, f);
    SameRecorded(su, w.agent, v.agent);
    SamePending(su, w, v);
    if LostCycle(su, w.agent, now, f).ran {
      RevertLeavesNoDrift(su, w.agent, now, f);
    } else {
      LostCheckInAppliesIff(su, w.agent, now, f);
      SameDebt(su, w, v);
    }
  }

  /** Whether a world is settled depends only on the firewall, three slots and the assigned policy. */
  lemma SameDebt(su: Setup, w: World, v: World)
    requires w.agent.lastGood == v.agent.lastGood && w.agent.lastDefaults == v.agent.lastDefaults
    requires w.agent.expected == v.agent.expected && w.mgr.policy == v.mgr.policy
    ensures w.agent.fw == v.agent.fw ==> Unsettled(su, w) == Unsettled(su, v)
  {
  }

  /** The host's parsers, hash and listing are what they are assumed to be. */
  ghost predicate GoodSystem(su: Setup) {
    su.sys.rd.Valid() && HexDigest(su.sys.digest) && ListsRules(su.sys)
  }

  lemma OtherDebt(su: Setup, w: World, e: Event)
    requires !e.CheckInEvent? && Recorded(su, w.agent)
    ensures Debt(su, Next(su, w, e)) <= Debt(su, w) + Changes(su, w, e) && Recorded(su, Next(su, w, e).agent)
  {
    SameRecorded(su, w.agent, Next(su, w, e).agent);
    if Changes(su, w, e) == 0 {
      SameDebt(su, w, Next(su, w, e));
    }
  }

  lemma KnownStays(su: Setup, w: World, e: Event)
    requires KnownPolicy(w.mgr) && CleanEvent(su, w, e)
    ensures KnownPolicy(Next(su, w, e).mgr)
  {
    match e
    case PolicyEdit(Some(rs)) => assert AssignedRules(Next(su, w, e).mgr) == rs;
    case _ => assert e.PolicyEdit? || AssignedRules(Next(su, w, e).mgr) == AssignedRules(w.mgr);
  }

  /** Every event pays for the apply it makes; a safe-mode revert makes no later one. */
  lemma EventDebt(su: Setup, w: World, e: Event)
    requires GoodSystem(su) && KnownPolicy(w.mgr) && Recorded(su, w.agent) && CleanEvent(su, w, e)
    ensures Tally(Applies(su, w, e)) + Debt(su, Next(su, w, e)) <= Debt(su, w) + Changes(su, w, e)
    ensures KnownPolicy(Next(su, w, e).mgr) && Recorded(su, Next(su, w, e).agent)
  {
    KnownStays(su, w, e);
    if Delivers(e) {
      CheckInDebt(su, w, e.now, e.f);
      CheckInKeepsRecorded(su, w, e.now, e.f);
    } else if e.CheckInEvent? {
      LostDebt(su, w, e.now, e.delivery, e.f);
    } else {
      OtherDebt(su, w, e);
    }
  }

  predicate CleanRun(su: Setup, w: World, es: seq<Event>) {
    forall k :: 0 <= k < |es| ==> CleanEvent(su, Worlds(su, w, es[..k]), es[k])
  }

  lemma CleanPrefix(su: Setup, w: World, es: seq<Event>, n: nat)
    requires n <= |es| && CleanRun(su, w, es)
    ensures CleanRun(su, w, es[..n])
  {
    forall k | 0 <= k < n ensures CleanEvent(su, Worlds(su, w, es[..n][..k]), es[..n][k]) {
      assert es[..n][..k] == es[..k] && es[..n][k] == es[k];
    }
  }

  /** Quiescence: over any clean run the applies on delivered replies are paid for by the initial state and by
      the changes made; reverts do not add to them. */
  lemma {:induction false} ApplyBound(su: Setup, w: World, es: seq<Event>)
    requires GoodSystem(su) && KnownPolicy(w.mgr) && Recorded(su, w.agent) && CleanRun(su, w, es)
    ensures ApplyCount(su, w, es) + Debt(su, Worlds(su, w, es)) <= Debt(su, w) + ChangeCount(su, w, es)
    ensures KnownPolicy(Worlds(su, w, es).mgr) && Recorded(su, Worlds(su, w, es).agent)
  {
    if es != [] {
      var n := |es| - 1;
      CleanPrefix(su, w, es, n);
      ApplyBound(su, w, es[..n]);
      EventDebt(su, Worlds(su, w, es[..n]), es[n]);
    }
  }

  /** All resets of the firewall, on delivered replies and in safe mode. */
  lemma ResetBound(su: Setup, w: World, es: seq<Event>)
    requires GoodSystem(su) && KnownPolicy(w.mgr) && Recorded(su, w.agent) && CleanRun(su, w, es)
    ensures ResetCount(su, w, es) <= 1 + ChangeCount(su, w, es) + RevertCount(su, w, es)
    ensures ApplyCount(su, w, es) <= 1 + ChangeCount(su, w, es)
  {
    ResetsAreAppliesAndReverts(su, w, es);
    ApplyBound(su, w, es);
  }

  /** A converged host is left alone: with nothing edited, changed or rolled back, no delivered check-in of a
      clean run resets the firewall, safe-mode reverts or not. */
  lemma ConvergedStaysQuiet(su: Setup, w: World, es: seq<Event>)
    requires GoodSystem(su) && KnownPolicy(w.mgr) && Recorded(su, w.agent) && CleanRun(su, w, es)
    requires !Unsettled(su, w) && ChangeCount(su, w, es) == 0
    ensures ApplyCount(su, w, es) == 0 && !Unsettled(su, Worlds(su, w, es))
  {
    ApplyBound(su, w, es);
  }

  // ---- safe mode is the exception ------------------------------------------

  /** Safe mode is on, the timeout has passed, there is a last good ruleset and an endpoint, and the checks
      before an apply pass. */
  predicate RevertsNow(su: Setup, s: State, now: nat, f: Faults) {
    Reverts(su, s, now) && MayApply(su, s.lastGood.value, Context(su, CachedDefaults(s)), f)
  }

  /** A failed check-in touches the firewall exactly then. */
  lemma LostCheckInAppliesIff(su: Setup, s: State, now: nat, f: Faults)
    ensures Cycle(su, s, now, None, f).ran <==> RevertsNow(su, s, now, f)
    ensures !RevertsNow(su, s, now, f) ==> Cycle(su, s, now, None, f).s == s
  {
  }

  predicate AllLost(es: seq<Event>) {
    forall k :: 0 <= k < |es| ==> es[k].CheckInEvent? && !es[k].delivery.Complete?
  }

  /** A revert changes nothing a revert depends on: after any number of failed check-ins the next one resets and
      re-applies exactly when it would have at first. */
  lemma SafeModeRepeats(su: Setup, w: World, es: seq<Event>, e: Event)
    requires AllLost(es) && e.CheckInEvent? && !e.delivery.Complete?
    ensures Resets(su, Worlds(su, w, es), e) <==> RevertsNow(su, w.agent, e.now, e.f)
  {
    LostRunKeepsSlots(su, w, es);
    var v := Worlds(su, w, es);
    SameRevert(su, w.agent, v.agent, e.now, e.f);
    LostCheckInAppliesIff(su, v.agent, e.now, e.f);
  }

  lemma {:induction false} LostRunKeepsSlots(su: Setup, w: World, es: seq<Event>)
    requires AllLost(es)
    ensures SameForRevert(w.agent, Worlds(su, w, es).agent)
  {
    if es != [] {
      var n := |es| - 1;
      LostRunKeepsSlots(su, w, es[..n]);
      LostKeepsSlots(su, Worlds(su, w, es[..n]).agent, es[n].now, es[n].f);
    }
  }

  /** How many of the failed check-ins would revert from the state the run starts in. */
  function RevertsAmong(su: Setup, s: State, es: seq<Event>): nat {
    if es == [] then 0
    else
      var e := es[|es| - 1];
      RevertsAmong(su, s, es[..|es| - 1]) + Tally(e.CheckInEvent? && RevertsNow(su, s, e.now, e.f))
  }

  /** Over a run of failed check-ins nothing is changed and nothing applied, yet every one that meets the
      condition at the start resets the firewall again. */
  lemma {:induction false} LostRunResets(su: Setup, w: World, es: seq<Event>)
    requires AllLost(es)
    ensures ResetCount(su, w, es) == RevertsAmong(su, w.agent, es)
    ensures ApplyCount(su, w, es) == 0 && ChangeCount(su, w, es) == 0
  {
    if es != [] {
      var n := |es| - 1;
      LostRunResets(su, w, es[..n]);
      SafeModeRepeats(su, w, es[..n], es[n]);
    }
  }

  function LostCheckIns(now: nat, f: Faults, n: nat): (es: seq<Event>)
    ensures |es| == n && forall k :: 0 <= k < n ==> es[k] == CheckInEvent(now, RequestLost, f)
  {
    seq(n, _ => CheckInEvent(now, RequestLost, f))
  }

  /** The reverts cannot be left out of the bound on resets: with the manager unreachable past the timeout, n
      failed check-ins make n resets, for every n, with nothing edited. */
  lemma {:induction false} ResetsUnbounded(su: Setup, w: World, now: nat, f: Faults, n: nat)
    requires RevertsNow(su, w.agent, now, f)
    ensures
      var es := LostCheckIns(now, f, n);
      && ResetCount(su, w, es) == n && ChangeCount(su, w, es) == 0
      && (CleanRevert(su, w.agent, now, f) ==> CleanRun(su, w, es))
  {
    var es := LostCheckIns(now, f, n);
    LostRunResets(su, w, es);
    AllRevert(su, w.agent, now, f, es);
    if CleanRevert(su, w.agent, now, f) {
      forall k | 0 <= k < n ensures CleanEvent(su, Worlds(su, w, es[..k]), es[k]) {
        LostRunKeepsSlots(su, w, es[..k]);
        SameCleanRevert(su, w.agent, Worlds(su, w, es[..k]).agent, now, f);
      }
    }
  }

  /** Whether a replay completes does not depend on the firewall it starts from. */
  lemma SameCompletion(su: Setup, a: Firewall, b: Firewall, lines: seq<string>, o: Outcome)
    ensures ApplyLines(su.sys, a, lines, o).failed == 0 <==> ApplyLines(su.sys, b, lines, o).failed == 0
  {
    ReplayCounts(su.sys.rd, Enable(Reset(a)), lines, o.cmdOk);
    ReplayCounts(su.sys.rd, Enable(Reset(b)), lines, o.cmdOk);
  }

  lemma SameCleanRevert(su: Setup, s: State, v: State, now: nat, f: Faults)
    requires SameForRevert(s, v) && CleanRevert(su, s, now, f)
    ensures CleanRevert(su, v, now, f)
  {
    SameRevert(su, s, v, now, f);
    LostCheckInAppliesIff(su, s, now, f);
    LostCheckInAppliesIff(su, v, now, f);
    if RevertsNow(su, v, now, f) {
      SameCompletion(su, s.fw, v.fw, CompileLines(s.lastGood.value, Context(su, CachedDefaults(s))), f.apply);
    }
  }

  lemma {:induction false} AllRevert(su: Setup, s: State, now: nat, f: Faults, es: seq<Event>)
    requires RevertsNow(su, s, now, f)
    requires forall k :: 0 <= k < |es| ==> es[k] == CheckInEvent(now, RequestLost, f)
    ensures RevertsAmong(su, s, es) == |es|
  {
    if es != [] {
      AllRevert(su, s, now, f, es[..|es| - 1]);
    }
  }

  predicate SameForRevert(s: State, v: State) {
    && v.lastGood == s.lastGood && v.lastDefaults == s.lastDefaults
    && v.running == s.running && v.lastContact == s.lastContact && v.expected == s.expected
  }

  lemma LostKeepsSlots(su: Setup, s: State, now: nat, f: Faults)
    ensures SameForRevert(s, LostCycle(su, s, now, f).s)
  {
  }

  lemma SameRevert(su: Setup, s: State, v: State, now: nat, f: Faults)
    requires SameForRevert(s, v)
    ensures RevertsNow(su, s, now, f) <==> RevertsNow(su, v, now, f)
  {
  }

  // ---- no lost update ------------------------------------------------------

  /** An apply that is refused, or in which a command fails, changes none of the three slots. */
  lemma FailedApplyKeepsSlots(su: Setup, s: State, plan: Option<Plan>, f: Faults)
    requires ApplyPlan(su, s, plan, f).hash.None?
    ensures
      var v := ApplyPlan(su, s, plan, f).s;
      v.lastGood == s.lastGood && v.expected == s.expected && v.lastDefaults == s.lastDefaults
  {
  }

  /** The event is a delivered check-in whose apply reported success. */
  predicate Records(su: Setup, w: World, e: Event) {
    Delivers(e) && ApplyStep(su, w, e.now, e.f).hash.Some?
  }

  /** While an update is pending every delivered check-in tries to apply it, and the backend runs unless a
      check before it refuses. */
  lemma PendingIsRetried(su: Setup, w: World, now: nat, f: Faults)
    requires UpdatePending(su, w)
    ensures
      var rules := DtosToRules(AssignedRules(w.mgr));
      && PlanOf(su, w, now, f) == Some(Plan(rules, AssignedDefaults(w.mgr)))
      && (ApplyStep(su, w, now, f).ran <==> MayApply(su, rules, Context(su, AssignedDefaults(w.mgr)), f))
  {
  }

  lemma CheckInKeepsPending(su: Setup, w: World, now: nat, f: Faults)
    requires UpdatePending(su, w) && ApplyStep(su, w, now, f).hash.None?
    ensures UpdatePending(su, Next(su, w, CheckInEvent(now, Complete, f)))
  {
    var x := ApplyStep(su, w, now, f);
    FailedApplyKeepsSlots(su, Prepared(su, w, now, f), PlanOf(su, w, now, f), f);
    ActionsLeaveSlots(x.s, Reply(su, w, now).actions, f);
    CheckInParts(su, w, now, f);
    SamePending(su, w, Next(su, w, CheckInEvent(now, Complete, f)));
  }

  lemma SamePending(su: Setup, w: World, v: World)
    requires w.agent.lastGood == v.agent.lastGood && w.agent.lastDefaults == v.agent.lastDefaults
    requires w.mgr.policy == v.mgr.policy
    ensures UpdatePending(su, w) == UpdatePending(su, v)
  {
  }

  lemma LostKeepsPending(su: Setup, w: World, now: nat, d: Delivery, f: Faults)
    requires UpdatePending(su, w) && !d.Complete?
    ensures UpdatePending(su, Next(su, w, CheckInEvent(now, d, f)))
  {
    LostKeepsSlots(su, w.agent, now, f);
    SamePending(su, w, Next(su, w, CheckInEvent(now, d, f)));
  }

  lemma OtherKeepsPending(su: Setup, w: World, e: Event)
    requires UpdatePending(su, w) && !e.CheckInEvent? && !e.PolicyEdit? && !e.DefaultsEdit?
    ensures UpdatePending(su, Next(su, w, e))
  {
    SamePending(su, w, Next(su, w, e));
  }

  lemma EventKeepsPending(su: Setup, w: World, e: Event)
    requires UpdatePending(su, w) && !e.PolicyEdit? && !e.DefaultsEdit? && !Records(su, w, e)
    ensures UpdatePending(su, Next(su, w, e))
  {
    match e
    case CheckInEvent(now, Complete, f) => CheckInKeepsPending(su, w, now, f);
    case CheckInEvent(now, d, f) => LostKeepsPending(su, w, now, d, f);
    case _ => OtherKeepsPending(su, w, e);
  }

  /** No update is lost: over any run, with any failures, a pending policy stays pending until some delivered
      check-in reports its apply as successful. */
  lemma {:induction false} NoLostUpdate(su: Setup, w: World, es: seq<Event>)
    requires UpdatePending(su, w)
    requires forall k :: 0 <= k < |es| ==>
               !es[k].PolicyEdit? && !es[k].DefaultsEdit? && !Records(su, Worlds(su, w, es[..k]), es[k])
    ensures UpdatePending(su, Worlds(su, w, es))
  {
    if es != [] {
      var n := |es| - 1;
      var init := es[..n];
      forall k | 0 <= k < n
        ensures !init[k].PolicyEdit? && !init[k].DefaultsEdit? && !Records(su, Worlds(su, w, init[..k]), init[k])
      {
        assert init[..k] == es[..k] && init[k] == es[k];
      }
      NoLostUpdate(su, w, init);
      EventKeepsPending(su, Worlds(su, w, init), es[n]);
    }
  }

  /** What is recorded is live, when reset and enable succeed: the live rules are the umbilical and what UFW read
      in each line, which are the policy's own rules iff each line is read as meant. */
  lemma RecordedIsLive(su: Setup, s: State, rules: seq<Rule>, d: Defaults, f: Faults)
    requires su.sys.rd.Valid() && f.goodOk
    requires ApplyRules(su, s, rules, Context(su, d), f).hash.Some?
    requires f.apply.resetOk && f.apply.enableOk
    ensures
      var v := ApplyRules(su, s, rules, Context(su, d), f).s;
      && v.lastGood == Some(rules) && v.fw == CompleteState(su.sys.rd, rules, Context(su, d), s.fw)
      && (v.fw.rules == [UmbilicalRule(Context(su, d))] + LiveRules(rules) <==> ReadsAsMeant(su.sys.rd, rules))
  {
    CompleteReplay(su.sys, s.fw, rules, Context(su, d), f.apply);
    MeantIff(su.sys.rd, rules);
    SameTail(UmbilicalRule(Context(su, d)), ReadBacks(su.sys.rd, rules), LiveRules(rules));
  }

  lemma SameTail(u: UfwRule, a: seq<UfwRule>, b: seq<UfwRule>)
    ensures [u] + a == [u] + b <==> a == b
  {
    assert ([u] + a)[1..] == a && ([u] + b)[1..] == b;
  }

  /** An apply recorded as a success leaves its policy completely applied iff reset and enable succeeded, or the
      reset failed on a firewall that had it already. When either fails nothing is replayed. */
  lemma RecordedWithoutReplay(su: Setup, s: State, rules: seq<Rule>, d: Defaults, f: Faults)
    requires su.sys.rd.Valid() && f.goodOk && ApplyRules(su, s, rules, Context(su, d), f).hash.Some?
    ensures
      var e, done := ApplyRules(su, s, rules, Context(su, d), f), CompleteState(su.sys.rd, rules, Context(su, d), s.fw);
      && e.s.lastGood == Some(rules)
      && (e.s.fw == done <==> (f.apply.resetOk && f.apply.enableOk) || (!f.apply.resetOk && s.fw == done))
      && (!(f.apply.resetOk && f.apply.enableOk) ==>
            e.hash == Some("") && e.s.fw == if f.apply.resetOk then Reset(s.fw) else s.fw)
  {
    AppliedHash(su, s, rules, d, f);
  }

  // ---- the configuration handshake -----------------------------------------

  /** `pair` is the configuration of some version the manager has had; `hist[v - 1]` is the interval of
      version `v`. */
  predicate FromHistory(pair: PullConfig, hist: seq<int>) {
    1 <= pair.version <= |hist| && pair.interval == hist[pair.version - 1]
  }

  predicate Handshake(w: World, hist: seq<int>) {
    && w.mgr.config.Some? && w.mgr.config.value.version == |hist| && FromHistory(w.mgr.config.value, hist)
    && FromHistory(w.agent.running, hist) && FromHistory(w.agent.saved, hist)
    && forall i :: 0 <= i < |hist| ==> 1 <= hist[i] <= 86_400
  }

  /** What the handshake means at any moment. */
  lemma HandshakeMeans(w: World, hist: seq<int>)
    requires Handshake(w, hist)
    ensures w.agent.running.version <= w.mgr.config.value.version
    ensures w.agent.running.version == w.mgr.config.value.version ==>
              w.agent.running.interval == w.mgr.config.value.interval
    ensures 1 <= w.agent.running.interval <= 86_400 && 1 <= w.mgr.config.value.interval <= 86_400
  {
  }

  function NextHistory(w: World, e: Event, hist: seq<int>): seq<int> {
    if e.IntervalEdit? && w.mgr.config.Some? && w.mgr.config.value.interval != Clamp(e.interval)
    then hist + [Clamp(e.interval)] else hist
  }

  lemma CycleKeepsConfig(su: Setup, s: State, now: nat, reply: Option<Response>, f: Faults)
    ensures
      var v := Cycle(su, s, now, reply, f).s;
      var c := TakeConfig(s, if reply.Some? then reply.value.config else None, f);
      v.running == c.running && v.saved == c.saved
  {
    if reply.Some? {
      var r := reply.value;
      var s1 := TakeConfig(s.(lastContact := now), r.config, f);
      var plan := Choose(s1, r, LocalDrift(su, s, f.statusOk));
      ApplyKeepsConfig(su, s1, plan, f);
      ActionsLeaveSlots(ApplyPlan(su, s1, plan, f).s, r.actions, f);
    } else {
      LostKeepsConfig(su, s, now, f);
    }
  }

  lemma ApplyKeepsConfig(su: Setup, s: State, plan: Option<Plan>, f: Faults)
    ensures ApplyPlan(su, s, plan, f).s.running == s.running && ApplyPlan(su, s, plan, f).s.saved == s.saved
  {
  }

  lemma LostKeepsConfig(su: Setup, s: State, now: nat, f: Faults)
    ensures LostCycle(su, s, now, f).s.running == s.running && LostCycle(su, s, now, f).s.saved == s.saved
  {
  }

  lemma EventHandshake(su: Setup, w: World, e: Event, hist: seq<int>)
    requires Handshake(w, hist)
    ensures Handshake(Next(su, w, e), NextHistory(w, e, hist))
    ensures Delivers(e) ==>
              Next(su, w, e).agent.running.version == w.mgr.config.value.version
              && Next(su, w, e).agent.running.interval == w.mgr.config.value.interval
  {
    if e.CheckInEvent? {
      CycleKeepsConfig(su, w.agent, e.now, if e.delivery.Complete? then Some(Reply(su, w, e.now)) else None, e.f);
    }
  }

  /** The handshake holds over every run, across interval changes, lost replies, failed saves and restarts
      from an older saved configuration. */
  lemma {:induction false} HandshakeKept(su: Setup, w: World, es: seq<Event>, hist: seq<int>) returns (hist': seq<int>)
    requires Handshake(w, hist)
    ensures hist <= hist' && Handshake(Worlds(su, w, es), hist')
  {
    if es == [] {
      hist' := hist;
    } else {
      var n := |es| - 1;
      var h := HandshakeKept(su, w, es[..n], hist);
      EventHandshake(su, Worlds(su, w, es[..n]), es[n], h);
      hist' := NextHistory(Worlds(su, w, es[..n]), es[n], h);
    }
  }
}
