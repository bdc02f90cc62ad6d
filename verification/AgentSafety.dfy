/** What every run of the agent keeps, whatever the manager answers and whatever fails. */
module AgentSafety {
  import opened Text
  import opened Cidr
  import opened Models
  import opened Protected
  import opened Ufw
  import opened UfwCompile
  import opened UfwRoundTrip
  import opened UfwApply
  import opened UfwMeaning
  import opened ReplayCache
  import opened Agent

  datatype Step = Pull(now: nat, reply: Option<Response>, f: Faults) | Reboot(now: nat)

  function After(su: Setup, s: State, step: Step): State {
    match step
    case Pull(now, reply, f) => Cycle(su, s, now, reply, f).s
    case Reboot(now) => Restart(s, now)
  }

  /** The state after a whole run. */
  function Run(su: Setup, s: State, steps: seq<Step>): State {
    if steps == [] then s else After(su, Run(su, s, steps[..|steps| - 1]), steps[|steps| - 1])
  }

  // ---- the manager stays reachable -----------------------------------------

  /** Outbound TCP to the configured endpoint. */
  predicate ToEndpoint(su: Setup, p: Packet) {
    && su.endpoint.Some? && p.outgoing && p.proto == Tcp
    && su.sys.rd.ip(su.endpoint.value.0) == Some(p.dst) && p.dstPort == Some(su.endpoint.value.1)
  }

  ghost predicate ManagerReachable(su: Setup, s: State) {
    forall p :: ToEndpoint(su, p) ==> Verdict(su.sys.rd, s.fw, p) == Allow
  }

  ghost predicate GoodSetup(su: Setup) {
    su.sys.rd.Valid() && su.endpoint.Some?
  }

  lemma ApplyRulesReachable(su: Setup, s: State, rules: seq<Rule>, d: Defaults, f: Faults)
    requires GoodSetup(su) && f.apply.cmdOk(0) && ManagerReachable(su, s)
    ensures ManagerReachable(su, ApplyRules(su, s, rules, Context(su, d), f).s)
  {
    var ctx := Context(su, d);
    SameManager(su, d, s);
    if MayApply(su, rules, ctx, f) {
      ApplyKeepsReachable(su.sys, s.fw, rules, ctx, f.apply);
      SameManager(su, d, ApplyRules(su, s, rules, ctx, f).s);
    }
  }

  /** The umbilical is for the configured endpoint. */
  lemma SameManager(su: Setup, d: Defaults, s: State)
    requires su.endpoint.Some?
    ensures Reachable(su.sys.rd, Context(su, d), s.fw) <==> ManagerReachable(su, s)
  {
    assert forall p :: ToManager(su.sys.rd, Context(su, d), p) <==> ToEndpoint(su, p);
  }

  lemma {:induction false} ActionsReachable(su: Setup, s: State, actions: seq<PendingAction>, f: Faults)
    requires ManagerReachable(su, s)
    ensures ManagerReachable(su, RunActions(s, actions, f).s)
  {
    if actions != [] {
      ActionsReachable(su, s, actions[..|actions| - 1], f);
    }
  }

  lemma CycleReachable(su: Setup, s: State, now: nat, reply: Option<Response>, f: Faults)
    requires GoodSetup(su) && f.apply.cmdOk(0) && ManagerReachable(su, s)
    ensures ManagerReachable(su, Cycle(su, s, now, reply, f).s)
  {
    match reply
    case None =>
      if Reverts(su, s, now) {
        ApplyRulesReachable(su, s, s.lastGood.value, CachedDefaults(s), f);
      }
    case Some(r) =>
      var s1 := TakeConfig(s.(lastContact := now), r.config, f);
      var plan := Choose(s1, r, LocalDrift(su, s, f.statusOk));
      if plan.Some? {
        ApplyRulesReachable(su, s1, plan.value.rules, plan.value.defaults, f);
      }
      ActionsReachable(su, ApplyPlan(su, s1, plan, f).s, r.actions, f);
  }

  predicate UmbilicalAccepted(step: Step) { step.Pull? ==> step.f.apply.cmdOk(0) }

  /** Never lose the manager: over every run, for any replies, rules, defaults, rollbacks, restarts and
      command failures other than that of the umbilical itself. */
  lemma {:induction false} ManagerNeverLost(su: Setup, s: State, steps: seq<Step>)
    requires GoodSetup(su) && ManagerReachable(su, s)
    requires forall i :: 0 <= i < |steps| ==> UmbilicalAccepted(steps[i])
    ensures ManagerReachable(su, Run(su, s, steps))
  {
    if steps != [] {
      var n := |steps| - 1;
      var init := steps[..n];
      forall i | 0 <= i < n ensures init[i] == steps[i] {}
      ManagerNeverLost(su, s, init);
      var before := Run(su, s, init);
      match steps[n]
      case Pull(now, reply, f) =>
        assert UmbilicalAccepted(steps[n]);
        CycleReachable(su, before, now, reply, f);
      case Reboot(now) =>
    }
  }

  // ---- protected networks --------------------------------------------------

  /** A live rule that blocks and names a readable source network. */
  predicate BlocksSource(rd: Reader, r: UfwRule) {
    (r.action == Deny || r.action == Reject) && r.src.Some? && rd.cidr(r.src.value).Some?
  }

  ghost predicate FromProtected(su: Setup, p: Packet) {
    p.src.Valid()
    && exists i :: 0 <= i < |su.protected| && su.sys.rd.cidr(su.protected[i]).Some?
                   && su.sys.rd.cidr(su.protected[i]).value.Contains(p.src)
  }

  /** No live blocking rule with a readable source matches a packet from a protected network. */
  ghost predicate ProtectedOpen(su: Setup, fw: Firewall) {
    forall r, p :: r in fw.rules && BlocksSource(su.sys.rd, r) && FromProtected(su, p) ==> !Matches(su.sys.rd, r, p)
  }

  predicate RangeHolds(g: Option<Range>) { g.None? || g.value.lo <= g.value.hi }

  /** Some packet matches the rule besides its source: no empty port range, a readable destination. */
  predicate Matchable(rd: Reader, r: UfwRule) {
    RangeHolds(r.srcPort) && RangeHolds(r.dstPort) && (r.dst.None? || ReadAddress(rd, r.dst.value).Some?)
  }

  /** The agent's own overlap test, on a live rule. */
  predicate RuleOpen(su: Setup, r: UfwRule) {
    BlocksSource(su.sys.rd, r) && Matchable(su.sys.rd, r) ==>
      FirstOverlap(su.sys.rd, r.src.value, su.protected).None?
  }

  /** A packet the rule matches from a source it names. */
  function Sample(rd: Reader, r: UfwRule, x: Ip): Packet {
    var dst := if r.dst.None? then None else ReadAddress(rd, r.dst.value);
    Packet(r.outgoing, OrElse(r.iface, ""), r.proto, x, SamplePort(r.srcPort),
           if dst.Some? then dst.value.Network() else x, SamplePort(r.dstPort))
  }

  function SamplePort(g: Option<Range>): Option<int> {
    match g case Some(v) => Some(v.lo) case None => None
  }

  lemma SampleMatches(rd: Reader, r: UfwRule, x: Ip)
    requires BlocksSource(rd, r) && Matchable(rd, r) && rd.cidr(r.src.value).value.Contains(x)
    ensures Matches(rd, r, Sample(rd, r, x))
  {
    if r.dst.Some? {
      ContainsOwnNetwork(ReadAddress(rd, r.dst.value).value);
    }
  }

  lemma OverlapIsHit(su: Setup, r: UfwRule, p: Packet)
    requires BlocksSource(su.sys.rd, r) && FromProtected(su, p) && Matches(su.sys.rd, r, p)
    ensures !RuleOpen(su, r)
  {
    var rd := su.sys.rd;
    var i :| 0 <= i < |su.protected| && rd.cidr(su.protected[i]).Some?
             && rd.cidr(su.protected[i]).value.Contains(p.src);
    var a, b := rd.cidr(r.src.value).value, rd.cidr(su.protected[i]).value;
    ContainsIff(a, p.src);
    ContainsIff(b, p.src);
    OverlapExact(a, b);
    assert rd.TextsOverlap(r.src.value, su.protected[i]);
  }

  lemma HitIsOverlap(su: Setup, r: UfwRule) returns (p: Packet)
    requires !RuleOpen(su, r)
    ensures FromProtected(su, p) && Matches(su.sys.rd, r, p)
  {
    var rd := su.sys.rd;
    var t := FirstOverlap(rd, r.src.value, su.protected).value;
    var a, b := rd.cidr(r.src.value).value, rd.cidr(t).value;
    OverlapExact(a, b);
    var x: Ip :| x.Valid() && Agrees(a, x) && Agrees(b, x);
    ContainsIff(a, x);
    ContainsIff(b, x);
    SampleMatches(rd, r, x);
    p := Sample(rd, r, x);
    var i :| 0 <= i < |su.protected| && su.protected[i] == t;
  }

  /** The protected networks are open iff no live rule fails the overlap test. */
  lemma OpenIff(su: Setup, fw: Firewall)
    ensures ProtectedOpen(su, fw) <==> forall r :: r in fw.rules ==> RuleOpen(su, r)
  {
    forall r | r in fw.rules && !RuleOpen(su, r) ensures !ProtectedOpen(su, fw) {
      var p := HitIsOverlap(su, r);
    }
    forall r, p | r in fw.rules && BlocksSource(su.sys.rd, r) && FromProtected(su, p) && RuleOpen(su, r)
      ensures !Matches(su.sys.rd, r, p)
    {
      if Matches(su.sys.rd, r, p) {
        OverlapIsHit(su, r, p);
      }
    }
  }

  // ---- where live rules come from ------------------------------------------

  ghost predicate ComesFrom(rd: Reader, lines: seq<string>, r: UfwRule) {
    exists i :: 0 <= i < |lines| && Understood(rd, lines[i]) == Some(AddRule(r))
  }

  /** A replay adds only rules its lines ask for. */
  lemma {:induction false} ReplayProvenance(rd: Reader, fw: Firewall, lines: seq<string>, ok: nat -> bool, r: UfwRule)
    requires r in Replay(rd, fw, lines, ok).fw.rules
    ensures r in fw.rules || ComesFrom(rd, lines, r)
  {
    if lines != [] {
      var n := |lines| - 1;
      var init := lines[..n];
      if r in Replay(rd, fw, init, ok).fw.rules {
        ReplayProvenance(rd, fw, init, ok, r);
        if ComesFrom(rd, init, r) {
          var i :| 0 <= i < |init| && Understood(rd, init[i]) == Some(AddRule(r));
          assert lines[i] == init[i];
        }
      } else {
        assert Understood(rd, lines[n]) == Some(AddRule(r));
      }
    }
  }

  lemma ComesFromEither(rd: Reader, a: seq<string>, b: seq<string>, r: UfwRule)
    requires ComesFrom(rd, a + b, r)
    ensures ComesFrom(rd, a, r) || ComesFrom(rd, b, r)
  {
    var i :| 0 <= i < |a + b| && Understood(rd, (a + b)[i]) == Some(AddRule(r));
    if i < |a| {
      assert (a + b)[i] == a[i];
    } else {
      assert (a + b)[i] == b[i - |a|];
    }
  }

  ghost predicate IsReadBack(rd: Reader, rules: seq<Rule>, r: UfwRule) {
    exists k :: 0 <= k < |rules| && ReadBack(rd, rules[k]) == Some(r)
  }

  lemma RulesProvenance(rd: Reader, rules: seq<Rule>, r: UfwRule)
    requires ComesFrom(rd, RuleLines(rules), r)
    ensures IsReadBack(rd, rules, r)
  {
    RuleLinesLength(rules);
    var i :| 0 <= i < |rules| && Understood(rd, RuleLines(rules)[i]) == Some(AddRule(r));
    RuleLineAt(rules, i);
    assert ReadBack(rd, rules[i]) == Some(r);
  }

  lemma RuleLinesLength(rules: seq<Rule>)
    ensures |RuleLines(rules)| == |rules|
  {
    if rules != [] {
      RuleLineAt(rules, 0);
    }
  }

  lemma DefaultAddsNothing(rd: Reader, policy: Option<string>, way: string, r: UfwRule)
    ensures !ComesFrom(rd, DefaultLines(policy, way), r)
  {
    if policy.Some? {
      DefaultLineReads(rd, policy.value, way);
    }
  }

  lemma FrontProvenance(rd: Reader, ctx: ApplyContext, r: UfwRule)
    requires rd.Valid() && Gate(rd, ctx) && ComesFrom(rd, FrontLines(ctx), r)
    ensures r == UmbilicalRule(ctx)
  {
    var a := [UmbilicalLine(ctx)];
    var b, c := DefaultLines(ctx.defaultIn, "incoming"), DefaultLines(ctx.defaultOut, "outgoing");
    ComesFromEither(rd, a + b, c, r);
    DefaultAddsNothing(rd, ctx.defaultOut, "outgoing", r);
    ComesFromEither(rd, a, b, r);
    DefaultAddsNothing(rd, ctx.defaultIn, "incoming", r);
    UmbilicalUnderstood(rd, ctx);
  }

  /** The rules a compiled policy asks for are the umbilical and what UFW reads in the policy's own lines. */
  lemma CompiledProvenance(rd: Reader, rules: seq<Rule>, ctx: ApplyContext, r: UfwRule)
    requires rd.Valid() && Gate(rd, ctx) && ComesFrom(rd, CompileLines(rules, ctx), r)
    ensures r == UmbilicalRule(ctx) || IsReadBack(rd, rules, r)
  {
    ComesFromEither(rd, FrontLines(ctx), RuleLines(rules), r);
    if ComesFrom(rd, RuleLines(rules), r) {
      RulesProvenance(rd, rules, r);
    } else {
      FrontProvenance(rd, ctx, r);
    }
  }

  // ---- when a policy keeps them open ---------------------------------------

  /** Reading the rule's command line back and running the overlap test on it finds nothing. */
  predicate ReadsOpen(su: Setup, r: Rule) {
    match ReadBack(su.sys.rd, r) case Some(u) => RuleOpen(su, u) case None => true
  }

  predicate AllReadOpen(su: Setup, rules: seq<Rule>) {
    forall k :: 0 <= k < |rules| ==> ReadsOpen(su, rules[k])
  }

  lemma UmbilicalOpen(su: Setup, ctx: ApplyContext)
    ensures RuleOpen(su, UmbilicalRule(ctx))
  {
  }

  /** One apply, however much of it succeeds, keeps them open if every line reads open. */
  lemma ApplyLinesOpen(su: Setup, fw: Firewall, rules: seq<Rule>, ctx: ApplyContext, o: Outcome)
    requires su.sys.rd.Valid() && Gate(su.sys.rd, ctx) && AllReadOpen(su, rules)
    requires ProtectedOpen(su, fw)
    ensures ProtectedOpen(su, ApplyLines(su.sys, fw, CompileLines(rules, ctx), o).fw)
  {
    var after := ApplyLines(su.sys, fw, CompileLines(rules, ctx), o).fw;
    OpenIff(su, fw);
    OpenIff(su, after);
    forall r | r in after.rules ensures RuleOpen(su, r) {
      if o.resetOk && o.enableOk {
        ReplayProvenance(su.sys.rd, Enable(Reset(fw)), CompileLines(rules, ctx), o.cmdOk, r);
        CompiledProvenance(su.sys.rd, rules, ctx, r);
        UmbilicalOpen(su, ctx);
        if IsReadBack(su.sys.rd, rules, r) {
          var k :| 0 <= k < |rules| && ReadBack(su.sys.rd, rules[k]) == Some(r);
          assert ReadsOpen(su, rules[k]);
        }
      }
    }
  }

  /** A complete apply leaves the protected networks open iff every line, read back, passes the overlap test. */
  lemma CompleteApplyOpenIff(su: Setup, fw: Firewall, rules: seq<Rule>, ctx: ApplyContext, o: Outcome)
    requires su.sys.rd.Valid() && Gate(su.sys.rd, ctx) && o.resetOk && o.enableOk
    requires ApplyLines(su.sys, fw, CompileLines(rules, ctx), o).failed == 0
    ensures ProtectedOpen(su, ApplyLines(su.sys, fw, CompileLines(rules, ctx), o).fw) <==> AllReadOpen(su, rules)
  {
    var rd, after := su.sys.rd, ApplyLines(su.sys, fw, CompileLines(rules, ctx), o).fw;
    CompleteReplay(su.sys, fw, rules, ctx, o);
    OpenIff(su, after);
    UmbilicalOpen(su, ctx);
    var live := ReadBacks(rd, rules);
    forall k | 0 <= k < |rules| ensures ReadBack(rd, rules[k]) == Some(live[k]) {
      GivenAt(Readings(rd, rules), k);
    }
    EachOpenIff(su, UmbilicalRule(ctx), live);
    assert AllReadOpen(su, rules) <==> forall k :: 0 <= k < |live| ==> RuleOpen(su, live[k]) by {
      assert forall k :: 0 <= k < |rules| ==> ReadsOpen(su, rules[k]) == RuleOpen(su, live[k]);
    }
  }

  lemma EachOpenIff(su: Setup, u: UfwRule, live: seq<UfwRule>)
    requires RuleOpen(su, u)
    ensures (forall r :: r in [u] + live ==> RuleOpen(su, r))
       <==> forall k :: 0 <= k < |live| ==> RuleOpen(su, live[k])
  {
    if forall r :: r in [u] + live ==> RuleOpen(su, r) {
      forall k | 0 <= k < |live| ensures RuleOpen(su, live[k]) {
        assert ([u] + live)[k + 1] == live[k];
      }
    }
  }

  /** For a rule of plain texts the agent's check before the apply is that test. */
  lemma AcceptedReadsOpen(su: Setup, r: Rule)
    requires PlainRule(r) && Acceptable(su.sys.rd, r, su.protected)
    ensures ReadsOpen(su, r)
  {
    if ReadBack(su.sys.rd, r).Some? {
      PlainReads(su.sys.rd, r);
    }
  }

  lemma PassedReadsOpen(su: Setup, rules: seq<Rule>)
    requires PlainRules(rules) && Violations(su.sys.rd, rules, su.protected) == []
    ensures AllReadOpen(su, rules)
  {
    PassesIffAcceptable(su.sys.rd, rules, su.protected);
    forall k | 0 <= k < |rules| ensures ReadsOpen(su, rules[k]) {
      AcceptedReadsOpen(su, rules[k]);
    }
  }

  // ---- over runs -----------------------------------------------------------

  /** The check before an apply lets through only rules that read open. */
  predicate CheckHolds(su: Setup, rules: seq<Rule>) {
    Violations(su.sys.rd, rules, su.protected) == [] ==> AllReadOpen(su, rules)
  }

  predicate SlotHolds(su: Setup, s: State) { s.lastGood.Some? ==> CheckHolds(su, s.lastGood.value) }

  ghost predicate OpenInvariant(su: Setup, s: State) { ProtectedOpen(su, s.fw) && SlotHolds(su, s) }

  lemma ApplyRulesOpen(su: Setup, s: State, rules: seq<Rule>, d: Defaults, f: Faults)
    requires su.sys.rd.Valid() && OpenInvariant(su, s) && CheckHolds(su, rules)
    ensures OpenInvariant(su, ApplyRules(su, s, rules, Context(su, d), f).s)
  {
    if MayApply(su, rules, Context(su, d), f) {
      ApplyLinesOpen(su, s.fw, rules, Context(su, d), f.apply);
    }
  }

  lemma {:induction false} ActionsOpen(su: Setup, s: State, actions: seq<PendingAction>, f: Faults)
    requires OpenInvariant(su, s)
    ensures OpenInvariant(su, RunActions(s, actions, f).s)
  {
    if actions != [] {
      ActionsOpen(su, s, actions[..|actions| - 1], f);
    }
  }

  lemma CycleOpen(su: Setup, s: State, now: nat, reply: Option<Response>, f: Faults)
    requires su.sys.rd.Valid() && OpenInvariant(su, s)
    requires reply.Some? ==> CheckHolds(su, DtosToRules(reply.value.rules))
    ensures OpenInvariant(su, Cycle(su, s, now, reply, f).s)
  {
    match reply
    case None =>
      if Reverts(su, s, now) {
        ApplyRulesOpen(su, s, s.lastGood.value, CachedDefaults(s), f);
      }
    case Some(r) =>
      var s1 := TakeConfig(s.(lastContact := now), r.config, f);
      var plan := Choose(s1, r, LocalDrift(su, s, f.statusOk));
      if plan.Some? {
        ApplyRulesOpen(su, s1, plan.value.rules, plan.value.defaults, f);
      }
      ActionsOpen(su, ApplyPlan(su, s1, plan, f).s, r.actions, f);
  }

  predicate StepHolds(su: Setup, step: Step) {
    step.Pull? && step.reply.Some? ==> CheckHolds(su, DtosToRules(step.reply.value.rules))
  }

  /** Protected networks stay open over every run from an empty rule list, on all three apply paths, with any
      defaults and any failures, as long as the check before the apply lets through only rules that read open:
      no live deny or reject rule with a readable source matches a packet from one. */
  lemma {:induction false} ProtectedNeverBlocked(su: Setup, s: State, steps: seq<Step>)
    requires su.sys.rd.Valid() && s.fw.rules == [] && SlotHolds(su, s)
    requires forall i :: 0 <= i < |steps| ==> StepHolds(su, steps[i])
    ensures ProtectedOpen(su, Run(su, s, steps).fw) && SlotHolds(su, Run(su, s, steps))
  {
    if steps != [] {
      var n := |steps| - 1;
      var init := steps[..n];
      forall i | 0 <= i < n ensures init[i] == steps[i] {}
      ProtectedNeverBlocked(su, s, init);
      assert StepHolds(su, steps[n]);
      if steps[n].Pull? {
        CycleOpen(su, Run(su, s, init), steps[n].now, steps[n].reply, steps[n].f);
      }
    }
  }

  predicate PlainStep(step: Step) {
    step.Pull? && step.reply.Some? ==> PlainRules(DtosToRules(step.reply.value.rules))
  }

  /** In particular when every interface and address is plain. */
  lemma PlainNeverBlocked(su: Setup, s: State, steps: seq<Step>)
    requires su.sys.rd.Valid() && s.fw.rules == [] && (s.lastGood.Some? ==> PlainRules(s.lastGood.value))
    requires forall i :: 0 <= i < |steps| ==> PlainStep(steps[i])
    ensures ProtectedOpen(su, Run(su, s, steps).fw)
  {
    if s.lastGood.Some? && Violations(su.sys.rd, s.lastGood.value, su.protected) == [] {
      PassedReadsOpen(su, s.lastGood.value);
    }
    forall i | 0 <= i < |steps| ensures StepHolds(su, steps[i]) {
      assert PlainStep(steps[i]);
      if steps[i].Pull? && steps[i].reply.Some? {
        var rules := DtosToRules(steps[i].reply.value.rules);
        if Violations(su.sys.rd, rules, su.protected) == [] {
          PassedReadsOpen(su, rules);
        }
      }
    }
    ProtectedNeverBlocked(su, s, steps);
  }

  /** The condition is exact: a delivered check-in from an empty rule list that passes the checks and replays
      completely leaves the protected networks open iff the check held for its rules. */
  lemma DeliveredOpenIff(su: Setup, s: State, now: nat, r: Response, f: Faults)
    requires su.sys.rd.Valid() && r.rules != [] && r.rulesChanged && r.actions == []
    requires MayApply(su, DtosToRules(r.rules), Context(su, r.defaults), f) && f.apply.resetOk && f.apply.enableOk
    requires ApplyLines(su.sys, s.fw, CompileLines(DtosToRules(r.rules), Context(su, r.defaults)), f.apply).failed == 0
    ensures ProtectedOpen(su, Cycle(su, s, now, Some(r), f).s.fw) <==> CheckHolds(su, DtosToRules(r.rules))
  {
    CompleteApplyOpenIff(su, s.fw, DtosToRules(r.rules), Context(su, r.defaults), f.apply);
    DeliveredFirewall(su, s, now, r, f);
  }

  lemma DeliveredFirewall(su: Setup, s: State, now: nat, r: Response, f: Faults)
    requires r.rules != [] && r.rulesChanged && r.actions == []
    requires MayApply(su, DtosToRules(r.rules), Context(su, r.defaults), f)
    ensures Cycle(su, s, now, Some(r), f).s.fw
         == ApplyLines(su.sys, s.fw, CompileLines(DtosToRules(r.rules), Context(su, r.defaults)), f.apply).fw
  {
    var s1 := TakeConfig(s.(lastContact := now), r.config, f);
    var plan := Plan(DtosToRules(r.rules), r.defaults);
    ChoosesReply(s1, r, LocalDrift(su, s, f.statusOk));
    PlanFirewall(su, s1, plan, f);
    NoActions(ApplyPlan(su, s1, Some(plan), f).s, f);
  }

  lemma ChoosesReply(s: State, r: Response, drift: bool)
    requires r.rules != [] && r.rulesChanged
    ensures Choose(s, r, drift) == Some(Plan(DtosToRules(r.rules), r.defaults))
  {
  }

  lemma NoActions(s: State, f: Faults)
    ensures RunActions(s, [], f).s == s
  {
  }

  lemma PlanFirewall(su: Setup, s: State, plan: Plan, f: Faults)
    requires MayApply(su, plan.rules, Context(su, plan.defaults), f)
    ensures ApplyPlan(su, s, Some(plan), f).s.fw
         == ApplyLines(su.sys, s.fw, CompileLines(plan.rules, Context(su, plan.defaults)), f.apply).fw
  {
  }

  // ---- each action at most once --------------------------------------------

  function Count(ids: seq<string>, id: string): nat {
    if ids == [] then 0 else Count(ids[..|ids| - 1], id) + if ids[|ids| - 1] == id then 1 else 0
  }

  lemma {:induction false} CountAppend(a: seq<string>, b: seq<string>, id: string)
    ensures Count(a + b, id) == Count(a, id) + Count(b, id)
    decreases |b|
  {
    if b == [] {
      assert a + b == a;
    } else {
      var m := |b| - 1;
      assert (a + b)[..|a| + m] == a + b[..m];
      CountAppend(a, b[..m], id);
    }
  }

  function StepExecuted(su: Setup, s: State, step: Step): seq<string> {
    match step
    case Pull(now, reply, f) => Cycle(su, s, now, reply, f).executed
    case Reboot(_) => []
  }

  /** The ids whose execution succeeded, over the whole run. */
  function Executed(su: Setup, s: State, steps: seq<Step>): seq<string> {
    if steps == [] then []
    else
      var n := |steps| - 1;
      Executed(su, s, steps[..n]) + StepExecuted(su, Run(su, s, steps[..n]), steps[n])
  }

  predicate RecordsKept(actions: seq<PendingAction>, f: Faults) {
    forall i :: 0 <= i < |actions| ==> f.recordOk(i) && SpaceFree(actions[i].id)
  }

  /** How often an action may still succeed: never once it is in the log. */
  ghost function Allowance(log: string, id: string): nat {
    if AlreadyExecuted(log, id) then 0 else 1
  }

  lemma ActionOnce(e: ActionsEnd, a: PendingAction, i: nat, f: Faults, id: string)
    requires WholeLines(e.s.replayLog) && f.recordOk(i) && SpaceFree(a.id)
    ensures
      var e' := RunAction(e, a, i, f);
      WholeLines(e'.s.replayLog)
      && Count(e'.executed, id) + Allowance(e'.s.replayLog, id) == Count(e.executed, id) + Allowance(e.s.replayLog, id)
  {
    RecordAddsOne(e.s.replayLog, a.id, id);
    CountAppend(e.executed, [a.id], id);
    assert [a.id][..0] == [];
  }

  lemma {:induction false} ActionsOnce(s: State, actions: seq<PendingAction>, f: Faults, id: string)
    requires WholeLines(s.replayLog) && RecordsKept(actions, f)
    ensures
      var e := RunActions(s, actions, f);
      WholeLines(e.s.replayLog)
      && Count(e.executed, id) + Allowance(e.s.replayLog, id) == Allowance(s.replayLog, id)
  {
    if actions != [] {
      var n := |actions| - 1;
      var init, a := actions[..n], actions[n];
      forall i | 0 <= i < n ensures init[i] == actions[i] {}
      ActionsOnce(s, init, f, id);
      assert f.recordOk(n) && SpaceFree(a.id);
      ActionOnce(RunActions(s, init, f), a, n, f, id);
    }
  }

  predicate StepRecords(step: Step) {
    step.Pull? && step.reply.Some? ==> RecordsKept(step.reply.value.actions, step.f)
  }

  lemma ApplyKeepsLog(su: Setup, s: State, plan: Option<Plan>, f: Faults)
    ensures ApplyPlan(su, s, plan, f).s.replayLog == s.replayLog
  {
  }

  lemma CycleOnce(su: Setup, s: State, now: nat, reply: Option<Response>, f: Faults, id: string)
    requires WholeLines(s.replayLog) && (reply.Some? ==> RecordsKept(reply.value.actions, f))
    ensures
      var c := Cycle(su, s, now, reply, f);
      WholeLines(c.s.replayLog)
      && Count(c.executed, id) + Allowance(c.s.replayLog, id) == Allowance(s.replayLog, id)
  {
    if reply.Some? {
      var r := reply.value;
      var s1 := TakeConfig(s.(lastContact := now), r.config, f);
      var plan := Choose(s1, r, LocalDrift(su, s, f.statusOk));
      ApplyKeepsLog(su, s1, plan, f);
      ActionsOnce(ApplyPlan(su, s1, plan, f).s, r.actions, f, id);
    }
  }

  lemma StepOnce(su: Setup, s: State, step: Step, id: string)
    requires WholeLines(s.replayLog) && StepRecords(step)
    ensures WholeLines(After(su, s, step).replayLog)
    ensures Count(StepExecuted(su, s, step), id) + Allowance(After(su, s, step).replayLog, id)
         == Allowance(s.replayLog, id)
  {
    if step.Pull? {
      CycleOnce(su, s, step.now, step.reply, step.f, id);
    }
  }

  /** At most once: over every run, with ids repeated in a reply, redelivered later or after a restart, an id
      succeeds at most once if the log writes succeed, and never again once it is in the log. */
  lemma {:induction false} AtMostOnce(su: Setup, s: State, steps: seq<Step>, id: string)
    requires WholeLines(s.replayLog)
    requires forall i :: 0 <= i < |steps| ==> StepRecords(steps[i])
    ensures WholeLines(Run(su, s, steps).replayLog)
    ensures Count(Executed(su, s, steps), id) + Allowance(Run(su, s, steps).replayLog, id) == Allowance(s.replayLog, id)
  {
    if steps != [] {
      var n := |steps| - 1;
      var init := steps[..n];
      forall i | 0 <= i < n ensures init[i] == steps[i] {}
      AtMostOnce(su, s, init, id);
      assert StepRecords(steps[n]);
      StepOnce(su, Run(su, s, init), steps[n], id);
      CountAppend(Executed(su, s, init), StepExecuted(su, Run(su, s, init), steps[n]), id);
    }
  }

  /** Against a sender that repeats an id the log writes are needed: delivered twice, its record lost, the action
      runs twice. */
  lemma LostRecordRepeats(s: State, a: PendingAction, f: Faults)
    requires a.kind == "apply_rules" && s.replayLog == "" && !f.recordOk(0)
    ensures RunActions(s, [a, a], f).executed == [a.id, a.id]
  {
    var e0 := RunActions(s, [], f);
    assert [a, a][..1] == [a] && [a][..0] == [];
    assert RunActions(s, [a], f).executed == [a.id];
    assert NoEffectKind(a.kind);
  }
}
