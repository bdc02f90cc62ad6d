/** What a replayed policy does to packets: it is the policy, with the manager kept reachable. */
module UfwMeaning {
  import opened Text
  import opened Cidr
  import opened Models
  import opened Protected
  import opened Ufw
  import opened UfwCompile
  import opened UfwRoundTrip
  import opened UfwApply

  // ---- the policy, read off the typed rules --------------------------------

  predicate InCidr(rd: Reader, cidr: Option<string>, x: Ip) {
    match cidr
    case None => true
    case Some(t) => t == "any" || (ReadAddress(rd, t).Some? && ReadAddress(rd, t).value.Contains(x))
  }

  predicate InPorts(start: Option<int>, end: Option<int>, port: Option<int>) {
    match start
    case None => true
    case Some(s) => port.Some? && s <= port.value <= OrElse(end, s)
  }

  /** A typed rule covers a packet; a rule that is not `out` covers incoming packets. */
  predicate Covers(rd: Reader, r: Rule, p: Packet) {
    && p.outgoing == (r.direction == Out)
    && (r.protocol == Any || r.protocol == p.proto)
    && (var iface := if p.outgoing then r.interfaceOut else r.interfaceIn;
        iface.None? || iface.value == p.iface)
    && InCidr(rd, r.srcCidr, p.src) && InCidr(rd, r.dstCidr, p.dst)
    && InPorts(r.srcPortStart, r.srcPortEnd, p.srcPort) && InPorts(r.dstPortStart, r.dstPortEnd, p.dstPort)
  }

  /** The action of the first rule that covers the packet. */
  function Decides(rd: Reader, rules: seq<Rule>, p: Packet): Option<Action> {
    if rules == [] then None
    else if Covers(rd, rules[0], p) then Some(rules[0].action)
    else Decides(rd, rules[1..], p)
  }

  /** Outbound TCP to the manager's address and port. */
  predicate ToManager(rd: Reader, ctx: ApplyContext, p: Packet) {
    && p.outgoing && p.proto == Tcp
    && rd.ip(ctx.managerIp) == Some(p.dst) && p.dstPort == Some(ctx.managerPort)
  }

  /** The policy set's default for a direction, or the one in force before. */
  function Named(policy: Option<string>, before: Action): Action {
    match policy
    case None => before
    case Some(t) => OrElse(ReadPolicy(t), before)
  }

  /** The meaning of a policy: the manager first, then the rules in order, then the default. */
  function PolicyVerdict(rd: Reader, rules: seq<Rule>, ctx: ApplyContext, before: Firewall, p: Packet): Action {
    if ToManager(rd, ctx, p) then Allow
    else match Decides(rd, rules, p)
      case Some(a) => a
      case None =>
        if p.outgoing then Named(ctx.defaultOut, before.defaultOut) else Named(ctx.defaultIn, before.defaultIn)
  }

  // ---- the replayed rules --------------------------------------------------

  /** The live rules that are meant. */
  function LiveRules(rules: seq<Rule>): (ls: seq<UfwRule>)
    ensures |ls| == |rules| && forall i :: 0 <= i < |rules| ==> ls[i] == Live(rules[i])
  {
    seq(|rules|, i requires 0 <= i < |rules| => Live(rules[i]))
  }

  predicate PlainRules(rules: seq<Rule>) {
    forall i :: 0 <= i < |rules| ==> PlainRule(rules[i])
  }

  /** The rule UFW reads in the command line of a rule, whatever its texts hold. */
  function ReadBack(rd: Reader, r: Rule): Option<UfwRule> {
    match Understood(rd, RuleLine(r))
    case Some(AddRule(u)) => Some(u)
    case _ => None
  }

  function Readings(rd: Reader, rules: seq<Rule>): (os: seq<Option<UfwRule>>)
    ensures |os| == |rules| && forall i :: 0 <= i < |rules| ==> os[i] == ReadBack(rd, rules[i])
  {
    seq(|rules|, i requires 0 <= i < |rules| => ReadBack(rd, rules[i]))
  }

  /** Those that are there, in order. */
  function Given(os: seq<Option<UfwRule>>): seq<UfwRule> {
    if os == [] then []
    else
      var n := |os| - 1;
      Given(os[..n]) + match os[n] { case Some(u) => [u] case None => [] }
  }

  function ReadBacks(rd: Reader, rules: seq<Rule>): seq<UfwRule> { Given(Readings(rd, rules)) }

  lemma {:induction false} GivenAt(os: seq<Option<UfwRule>>, i: nat)
    ensures |Given(os)| <= |os|
    ensures i < |os| == |Given(os)| ==> os[i] == Some(Given(os)[i])
  {
    if os != [] {
      GivenAt(os[..|os| - 1], i);
    }
  }

  lemma GivenNext(os: seq<Option<UfwRule>>, n: nat)
    requires |os| == n + 1 && os[n].Some?
    ensures Given(os) == Given(os[..n]) + [os[n].value]
  {
  }

  lemma ReadBacksNext(rd: Reader, rules: seq<Rule>)
    requires rules != [] && ReadBack(rd, rules[|rules| - 1]).Some?
    ensures
      var n := |rules| - 1;
      ReadBacks(rd, rules) == ReadBacks(rd, rules[..n]) + [ReadBack(rd, rules[n]).value]
  {
    var n := |rules| - 1;
    assert Readings(rd, rules)[..n] == Readings(rd, rules[..n]);
    GivenNext(Readings(rd, rules), n);
  }

  /** What one default command does. */
  function WithDefault(rd: Reader, fw: Firewall, policy: Option<string>, way: string): Firewall {
    match policy
    case None => fw
    case Some(t) =>
      match Understood(rd, DefaultLine(t, way)) case Some(c) => Effect(fw, c) case None => fw
  }

  function WithDefaults(rd: Reader, fw: Firewall, ctx: ApplyContext): Firewall {
    WithDefault(rd, WithDefault(rd, fw, ctx.defaultIn, "incoming"), ctx.defaultOut, "outgoing")
  }

  /** The firewall a complete replay leaves, for any texts at all. */
  function CompleteState(rd: Reader, rules: seq<Rule>, ctx: ApplyContext, before: Firewall): Firewall {
    var d := WithDefaults(rd, before, ctx);
    Firewall(true, [UmbilicalRule(ctx)] + ReadBacks(rd, rules), d.defaultIn, d.defaultOut)
  }

  lemma {:induction false} ReplayRules(rd: Reader, fw: Firewall, rules: seq<Rule>, ok: nat -> bool)
    requires AllSucceed(rd, RuleLines(rules), ok)
    ensures Replay(rd, fw, RuleLines(rules), ok).fw == fw.(rules := fw.rules + ReadBacks(rd, rules))
    ensures |RuleLines(rules)| == |ReadBacks(rd, rules)| == |rules|
  {
    if rules == [] {
      assert fw.rules + ReadBacks(rd, []) == fw.rules;
    } else {
      var n := |rules| - 1;
      var init, line := RuleLines(rules[..n]), RuleLine(rules[n]);
      assert RuleLines(rules) == init + [line];
      SucceedCut(rd, init, [line], ok);
      ReplayRules(rd, fw, rules[..n], ok);
      ReplayCut(rd, fw, init, [line], ok);
      ReplayOne(rd, Replay(rd, fw, init, ok).fw, line, Shift(ok, |init|));
      assert Succeeds(rd, [line][0], Shift(ok, |init|)(0));
      RuleLineReads(rd, rules[n]);
      ReadBacksNext(rd, rules);
      Regroup(fw.rules, ReadBacks(rd, rules[..n]), [ReadBack(rd, rules[n]).value]);
    }
  }

  lemma ReplayDefault(rd: Reader, fw: Firewall, policy: Option<string>, way: string, ok: nat -> bool)
    requires AllSucceed(rd, DefaultLines(policy, way), ok)
    ensures
      var after := Replay(rd, fw, DefaultLines(policy, way), ok).fw;
      after == WithDefault(rd, fw, policy, way) && after.active == fw.active && after.rules == fw.rules
  {
    if policy.Some? {
      var line := DefaultLine(policy.value, way);
      ReplayOne(rd, fw, line, ok);
      assert Succeeds(rd, [line][0], ok(0));
      DefaultLineReads(rd, policy.value, way);
    }
  }

  lemma ReplayFront(rd: Reader, fw: Firewall, ctx: ApplyContext, ok: nat -> bool)
    requires rd.Valid() && Gate(rd, ctx) && fw.rules == [] && AllSucceed(rd, FrontLines(ctx), ok)
    ensures
      var after := Replay(rd, fw, FrontLines(ctx), ok).fw;
      && after == WithDefaults(rd, fw.(rules := [UmbilicalRule(ctx)]), ctx)
      && after.active == fw.active && after.rules == [UmbilicalRule(ctx)]
  {
    var a := [UmbilicalLine(ctx)];
    var b, c := DefaultLines(ctx.defaultIn, "incoming"), DefaultLines(ctx.defaultOut, "outgoing");
    SucceedCut(rd, a + b, c, ok);
    SucceedCut(rd, a, b, ok);
    ReplayCut(rd, fw, a + b, c, ok);
    ReplayCut(rd, fw, a, b, ok);
    UmbilicalUnderstood(rd, ctx);
    ReplayOne(rd, fw, UmbilicalLine(ctx), ok);
    assert Succeeds(rd, a[0], ok(0));
    var fw1 := fw.(rules := fw.rules + [UmbilicalRule(ctx)]);
    assert fw1 == fw.(rules := [UmbilicalRule(ctx)]);
    ReplayDefault(rd, fw1, ctx.defaultIn, "incoming", Shift(ok, |a|));
    ReplayDefault(rd, WithDefault(rd, fw1, ctx.defaultIn, "incoming"), ctx.defaultOut, "outgoing", Shift(ok, |a + b|));
  }

  /** A default command looks at no other part of the firewall. */
  lemma SameDefault(rd: Reader, a: Firewall, b: Firewall, policy: Option<string>, way: string)
    requires a.defaultIn == b.defaultIn && a.defaultOut == b.defaultOut
    ensures
      var x, y := WithDefault(rd, a, policy, way), WithDefault(rd, b, policy, way);
      x.defaultIn == y.defaultIn && x.defaultOut == y.defaultOut
  {
  }

  /** A complete replay leaves exactly the umbilical and what UFW reads in each rule's line, in order. */
  lemma CompleteReplay(sys: System, fw: Firewall, rules: seq<Rule>, ctx: ApplyContext, o: Outcome)
    requires sys.rd.Valid() && Gate(sys.rd, ctx)
    requires o.resetOk && o.enableOk && ApplyLines(sys, fw, CompileLines(rules, ctx), o).failed == 0
    ensures ApplyLines(sys, fw, CompileLines(rules, ctx), o).fw == CompleteState(sys.rd, rules, ctx, fw)
    ensures |ReadBacks(sys.rd, rules)| == |rules|
  {
    var lines, cleared := CompileLines(rules, ctx), Enable(Reset(fw));
    ReplayCounts(sys.rd, cleared, lines, o.cmdOk);
    SucceedCut(sys.rd, FrontLines(ctx), RuleLines(rules), o.cmdOk);
    ReplayCut(sys.rd, cleared, FrontLines(ctx), RuleLines(rules), o.cmdOk);
    ReplayFront(sys.rd, cleared, ctx, o.cmdOk);
    var start := cleared.(rules := [UmbilicalRule(ctx)]);
    SameDefault(sys.rd, start, fw, ctx.defaultIn, "incoming");
    SameDefault(sys.rd, WithDefault(sys.rd, start, ctx.defaultIn, "incoming"),
                WithDefault(sys.rd, fw, ctx.defaultIn, "incoming"), ctx.defaultOut, "outgoing");
    ReplayRules(sys.rd, WithDefaults(sys.rd, start, ctx), rules, Shift(o.cmdOk, |FrontLines(ctx)|));
  }

  /** Replaying the same policy again changes nothing. */
  lemma CompleteTwice(rd: Reader, rules: seq<Rule>, ctx: ApplyContext, before: Firewall)
    ensures
      var once := CompleteState(rd, rules, ctx, before);
      CompleteState(rd, rules, ctx, once) == once
  {
    if ctx.defaultIn.Some? { DefaultLineReads(rd, ctx.defaultIn.value, "incoming"); }
    if ctx.defaultOut.Some? { DefaultLineReads(rd, ctx.defaultOut.value, "outgoing"); }
  }

  /** A masquerade rule can never be replayed: its policy is never complete. */
  lemma MasqueradeNeverCompletes(sys: System, fw: Firewall, rules: seq<Rule>, ctx: ApplyContext, o: Outcome, i: nat)
    requires i < |rules| && rules[i].action == Masquerade && o.resetOk && o.enableOk
    ensures ApplyLines(sys, fw, CompileLines(rules, ctx), o).failed > 0
  {
    var lines, cleared := CompileLines(rules, ctx), Enable(Reset(fw));
    ReplayCounts(sys.rd, cleared, lines, o.cmdOk);
    RuleLineAt(rules, i);
    RuleLineReads(sys.rd, rules[i]);
    var k := |FrontLines(ctx)| + i;
    assert lines[k] == RuleLines(rules)[i];
    assert !Succeeds(sys.rd, lines[k], o.cmdOk(k));
  }

  lemma {:induction false} RuleLineAt(rules: seq<Rule>, i: nat)
    requires i < |rules|
    ensures |RuleLines(rules)| == |rules| && RuleLines(rules)[i] == RuleLine(rules[i])
  {
    var n := |rules| - 1;
    if i < n {
      RuleLineAt(rules[..n], i);
    } else if n > 0 {
      RuleLineAt(rules[..n], 0);
    }
  }

  // ---- when the rules are read as meant ------------------------------------

  /** UFW reads every rule's line as the rule that is meant. */
  predicate ReadsAsMeant(rd: Reader, rules: seq<Rule>) {
    forall i :: 0 <= i < |rules| ==> ReadBack(rd, rules[i]) == Some(Live(rules[i]))
  }

  /** A rule with plain texts is read as meant, unless it is refused. */
  lemma PlainReads(rd: Reader, r: Rule)
    requires PlainRule(r) && ReadBack(rd, r).Some?
    ensures ReadBack(rd, r) == Some(Live(r))
  {
    RuleUnderstood(rd, r);
  }

  /** After a complete replay the live rules are the policy's own iff each line is read as meant. */
  lemma MeantIff(rd: Reader, rules: seq<Rule>)
    requires |ReadBacks(rd, rules)| == |rules|
    ensures ReadBacks(rd, rules) == LiveRules(rules) <==> ReadsAsMeant(rd, rules)
  {
    forall i | 0 <= i < |rules| ensures ReadBack(rd, rules[i]) == Some(ReadBacks(rd, rules)[i]) {
      GivenAt(Readings(rd, rules), i);
    }
  }

  /** After a complete replay rules with plain texts are all read as meant. */
  lemma PlainReadsAll(rd: Reader, rules: seq<Rule>)
    requires PlainRules(rules) && |ReadBacks(rd, rules)| == |rules|
    ensures ReadsAsMeant(rd, rules)
  {
    forall i | 0 <= i < |rules| ensures ReadBack(rd, rules[i]) == Some(Live(rules[i])) {
      GivenAt(Readings(rd, rules), i);
      PlainReads(rd, rules[i]);
    }
  }

  predicate PlainDefaults(ctx: ApplyContext) { OptPlain(ctx.defaultIn) && OptPlain(ctx.defaultOut) }

  /** Defaults that are plain texts, as the enum's names are, are the ones named. */
  lemma DefaultsNamed(rd: Reader, fw: Firewall, ctx: ApplyContext)
    requires PlainDefaults(ctx)
    ensures
      var d := WithDefaults(rd, fw, ctx);
      d.defaultIn == Named(ctx.defaultIn, fw.defaultIn) && d.defaultOut == Named(ctx.defaultOut, fw.defaultOut)
  {
    if ctx.defaultIn.Some? { DefaultUnderstood(rd, ctx.defaultIn.value, false); }
    if ctx.defaultOut.Some? { DefaultUnderstood(rd, ctx.defaultOut.value, true); }
  }

  // ---- compiler correctness ------------------------------------------------

  lemma LiveMatches(rd: Reader, r: Rule, p: Packet)
    ensures Matches(rd, Live(r), p) <==> Covers(rd, r, p)
  {
  }

  lemma {:induction false} LiveDecides(rd: Reader, rules: seq<Rule>, p: Packet)
    ensures FirstMatch(rd, LiveRules(rules), p) == Decides(rd, rules, p)
  {
    if rules != [] {
      LiveMatches(rd, rules[0], p);
      assert LiveRules(rules)[1..] == LiveRules(rules[1..]);
      LiveDecides(rd, rules[1..], p);
    }
  }

  lemma UmbilicalMatches(rd: Reader, ctx: ApplyContext, p: Packet)
    requires rd.Valid() && Gate(rd, ctx)
    ensures Matches(rd, UmbilicalRule(ctx), p) <==> ToManager(rd, ctx, p)
  {
    var ip := rd.ip(ctx.managerIp).value;
    assert ReadAddress(rd, ctx.managerIp) == Some(HostNet(ip));
  }

  /** The verdict after a complete replay, for any texts: the manager first, then the rules UFW read. */
  lemma CompleteVerdict(rd: Reader, rules: seq<Rule>, ctx: ApplyContext, fw: Firewall, p: Packet)
    requires rd.Valid() && Gate(rd, ctx)
    ensures Verdict(rd, CompleteState(rd, rules, ctx, fw), p)
         == if ToManager(rd, ctx, p) then Allow
            else match FirstMatch(rd, ReadBacks(rd, rules), p)
              case Some(a) => a
              case None =>
                var d := WithDefaults(rd, fw, ctx);
                if p.outgoing then d.defaultOut else d.defaultIn
  {
    FirstMatchAppend(rd, [UmbilicalRule(ctx)], ReadBacks(rd, rules), p);
    UmbilicalMatches(rd, ctx, p);
    assert [UmbilicalRule(ctx)][1..] == [];
  }

  lemma AllGiven(rd: Reader, rules: seq<Rule>)
    requires ReadsAsMeant(rd, rules)
    ensures ReadBacks(rd, rules) == LiveRules(rules)
  {
    var os, live := Readings(rd, rules), LiveRules(rules);
    forall i | 0 <= i < |os| ensures os[i] == Some(live[i]) {
      assert ReadBack(rd, rules[i]) == Some(Live(rules[i]));
    }
    GivenAll(os, live);
  }

  lemma {:induction false} GivenAll(os: seq<Option<UfwRule>>, live: seq<UfwRule>)
    requires |os| == |live| && forall i :: 0 <= i < |os| ==> os[i] == Some(live[i])
    ensures Given(os) == live
  {
    if os != [] {
      var n := |os| - 1;
      GivenAll(os[..n], live[..n]);
      assert live == live[..n] + [live[n]];
    }
  }

  /** For rules read as meant, a complete replay gives every packet the policy's own verdict. */
  lemma CompleteMeans(rd: Reader, rules: seq<Rule>, ctx: ApplyContext, fw: Firewall, p: Packet)
    requires rd.Valid() && Gate(rd, ctx) && ReadsAsMeant(rd, rules) && PlainDefaults(ctx)
    ensures Verdict(rd, CompleteState(rd, rules, ctx, fw), p) == PolicyVerdict(rd, rules, ctx, fw, p)
  {
    AllGiven(rd, rules);
    CompleteVerdict(rd, rules, ctx, fw, p);
    DefaultsNamed(rd, fw, ctx);
    LiveDecides(rd, rules, p);
  }

  /** Compiler correctness: after a complete replay of rules read as meant, every packet meets the policy's own
      verdict. */
  lemma CompilerCorrect(sys: System, fw: Firewall, rules: seq<Rule>, ctx: ApplyContext, o: Outcome, p: Packet)
    requires sys.rd.Valid() && Gate(sys.rd, ctx) && ReadsAsMeant(sys.rd, rules) && PlainDefaults(ctx)
    requires o.resetOk && o.enableOk && ApplyLines(sys, fw, CompileLines(rules, ctx), o).failed == 0
    ensures Verdict(sys.rd, ApplyLines(sys, fw, CompileLines(rules, ctx), o).fw, p)
         == PolicyVerdict(sys.rd, rules, ctx, fw, p)
  {
    CompleteReplay(sys, fw, rules, ctx, o);
    CompleteMeans(sys.rd, rules, ctx, fw, p);
  }

  /** In particular for plain texts, with no condition on how they are read. */
  lemma PlainCompilerCorrect(sys: System, fw: Firewall, rules: seq<Rule>, ctx: ApplyContext, o: Outcome, p: Packet)
    requires sys.rd.Valid() && Gate(sys.rd, ctx) && PlainRules(rules) && PlainDefaults(ctx)
    requires o.resetOk && o.enableOk && ApplyLines(sys, fw, CompileLines(rules, ctx), o).failed == 0
    ensures Verdict(sys.rd, ApplyLines(sys, fw, CompileLines(rules, ctx), o).fw, p)
         == PolicyVerdict(sys.rd, rules, ctx, fw, p)
  {
    CompleteReplay(sys, fw, rules, ctx, o);
    PlainReadsAll(sys.rd, rules);
    CompilerCorrect(sys, fw, rules, ctx, o, p);
  }

  /** A `forward` rule is compiled exactly as the same rule with direction `in`. */
  lemma ForwardBecomesIn(r: Rule)
    requires r.direction == Forward
    ensures RuleWords(r) == RuleWords(r.(direction := In)) && Live(r) == Live(r.(direction := In))
  {
    SameClauses(r, r.(direction := In), 0);
  }

  lemma {:induction false} SameClauses(r: Rule, q: Rule, k: nat)
    requires r.direction != Out && q == r.(direction := In)
    ensures ClausesFrom(r, k) == ClausesFrom(q, k)
    decreases 9 - k
  {
    if k < 9 {
      SameClauses(r, q, k + 1);
      assert Clause(r, k) == Clause(q, k);
    }
  }

  // ---- the manager stays reachable -----------------------------------------

  /** Every outbound TCP packet to the manager is accepted. */
  ghost predicate Reachable(rd: Reader, ctx: ApplyContext, fw: Firewall) {
    forall p :: ToManager(rd, ctx, p) ==> Verdict(rd, fw, p) == Allow
  }

  lemma FirstRuleUmbilical(rd: Reader, ctx: ApplyContext, fw: Firewall)
    requires rd.Valid() && Gate(rd, ctx) && [UmbilicalRule(ctx)] <= fw.rules
    ensures Reachable(rd, ctx, fw)
  {
    forall p | ToManager(rd, ctx, p) ensures Verdict(rd, fw, p) == Allow {
      UmbilicalMatches(rd, ctx, p);
    }
  }

  /** One apply keeps the manager reachable for any rule texts, any defaults and any command failures, as
      long as the umbilical command itself is not reported as failed. */
  lemma ApplyKeepsReachable(sys: System, fw: Firewall, rules: seq<Rule>, ctx: ApplyContext, o: Outcome)
    requires sys.rd.Valid() && Gate(sys.rd, ctx) && o.cmdOk(0)
    requires Reachable(sys.rd, ctx, fw)
    ensures Reachable(sys.rd, ctx, ApplyLines(sys, fw, CompileLines(rules, ctx), o).fw)
  {
    if o.resetOk && o.enableOk {
      var cleared := Enable(Reset(fw));
      var first, rest := [UmbilicalLine(ctx)], CompileLines(rules, ctx)[1..];
      assert CompileLines(rules, ctx) == first + rest;
      ReplayCut(sys.rd, cleared, first, rest, o.cmdOk);
      UmbilicalUnderstood(sys.rd, ctx);
      ReplayOne(sys.rd, cleared, UmbilicalLine(ctx), o.cmdOk);
      ReplayAppends(sys.rd, Replay(sys.rd, cleared, first, o.cmdOk).fw, rest, Shift(o.cmdOk, 1));
      FirstRuleUmbilical(sys.rd, ctx, ApplyLines(sys, fw, CompileLines(rules, ctx), o).fw);
    }
  }

  /** Without the umbilical the property fails: the add reported as failed under a deny-outgoing default. */
  lemma UmbilicalNeeded(sys: System, ctx: ApplyContext, p: Packet)
    requires ToManager(sys.rd, ctx, p)
    requires ctx.defaultIn.None? && ctx.defaultOut.None?
    ensures
      var fw := Firewall(false, [], Deny, Deny);
      var o := Outcome(true, true, (i: nat) => i != 0, true);
      Reachable(sys.rd, ctx, fw)
      && Verdict(sys.rd, ApplyLines(sys, fw, CompileLines([], ctx), o).fw, p) == Deny
  {
    var fw := Firewall(false, [], Deny, Deny);
    var o := Outcome(true, true, (i: nat) => i != 0, true);
    assert CompileLines([], ctx) == [UmbilicalLine(ctx)];
    ReplayOne(sys.rd, Enable(Reset(fw)), UmbilicalLine(ctx), o.cmdOk);
  }
}
