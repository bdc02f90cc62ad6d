/** From the manager's tables to packets, stated over the tables' own columns and the agent's own slots. */
module EndToEnd {
  import opened Text
  import opened Encoding
  import opened Models
  import opened Protected
  import opened Ufw
  import opened UfwCompile
  import opened UfwRoundTrip
  import opened UfwApply
  import opened UfwMeaning
  import opened Agent
  import opened Manager
  import opened Protocol
  import opened Convergence
  import AgentSafety
  import Snapshot

  // ---- what the columns say ------------------------------------------------

  predicate NamesAction(t: string, a: Action) {
    || (t == "allow" && a == Allow) || (t == "deny" && a == Deny) || (t == "reject" && a == Reject)
    || (t == "limit" && a == Limit) || (t == "masquerade" && a == Masquerade)
  }

  predicate NamesProtocol(t: string, p: Models.Protocol) {
    || (t == "tcp" && p == Tcp) || (t == "udp" && p == Udp) || (t == "icmp" && p == Icmp)
    || (t == "icmpv6" && p == Icmpv6) || (t == "gre" && p == Gre) || (t == "esp" && p == Esp)
    || (t == "ah" && p == Ah) || (t == "sctp" && p == Sctp)
  }

  /** The interface column of the packet's direction. */
  function InterfaceColumn(d: RuleDto, outgoing: bool): Option<string> {
    if outgoing then d.interfaceOut else d.interfaceIn
  }

  /** A rule row covers a packet. */
  predicate RowCovers(rd: Reader, d: RuleDto, p: Packet) {
    && p.outgoing == (d.direction == "out")
    && (d.protocol == "any" || NamesProtocol(d.protocol, p.proto))
    && (InterfaceColumn(d, p.outgoing).None? || InterfaceColumn(d, p.outgoing).value == p.iface)
    && InCidr(rd, d.srcCidr, p.src) && InCidr(rd, d.dstCidr, p.dst)
    && InPorts(d.srcPortStart, d.srcPortEnd, p.srcPort) && InPorts(d.dstPortStart, d.dstPortEnd, p.dstPort)
  }

  /** The action column of the first row that covers the packet. */
  function RowsDecide(rd: Reader, rows: seq<RuleDto>, p: Packet): Option<string> {
    if rows == [] then None
    else if RowCovers(rd, rows[0], p) then Some(rows[0].action)
    else RowsDecide(rd, rows[1..], p)
  }

  /** A default column: the policy it names, or the one in force before when it is empty or names none. */
  predicate DefaultIs(column: Option<string>, before: Action, v: Action) {
    match column
    case None => v == before
    case Some(t) => if t in ["allow", "deny", "reject"] then NamesAction(t, v) else v == before
  }

  /** What the two default columns say about a packet no rule covers. */
  predicate DefaultsSay(d: Defaults, before: Firewall, p: Packet, v: Action) {
    if p.outgoing then DefaultIs(d.output, before.defaultOut, v) else DefaultIs(d.input, before.defaultIn, v)
  }

  /** The verdict the tables ask for: the manager's endpoint first, then the first row, then the default. */
  predicate RowsSay(su: Setup, rows: seq<RuleDto>, d: Defaults, before: Firewall, p: Packet, v: Action) {
    if AgentSafety.ToEndpoint(su, p) then v == Allow
    else match RowsDecide(su.sys.rd, rows, p)
      case Some(t) => NamesAction(t, v)
      case None => DefaultsSay(d, before, p, v)
  }

  /** The same for rules as the agent keeps them. */
  predicate RulesSay(su: Setup, rules: seq<Rule>, d: Defaults, before: Firewall, p: Packet, v: Action) {
    if AgentSafety.ToEndpoint(su, p) then v == Allow
    else match Decides(su.sys.rd, rules, p)
      case Some(a) => v == a
      case None => DefaultsSay(d, before, p, v)
  }

  // ---- the rows become the rules -------------------------------------------

  lemma RowIsRule(rd: Reader, d: RuleDto, p: Packet)
    requires KnownNames(d)
    ensures Covers(rd, DtoToRule(d), p) <==> RowCovers(rd, d, p)
    ensures NamesAction(d.action, DtoToRule(d).action)
  {
  }

  lemma {:induction false} RowsAreRules(rd: Reader, rows: seq<RuleDto>, p: Packet)
    requires forall i :: 0 <= i < |rows| ==> KnownNames(rows[i])
    ensures match RowsDecide(rd, rows, p)
            case Some(t) =>
              Decides(rd, DtosToRules(rows), p).Some? && NamesAction(t, Decides(rd, DtosToRules(rows), p).value)
            case None => Decides(rd, DtosToRules(rows), p).None?
  {
    if rows != [] {
      RowIsRule(rd, rows[0], p);
      RowsAreRules(rd, rows[1..], p);
      assert DtosToRules(rows)[1..] == DtosToRules(rows[1..]);
    }
  }

  lemma RowsSayRules(su: Setup, rows: seq<RuleDto>, d: Defaults, before: Firewall, p: Packet, v: Action)
    requires forall i :: 0 <= i < |rows| ==> KnownNames(rows[i])
    requires RulesSay(su, DtosToRules(rows), d, before, p, v)
    ensures RowsSay(su, rows, d, before, p, v)
  {
    RowsAreRules(su.sys.rd, rows, p);
  }

  // ---- a complete apply, without the apply context -------------------------

  lemma NamedIs(column: Option<string>, before: Action)
    ensures DefaultIs(column, before, Named(column, before))
  {
  }

  lemma ContextSays(su: Setup, rules: seq<Rule>, d: Defaults, before: Firewall, p: Packet)
    requires su.endpoint.Some?
    ensures RulesSay(su, rules, d, before, p, PolicyVerdict(su.sys.rd, rules, Context(su, d), before, p))
  {
    assert ToManager(su.sys.rd, Context(su, d), p) <==> AgentSafety.ToEndpoint(su, p);
    NamedIs(d.input, before.defaultIn);
    NamedIs(d.output, before.defaultOut);
  }

  /** An unusable endpoint never passes the gate. */
  lemma GateNeedsEndpoint(su: Setup, d: Defaults)
    requires su.sys.rd.Valid() && Gate(su.sys.rd, Context(su, d))
    ensures su.endpoint.Some?
  {
  }

  predicate PlainColumns(d: Defaults) { OptPlain(d.input) && OptPlain(d.output) }

  /** A plan completely applied gives every packet what its rules and its two defaults say. */
  lemma PlanSays(su: Setup, plan: Plan, before: Firewall, p: Packet)
    requires su.sys.rd.Valid() && Gate(su.sys.rd, Context(su, plan.defaults))
    requires ReadsAsMeant(su.sys.rd, plan.rules) && PlainColumns(plan.defaults)
    ensures RulesSay(su, plan.rules, plan.defaults, before, p, Verdict(su.sys.rd, PlanState(su, plan, before), p))
  {
    GateNeedsEndpoint(su, plan.defaults);
    PlanStateMeans(su, plan, before, p);
    ContextSays(su, plan.rules, plan.defaults, before, p);
  }

  // ---- the three ways to apply ---------------------------------------------

  /** A new policy: after one good check-in with an update pending, over every clean run without change, every packet
      meets what the manager's own rows and default columns say. */
  lemma PacketsMeetRows(su: Setup, w: World, now: nat, f: Faults, es: seq<Event>, p: Packet)
    requires GoodSystem(su) && KnownPolicy(w.mgr) && UpdatePending(su, w) && GoodCheckIn(su, w, now, f)
    requires PlainRules(DtosToRules(AssignedRules(w.mgr))) && PlainColumns(AssignedDefaults(w.mgr))
    requires
      var v := Next(su, w, CheckInEvent(now, Complete, f));
      CleanRun(su, v, es) && ChangeCount(su, v, es) == 0
    ensures
      var v := Next(su, w, CheckInEvent(now, Complete, f));
      RowsSay(su, AssignedRules(w.mgr), AssignedDefaults(w.mgr), w.agent.fw, p,
              Verdict(su.sys.rd, Worlds(su, v, es).agent.fw, p))
  {
    var v, plan := Next(su, w, CheckInEvent(now, Complete, f)), ManagerPlan(w.mgr);
    PolicyStaysInForce(su, w, now, f, es);
    PendingPlanComplete(su, w, now, f);
    PlanSays(su, plan, w.agent.fw, p);
    RowsSayRules(su, AssignedRules(w.mgr), AssignedDefaults(w.mgr), w.agent.fw, p,
                 Verdict(su.sys.rd, Worlds(su, v, es).agent.fw, p));
  }

  /** The defaults remembered with the last good ruleset. */
  function RememberedDefaults(s: State): Defaults {
    match s.lastDefaults case Some(d) => d case None => Defaults(None, None)
  }

  /** The checks before applying the last good ruleset pass, and every command of it succeeds. */
  predicate LastGoodReplays(su: Setup, s: State, f: Faults) {
    && HasLastGood(s)
    && MayApply(su, s.lastGood.value, Context(su, RememberedDefaults(s)), f)
    && f.apply.resetOk && f.apply.enableOk
    && AllSucceed(su.sys.rd, CompileLines(s.lastGood.value, Context(su, RememberedDefaults(s))), f.apply.cmdOk)
  }

  lemma LastGoodApplies(su: Setup, s: State, f: Faults)
    requires su.sys.rd.Valid() && LastGoodReplays(su, s, f)
    ensures
      var e := ApplyRules(su, s, s.lastGood.value, Context(su, CachedDefaults(s)), f);
      && e.ran && e.hash.Some?
      && e.s.fw == PlanState(su, Plan(s.lastGood.value, RememberedDefaults(s)), s.fw)
      && |ReadBacks(su.sys.rd, s.lastGood.value)| == |s.lastGood.value|
  {
    var ctx := Context(su, RememberedDefaults(s));
    ReplayCounts(su.sys.rd, Enable(Reset(s.fw)), CompileLines(s.lastGood.value, ctx), f.apply.cmdOk);
    CompleteReplay(su.sys, s.fw, s.lastGood.value, ctx, f.apply);
  }

  /** Safe mode: past the timeout a failed check-in leaves every packet what the last good rules and the remembered
      defaults say. */
  lemma RevertedPackets(su: Setup, s: State, now: nat, f: Faults, p: Packet)
    requires su.sys.rd.Valid() && s.running.safeMode && now > s.lastContact + su.timeout
    requires LastGoodReplays(su, s, f) && PlainRules(s.lastGood.value) && PlainColumns(RememberedDefaults(s))
    ensures
      var end := Cycle(su, s, now, None, f);
      && end.ran
      && RulesSay(su, s.lastGood.value, RememberedDefaults(s), s.fw, p, Verdict(su.sys.rd, end.s.fw, p))
  {
    GateNeedsEndpoint(su, RememberedDefaults(s));
    LastGoodApplies(su, s, f);
    PlainReadsAll(su.sys.rd, s.lastGood.value);
    PlanSays(su, Plan(s.lastGood.value, RememberedDefaults(s)), s.fw, p);
  }

  // ---- drift ---------------------------------------------------------------

  /** The drift slot holds the hash of a listing; the live listing shows other rules. */
  predicate ShowsOtherRules(su: Setup, s: State, was: Firewall) {
    && s.expected == Some(LiveHash(su.sys, was))
    && multiset(Snapshot.ListedRules(su.sys.listing(s.fw))) != multiset(Snapshot.ListedRules(su.sys.listing(was)))
  }

  ghost predicate ListingsApart(su: Setup, a: Firewall, b: Firewall) {
    NoCollision(su.sys.digest, {Snapshot.LinesFeed(Snapshot.Sort(Snapshot.ListedRules(su.sys.listing(a)))),
                                Snapshot.LinesFeed(Snapshot.Sort(Snapshot.ListedRules(su.sys.listing(b))))})
  }

  lemma OtherRulesAreDrift(su: Setup, s: State, was: Firewall)
    requires HexDigest(su.sys.digest) && ShowsOtherRules(su, s, was) && ListingsApart(su, s.fw, was)
    ensures LocalDrift(su, s, true)
  {
    Snapshot.DriftIsChangedLines(su.sys.digest, su.sys.listing(s.fw), su.sys.listing(was));
    SlotReadsBack(LiveHash(su.sys, was));
  }

  /** A listing that shows the same rules, in any order and under any numbers, is no drift. */
  lemma SameRulesNoDrift(su: Setup, s: State, was: Firewall)
    requires HexDigest(su.sys.digest) && s.expected == Some(LiveHash(su.sys, was))
    requires multiset(Snapshot.ListedRules(su.sys.listing(s.fw)))
          == multiset(Snapshot.ListedRules(su.sys.listing(was)))
    ensures !LocalDrift(su, s, true)
  {
    Snapshot.CanonicalForm(su.sys.listing(s.fw), su.sys.listing(was));
    assert LiveHash(su.sys, s.fw) == LiveHash(su.sys, was);
    SlotReadsBack(LiveHash(su.sys, was));
  }

  /** Self-healing, from the listing to packets: with no update pending and no action due, after an out-of-band change
      that shows other rules, one delivered check-in applies the last good ruleset, and every packet meets what its
      rules and the remembered defaults say. */
  lemma HealedPackets(su: Setup, w: World, now: nat, f: Faults, was: Firewall, p: Packet)
    requires GoodSystem(su) && !UpdatePending(su, w) && DueActions(w.mgr.actions, now) == []
    requires ShowsOtherRules(su, w.agent, was) && ListingsApart(su, w.agent.fw, was)
    requires f.statusOk && LastGoodReplays(su, w.agent, f)
    requires PlainRules(w.agent.lastGood.value) && PlainColumns(RememberedDefaults(w.agent))
    ensures
      var e, s := CheckInEvent(now, Complete, f), w.agent;
      && Resets(su, w, e)
      && RulesSay(su, s.lastGood.value, RememberedDefaults(s), s.fw, p, Verdict(su.sys.rd, Next(su, w, e).agent.fw, p))
  {
    var s, plan := w.agent, Plan(w.agent.lastGood.value, RememberedDefaults(w.agent));
    OtherRulesAreDrift(su, s, was);
    PlansIffUnsettled(su, w, now, f);
    PlanCases(su, w, now, f);
    DriftApplied(su, w, now, f);
    PlainReadsAll(su.sys.rd, plan.rules);
    PlanSays(su, plan, s.fw, p);
  }

  lemma DriftApplied(su: Setup, w: World, now: nat, f: Faults)
    requires su.sys.rd.Valid() && LastGoodReplays(su, w.agent, f) && DueActions(w.mgr.actions, now) == []
    requires PlanOf(su, w, now, f) == Some(Plan(w.agent.lastGood.value, RememberedDefaults(w.agent)))
    ensures
      var e := CheckInEvent(now, Complete, f);
      && Resets(su, w, e)
      && Next(su, w, e).agent.fw
         == PlanState(su, Plan(w.agent.lastGood.value, RememberedDefaults(w.agent)), w.agent.fw)
      && |ReadBacks(su.sys.rd, w.agent.lastGood.value)| == |w.agent.lastGood.value|
  {
    var s := Prepared(su, w, now, f);
    PreparedKeepsSlots(su, w, now, f);
    LastGoodApplies(su, s, f);
    CheckInParts(su, w, now, f);
    AgentSafety.NoActions(ApplyStep(su, w, now, f).s, f);
  }

  // ---- log flags and comments ----------------------------------------------

  /** The live rule of a row: its log flag, and its name, without single quotes, as the comment. */
  predicate LiveLike(u: UfwRule, d: RuleDto) {
    && u.log == d.log && u.outgoing == (d.direction == "out") && NamesAction(d.action, u.action)
    && u.comment == if d.name == "" then None else Some(DropQuotes(d.name))
  }

  /** After one good check-in with an update pending the live rules are the umbilical and one rule for each row, in
      order, each with its row's log flag and name. */
  lemma LiveRulesMeetRows(su: Setup, w: World, now: nat, f: Faults)
    requires GoodSystem(su) && KnownPolicy(w.mgr) && UpdatePending(su, w) && GoodCheckIn(su, w, now, f)
    requires PlainRules(DtosToRules(AssignedRules(w.mgr)))
    ensures
      var live, rows := Next(su, w, CheckInEvent(now, Complete, f)).agent.fw.rules, AssignedRules(w.mgr);
      && |live| == |rows| + 1
      && forall k :: 0 <= k < |rows| ==> LiveLike(live[k + 1], rows[k])
  {
    PlansIffUnsettled(su, w, now, f);
    Converges(su, w, now, f);
    PendingPlanComplete(su, w, now, f);
    RowsLive(su, AssignedRules(w.mgr), AssignedDefaults(w.mgr), w.agent.fw);
  }

  lemma RowsLive(su: Setup, rows: seq<RuleDto>, d: Defaults, before: Firewall)
    requires ReadsAsMeant(su.sys.rd, DtosToRules(rows)) && forall i :: 0 <= i < |rows| ==> KnownNames(rows[i])
    ensures
      var live := PlanState(su, Plan(DtosToRules(rows), d), before).rules;
      && |live| == |rows| + 1
      && forall k :: 0 <= k < |rows| ==> LiveLike(live[k + 1], rows[k])
  {
    var rules := DtosToRules(rows);
    AllGiven(su.sys.rd, rules);
    var live := PlanState(su, Plan(rules, d), before).rules;
    forall k | 0 <= k < |rows| ensures LiveLike(live[k + 1], rows[k]) {
      assert live[k + 1] == LiveRules(rules)[k] == Live(DtoToRule(rows[k]));
      RowLive(rows[k]);
    }
  }

  lemma RowLive(d: RuleDto)
    requires KnownNames(d)
    ensures LiveLike(Live(DtoToRule(d)), d)
  {
  }
}
