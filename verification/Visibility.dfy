/** Which policy edits the agent gets to see, and what becomes of those it does not. */
module Visibility {
  import opened Text
  import opened Encoding
  import opened Models
  import opened Agent
  import opened Manager
  import opened Protocol
  import opened Convergence

  /** The agent recorded exactly the policy the manager holds. */
  predicate InSync(w: World) {
    w.agent.lastGood == Some(DtosToRules(AssignedRules(w.mgr))) && CachedDefaults(w.agent) == AssignedDefaults(w.mgr)
  }

  /** The bytes the hash of a policy is taken of. */
  function PolicyFeed(rules: seq<RuleDto>): Bytes { RulesFeed(DtosParts(rules)) }

  /** There are rules, and their hashed bytes differ from those of the policy before. */
  predicate EditSeen(before: seq<RuleDto>, after: seq<RuleDto>) {
    after != [] && PolicyFeed(after) != PolicyFeed(before)
  }

  lemma PendingAfterEdit(su: Setup, w: World, rules: seq<RuleDto>)
    requires InSync(w)
    ensures
      UpdatePending(su, Next(su, w, PolicyEdit(Some(rules))))
      <==> rules != [] && ReportedHash(su, w.agent) != RulesHash(su.sys.digest, DtosParts(rules))
  {
    var v := Next(su, w, PolicyEdit(Some(rules)));
    assert v.agent == w.agent && v.mgr.policy == Some(Policy(rules, AssignedDefaults(w.mgr)));
  }

  /** An edit of the rules makes an update pending iff it leaves rules and changes the hashed bytes, short of a
      collision of the two feeds. */
  lemma EditSeenIff(su: Setup, w: World, rules: seq<RuleDto>)
    requires InSync(w) && KnownPolicy(w.mgr)
    requires NoCollision(su.sys.digest, {PolicyFeed(AssignedRules(w.mgr)), PolicyFeed(rules)})
    ensures UpdatePending(su, Next(su, w, PolicyEdit(Some(rules)))) <==> EditSeen(AssignedRules(w.mgr), rules)
  {
    PendingAfterEdit(su, w, rules);
    EqualHashIff(su.sys.digest, AssignedRules(w.mgr), rules);
  }

  /** An edit of one covered field of one rule - id, action, direction, protocol, source, destination or first port -
      makes an update pending iff it changes that field, short of a collision of the two feeds. */
  lemma FieldEditSeenIff(su: Setup, w: World, i: nat, e: RuleDto, c: Field)
    requires InSync(w) && KnownPolicy(w.mgr) && i < |AssignedRules(w.mgr)|
    requires Models.SameBut(AssignedRules(w.mgr)[i], e, c) && PortFits(AssignedRules(w.mgr)[i]) && PortFits(e)
    requires NoCollision(su.sys.digest, {PolicyFeed(AssignedRules(w.mgr)), PolicyFeed(AssignedRules(w.mgr)[i := e])})
    ensures UpdatePending(su, Next(su, w, PolicyEdit(Some(AssignedRules(w.mgr)[i := e]))))
       <==> !SameField(AssignedRules(w.mgr)[i], e, c)
  {
    EditSeenIff(su, w, AssignedRules(w.mgr)[i := e]);
    FieldEditDecides(AssignedRules(w.mgr), i, e, c);
  }

  /** A rule added anywhere in the list makes one pending. */
  lemma AdditionSeen(su: Setup, w: World, front: seq<RuleDto>, e: RuleDto, back: seq<RuleDto>)
    requires InSync(w) && KnownPolicy(w.mgr) && AssignedRules(w.mgr) == front + back && e.id != []
    requires NoCollision(su.sys.digest, {PolicyFeed(front + back), PolicyFeed(front + [e] + back)})
    ensures UpdatePending(su, Next(su, w, PolicyEdit(Some(front + [e] + back))))
  {
    EditSeenIff(su, w, front + [e] + back);
    InsertionSeen(front, e, back);
  }

  /** A rule removed makes one pending iff it was not the only one. */
  lemma RemovalSeenIff(su: Setup, w: World, front: seq<RuleDto>, e: RuleDto, back: seq<RuleDto>)
    requires InSync(w) && KnownPolicy(w.mgr) && AssignedRules(w.mgr) == front + [e] + back && e.id != []
    requires NoCollision(su.sys.digest, {PolicyFeed(front + [e] + back), PolicyFeed(front + back)})
    ensures UpdatePending(su, Next(su, w, PolicyEdit(Some(front + back)))) <==> front + back != []
  {
    EditSeenIff(su, w, front + back);
    InsertionSeen(front, e, back);
  }

  /** A host that has applied nothing yet sees any policy with rules. */
  lemma FirstPolicySeen(su: Setup, w: World)
    requires HexDigest(su.sys.digest) && w.agent.lastGood.None?
    ensures UpdatePending(su, w) <==> AssignedRules(w.mgr) != []
  {
    if AssignedRules(w.mgr) != [] {
      assert IsHex64(ExpectedRulesHash(su.sys.digest, w.mgr));
    }
  }

  /** That an edit of the other kind is not seen holds for every hash function. */
  lemma UnseenNotPending(su: Setup, w: World, rules: seq<RuleDto>)
    requires InSync(w) && KnownPolicy(w.mgr) && !EditSeen(AssignedRules(w.mgr), rules)
    ensures !UpdatePending(su, Next(su, w, PolicyEdit(Some(rules))))
  {
    PendingAfterEdit(su, w, rules);
    SameRulesSameHash(su.sys.digest, AssignedRules(w.mgr));
  }

  /** Taking the policy away is never an update. */
  lemma UnassignUnseen(su: Setup, w: World)
    ensures !UpdatePending(su, Next(su, w, PolicyEdit(None)))
  {
  }

  /** An edit of the defaults makes an update pending iff there are rules and the defaults differ. */
  lemma DefaultsSeenIff(su: Setup, w: World, d: Defaults)
    requires InSync(w) && KnownPolicy(w.mgr)
    ensures UpdatePending(su, Next(su, w, DefaultsEdit(d)))
       <==> AssignedRules(w.mgr) != [] && d != AssignedDefaults(w.mgr)
  {
    SameRulesSameHash(su.sys.digest, AssignedRules(w.mgr));
    var m := EditDefaults(w.mgr, d);
    assert AssignedRules(m) == AssignedRules(w.mgr);
  }

  lemma EditKeepsDrift(su: Setup, w: World, policy: Option<seq<RuleDto>>)
    requires !Unsettled(su, w)
    ensures
      var v := Next(su, w, PolicyEdit(policy));
      v.agent == w.agent && (Unsettled(su, v) <==> UpdatePending(su, v))
  {
  }

  /** A settled host applies something on its next delivered check-in iff the edit is seen, and then the new
      policy. */
  lemma EditAppliedIff(su: Setup, w: World, rules: seq<RuleDto>, now: nat, f: Faults)
    requires InSync(w) && KnownPolicy(w.mgr) && !Unsettled(su, w) && f.statusOk
    requires NoCollision(su.sys.digest, {PolicyFeed(AssignedRules(w.mgr)), PolicyFeed(rules)})
    ensures
      var v := Next(su, w, PolicyEdit(Some(rules)));
      && (PlanOf(su, v, now, f).Some? <==> EditSeen(AssignedRules(w.mgr), rules))
      && (EditSeen(AssignedRules(w.mgr), rules) ==> PlanOf(su, v, now, f) == Some(ManagerPlan(v.mgr)))
  {
    var v := Next(su, w, PolicyEdit(Some(rules)));
    EditSeenIff(su, w, rules);
    EditKeepsDrift(su, w, Some(rules));
    PlansIffUnsettled(su, v, now, f);
  }

  /** An edit that makes no update pending never reaches the firewall: over every clean run without further change
      nothing is applied and the old policy stays in force. */
  lemma UnseenStaysOut(su: Setup, w: World, policy: Option<seq<RuleDto>>, es: seq<Event>)
    requires GoodSystem(su) && Recorded(su, w.agent) && InForce(su, w.agent) && !Unsettled(su, w)
    requires
      var v := Next(su, w, PolicyEdit(policy));
      KnownPolicy(v.mgr) && !UpdatePending(su, v) && CleanRun(su, v, es) && ChangeCount(su, v, es) == 0
    ensures
      var v := Next(su, w, PolicyEdit(policy));
      ApplyCount(su, v, es) == 0 && Worlds(su, v, es).agent.fw == w.agent.fw
  {
    var v := Next(su, w, PolicyEdit(policy));
    EditKeepsDrift(su, w, policy);
    ConvergedStaysQuiet(su, v, es);
    QuietKeepsFirewall(su, v, es);
  }

  /** So an edit of the rules that is not seen is lost until a later one is. */
  lemma UnseenEditIsLost(su: Setup, w: World, rules: seq<RuleDto>, es: seq<Event>)
    requires GoodSystem(su) && Recorded(su, w.agent) && InForce(su, w.agent) && !Unsettled(su, w)
    requires InSync(w) && KnownPolicy(w.mgr) && !EditSeen(AssignedRules(w.mgr), rules)
    requires forall i :: 0 <= i < |rules| ==> KnownNames(rules[i])
    requires
      var v := Next(su, w, PolicyEdit(Some(rules)));
      CleanRun(su, v, es) && ChangeCount(su, v, es) == 0
    ensures
      var v := Next(su, w, PolicyEdit(Some(rules)));
      ApplyCount(su, v, es) == 0 && Worlds(su, v, es).agent.fw == w.agent.fw
  {
    UnseenNotPending(su, w, rules);
    UnseenStaysOut(su, w, Some(rules), es);
  }

  /** In particular one that only touches names, source ports, last destination ports, interfaces, log flags or
      priorities. */
  lemma UncoveredEditUnseen(digest: Digest, before: seq<RuleDto>, rules: seq<RuleDto>)
    requires |before| == |rules| && forall i :: 0 <= i < |rules| ==> SameCovered(before[i], rules[i])
    requires forall i :: 0 <= i < |before| ==> KnownNames(before[i])
    ensures !EditSeen(before, rules) && forall i :: 0 <= i < |rules| ==> KnownNames(rules[i])
  {
    HashMissesUncoveredFields(digest, before, rules);
    SameNamesKnown(before, rules);
  }

  lemma SameNamesKnown(ds: seq<RuleDto>, es: seq<RuleDto>)
    requires |ds| == |es| && forall i :: 0 <= i < |ds| ==> SameCovered(ds[i], es[i])
    requires forall i :: 0 <= i < |ds| ==> KnownNames(ds[i])
    ensures forall i :: 0 <= i < |es| ==> KnownNames(es[i])
  {
    forall i | 0 <= i < |es| ensures KnownNames(es[i]) {
      assert SameCovered(ds[i], es[i]) && KnownNames(ds[i]);
    }
  }

  /** A policy emptied or taken away stays in force. */
  lemma RemovedPolicyStays(su: Setup, w: World, emptied: bool, es: seq<Event>)
    requires GoodSystem(su) && Recorded(su, w.agent) && InForce(su, w.agent) && !Unsettled(su, w)
    requires
      var v := Next(su, w, PolicyEdit(if emptied then Some([]) else None));
      CleanRun(su, v, es) && ChangeCount(su, v, es) == 0
    ensures
      var v := Next(su, w, PolicyEdit(if emptied then Some([]) else None));
      ApplyCount(su, v, es) == 0 && Worlds(su, v, es).agent.fw == w.agent.fw
  {
    var policy: Option<seq<RuleDto>> := if emptied then Some([]) else None;
    assert AssignedRules(Next(su, w, PolicyEdit(policy)).mgr) == [];
    UnseenStaysOut(su, w, policy, es);
  }
}
