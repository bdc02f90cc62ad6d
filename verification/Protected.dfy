/** Protected networks: the agent's check before an apply and the manager's check of one rule. */
module Protected {
  import opened Text
  import opened Cidr
  import opened Models
  import Shlex

  /** How address texts are read: `ipnet` for `address/prefix`, the standard library for a bare address. */
  datatype Reader = Reader(cidr: string -> Option<Net>, ip: string -> Option<Ip>)
  {
    /** A bare address is read as an address of its family; it is one plain word, not the word `any`, and
        not a network. */
    ghost predicate Valid() {
      forall t :: ip(t).Some? ==>
        ip(t).value.Valid() && Shlex.IsPlain(t) && t != "any" && cidr(t).None?
    }

    predicate TextsOverlap(a: string, b: string) {
      cidr(a).Some? && cidr(b).Some? && Overlaps(cidr(a).value, cidr(b).value)
    }
  }

  /** The agent's `overlaps_protected`. */
  method OverlapsProtected(rd: Reader, cidr: string, protected: seq<string>) returns (hit: Option<string>)
    ensures hit == FirstOverlap(rd, cidr, protected)
  {
    if rd.cidr(cidr).None? {
      NoneOverlap(rd, cidr, protected);
      return None;
    }
    var ruleNet := rd.cidr(cidr).value;
    for i := 0 to |protected|
      invariant FirstOverlap(rd, cidr, protected) == FirstOverlap(rd, cidr, protected[i..])
    {
      var p := rd.cidr(protected[i]);
      if p.Some?
         && ruleNet.Network().SameFamily(p.value.Network())
         && (ruleNet.Contains(p.value.Network()) || p.value.Contains(ruleNet.Network()))
      {
        return Some(protected[i]);
      }
    }
    return None;
  }

  /** The first protected network that meets `cidr`. */
  function FirstOverlap(rd: Reader, cidr: string, protected: seq<string>): (hit: Option<string>)
    ensures hit.None? <==> forall i :: 0 <= i < |protected| ==> !rd.TextsOverlap(cidr, protected[i])
    ensures hit.Some? ==> hit.value in protected && rd.TextsOverlap(cidr, hit.value)
  {
    if protected == [] then None
    else if rd.TextsOverlap(cidr, protected[0]) then Some(protected[0])
    else FirstOverlap(rd, cidr, protected[1..])
  }

  lemma NoneOverlap(rd: Reader, cidr: string, protected: seq<string>)
    requires rd.cidr(cidr).None?
    ensures FirstOverlap(rd, cidr, protected) == None
  {
  }

  /** `is_broad_src`. */
  predicate IsBroadSrc(src: Option<string>) {
    src.None? || Trim(src.value) in ["", "0.0.0.0/0", "::/0", "0.0.0.0", "::"]
  }

  datatype Violation =
    | BlocksProtected(rule: string, cidr: string, action: Action)
    | BroadToProtected(rule: string, cidr: string)

  function Blocking(rd: Reader, r: Rule, protected: seq<string>): Option<string> {
    if (r.action == Deny || r.action == Reject) && r.srcCidr.Some?
    then FirstOverlap(rd, r.srcCidr.value, protected)
    else None
  }

  function Exposing(rd: Reader, r: Rule, protected: seq<string>): Option<string> {
    if r.action == Allow && IsBroadSrc(r.srcCidr) && r.dstCidr.Some?
    then FirstOverlap(rd, r.dstCidr.value, protected) else None
  }

  function RuleViolations(rd: Reader, r: Rule, protected: seq<string>): seq<Violation> {
    (match Blocking(rd, r, protected) case Some(p) => [BlocksProtected(r.name, p, r.action)] case None => [])
    + (match Exposing(rd, r, protected) case Some(p) => [BroadToProtected(r.name, p)] case None => [])
  }

  function Violations(rd: Reader, rules: seq<Rule>, protected: seq<string>): seq<Violation> {
    if rules == [] then []
    else Violations(rd, rules[..|rules| - 1], protected) + RuleViolations(rd, rules[|rules| - 1], protected)
  }

  /** `check_rules_against_protected`: the list of violations; empty stands for `Ok`. */
  method CheckRulesAgainstProtected(rd: Reader, rules: seq<Rule>, protected: seq<string>)
    returns (violations: seq<Violation>)
    ensures violations == Violations(rd, rules, protected)
  {
    violations := [];
    if protected == [] {
      NothingProtected(rd, rules);
      return;
    }
    for i := 0 to |rules|
      invariant violations == Violations(rd, rules[..i], protected)
    {
      var found := CheckRule(rd, rules[i], protected);
      violations := violations + found;
      assert rules[..i + 1][..i] == rules[..i];
    }
    assert rules[..|rules|] == rules;
  }

  /** The two tests on one rule. */
  method CheckRule(rd: Reader, rule: Rule, protected: seq<string>) returns (violations: seq<Violation>)
    ensures violations == RuleViolations(rd, rule, protected)
  {
    violations := [];
    if rule.action == Deny || rule.action == Reject {
      if rule.srcCidr.Some? {
        var p := OverlapsProtected(rd, rule.srcCidr.value, protected);
        if p.Some? {
          violations := violations + [BlocksProtected(rule.name, p.value, rule.action)];
        }
      }
    }
    if rule.action == Allow && IsBroadSrc(rule.srcCidr) {
      if rule.dstCidr.Some? {
        var p := OverlapsProtected(rd, rule.dstCidr.value, protected);
        if p.Some? {
          violations := violations + [BroadToProtected(rule.name, p.value)];
        }
      }
    }
  }

  lemma {:induction false} NothingProtected(rd: Reader, rules: seq<Rule>)
    ensures Violations(rd, rules, []) == []
  {
    if rules != [] {
      NothingProtected(rd, rules[..|rules| - 1]);
    }
  }

  /** A rule is acceptable when it neither blocks nor exposes a protected network. */
  predicate Acceptable(rd: Reader, r: Rule, protected: seq<string>) {
    Blocking(rd, r, protected).None? && Exposing(rd, r, protected).None?
  }

  /** The whole rule list passes iff each rule does. */
  lemma {:induction false} PassesIffAcceptable(rd: Reader, rules: seq<Rule>, protected: seq<string>)
    ensures Violations(rd, rules, protected) == []
       <==> forall i :: 0 <= i < |rules| ==> Acceptable(rd, rules[i], protected)
  {
    if rules != [] {
      var init := rules[..|rules| - 1];
      PassesIffAcceptable(rd, init, protected);
      forall i | 0 <= i < |init| ensures init[i] == rules[i] {}
      assert forall i :: 0 <= i < |rules| ==> i == |rules| - 1 || rules[i] == init[i];
    }
  }

  /** An accepted blocking rule's source network shares no address with any protected network. */
  lemma AcceptedBlocksNoProtectedAddress(rd: Reader, r: Rule, protected: seq<string>, p: string, x: Ip)
    requires Acceptable(rd, r, protected) && (r.action == Deny || r.action == Reject)
    requires r.srcCidr.Some? && rd.cidr(r.srcCidr.value).Some?
    requires p in protected && rd.cidr(p).Some?
    requires x.Valid() && rd.cidr(p).value.Contains(x)
    ensures !rd.cidr(r.srcCidr.value).value.Contains(x)
  {
    var i :| 0 <= i < |protected| && protected[i] == p;
    assert !rd.TextsOverlap(r.srcCidr.value, protected[i]);
    ContainsIff(rd.cidr(r.srcCidr.value).value, x);
    ContainsIff(rd.cidr(p).value, x);
    OverlapExact(rd.cidr(r.srcCidr.value).value, rd.cidr(p).value);
  }

  // ---- what is refused -----------------------------------------------------

  /** Both texts name networks, and some address lies in both. */
  ghost predicate SharesAddress(rd: Reader, a: string, b: string) {
    && rd.cidr(a).Some? && rd.cidr(b).Some?
    && exists x: Ip :: x.Valid() && rd.cidr(a).value.Contains(x) && rd.cidr(b).value.Contains(x)
  }

  lemma SharesIffOverlap(rd: Reader, a: string, b: string)
    ensures SharesAddress(rd, a, b) <==> rd.TextsOverlap(a, b)
  {
    if rd.cidr(a).Some? && rd.cidr(b).Some? {
      var m, n := rd.cidr(a).value, rd.cidr(b).value;
      OverlapExact(m, n);
      forall x: Ip ensures (m.Contains(x) <==> Agrees(m, x)) && (n.Contains(x) <==> Agrees(n, x)) {
        ContainsIff(m, x);
        ContainsIff(n, x);
      }
    }
  }

  ghost predicate MeetsProtected(rd: Reader, t: Option<string>, protected: seq<string>) {
    t.Some? && exists i :: 0 <= i < |protected| && SharesAddress(rd, t.value, protected[i])
  }

  lemma MeetsIff(rd: Reader, t: string, protected: seq<string>)
    ensures MeetsProtected(rd, Some(t), protected) <==> FirstOverlap(rd, t, protected).Some?
    ensures FirstOverlap(rd, t, protected).Some? ==> SharesAddress(rd, t, FirstOverlap(rd, t, protected).value)
  {
    forall i | 0 <= i < |protected| ensures SharesAddress(rd, t, protected[i]) <==> rd.TextsOverlap(t, protected[i]) {
      SharesIffOverlap(rd, t, protected[i]);
    }
    var hit := FirstOverlap(rd, t, protected);
    if hit.Some? {
      SharesIffOverlap(rd, t, hit.value);
    }
  }

  /** A deny or reject rule from a network that shares an address with a protected one. */
  ghost predicate BlocksNetwork(rd: Reader, r: Rule, protected: seq<string>) {
    (r.action == Deny || r.action == Reject) && MeetsProtected(rd, r.srcCidr, protected)
  }

  /** No source, or one of the texts for "every address", with white space around it or not. */
  ghost predicate AnySource(src: Option<string>) {
    src.Some? ==>
      || PaddedText(src.value, "") || PaddedText(src.value, "0.0.0.0/0") || PaddedText(src.value, "::/0")
      || PaddedText(src.value, "0.0.0.0") || PaddedText(src.value, "::")
  }

  lemma BroadIff(src: Option<string>)
    ensures IsBroadSrc(src) <==> AnySource(src)
  {
    if src.Some? {
      TrimIff(src.value, "");
      TrimIff(src.value, "0.0.0.0/0");
      TrimIff(src.value, "::/0");
      TrimIff(src.value, "0.0.0.0");
      TrimIff(src.value, "::");
    }
  }

  /** An allow rule from everywhere to a network that shares an address with a protected one. */
  ghost predicate ExposesNetwork(rd: Reader, r: Rule, protected: seq<string>) {
    r.action == Allow && AnySource(r.srcCidr) && MeetsProtected(rd, r.dstCidr, protected)
  }

  lemma AcceptableIff(rd: Reader, r: Rule, protected: seq<string>)
    ensures Blocking(rd, r, protected).Some? <==> BlocksNetwork(rd, r, protected)
    ensures Exposing(rd, r, protected).Some? <==> ExposesNetwork(rd, r, protected)
  {
    if r.srcCidr.Some? { MeetsIff(rd, r.srcCidr.value, protected); }
    if r.dstCidr.Some? { MeetsIff(rd, r.dstCidr.value, protected); }
    BroadIff(r.srcCidr);
  }

  /** A rule list is refused iff some rule denies or rejects from a network that shares an address with a protected
      one, or allows everyone to such a network. */
  lemma RefusedIff(rd: Reader, rules: seq<Rule>, protected: seq<string>)
    ensures Violations(rd, rules, protected) != []
       <==> exists i :: 0 <= i < |rules|
                        && (BlocksNetwork(rd, rules[i], protected) || ExposesNetwork(rd, rules[i], protected))
  {
    PassesIffAcceptable(rd, rules, protected);
    forall i | 0 <= i < |rules|
      ensures Acceptable(rd, rules[i], protected)
         <==> !(BlocksNetwork(rd, rules[i], protected) || ExposesNetwork(rd, rules[i], protected))
    {
      AcceptableIff(rd, rules[i], protected);
    }
  }

  /** The violation is true of the rule: its name, its action, and a protected network it shares an address with. */
  ghost predicate TrueOf(rd: Reader, v: Violation, r: Rule, protected: seq<string>) {
    && v.rule == r.name && v.cidr in protected
    && match v
       case BlocksProtected(_, cidr, action) =>
         action == r.action && BlocksNetwork(rd, r, protected) && SharesAddress(rd, r.srcCidr.value, cidr)
       case BroadToProtected(_, cidr) =>
         ExposesNetwork(rd, r, protected) && SharesAddress(rd, r.dstCidr.value, cidr)
  }

  lemma RuleViolationsTrue(rd: Reader, r: Rule, protected: seq<string>, v: Violation)
    requires v in RuleViolations(rd, r, protected)
    ensures TrueOf(rd, v, r, protected)
  {
    AcceptableIff(rd, r, protected);
    if r.srcCidr.Some? { MeetsIff(rd, r.srcCidr.value, protected); }
    if r.dstCidr.Some? { MeetsIff(rd, r.dstCidr.value, protected); }
  }

  /** Every violation reported is true of some rule of the list. */
  lemma {:induction false} ViolationsTrue(rd: Reader, rules: seq<Rule>, protected: seq<string>, v: Violation)
    requires v in Violations(rd, rules, protected)
    ensures exists i :: 0 <= i < |rules| && TrueOf(rd, v, rules[i], protected)
  {
    var n := |rules| - 1;
    if v in Violations(rd, rules[..n], protected) {
      ViolationsTrue(rd, rules[..n], protected, v);
      var i :| 0 <= i < n && TrueOf(rd, v, rules[..n][i], protected);
      assert rules[i] == rules[..n][i];
    } else {
      RuleViolationsTrue(rd, rules[n], protected, v);
    }
  }

  // ---- the manager's side --------------------------------------------------

  /** `cidr_overlaps`. */
  predicate CidrOverlaps(rd: Reader, a: string, b: string) {
    match rd.cidr(a)
    case None => false
    case Some(na) =>
      match rd.cidr(b)
      case None => false
      case Some(nb) =>
        na.Network().SameFamily(nb.Network())
        && (na.Contains(nb.Network()) || nb.Contains(na.Network()))
  }

  lemma SameTest(rd: Reader, a: string, b: string)
    ensures CidrOverlaps(rd, a, b) == rd.TextsOverlap(a, b)
  {
  }

  /** `check_against_protected_cidrs`: the protected network named in the refusal, or `None` when allowed.
      The manager refuses exactly the rules the agent flags as blocking, naming the same network. */
  method CheckAgainstProtectedCidrs(rd: Reader, rule: Rule, protected: seq<string>)
    returns (refusedFor: Option<string>)
    ensures refusedFor == Blocking(rd, rule, protected)
    ensures refusedFor.Some? <==> BlocksNetwork(rd, rule, protected)
    ensures refusedFor.Some? ==>
              refusedFor.value in protected && SharesAddress(rd, rule.srcCidr.value, refusedFor.value)
  {
    AcceptableIff(rd, rule, protected);
    if rule.srcCidr.Some? { MeetsIff(rd, rule.srcCidr.value, protected); }
    if rule.action == Deny || rule.action == Reject {
      if rule.srcCidr.Some? {
        var src := rule.srcCidr.value;
        for i := 0 to |protected|
          invariant FirstOverlap(rd, src, protected) == FirstOverlap(rd, src, protected[i..])
        {
          SameTest(rd, src, protected[i]);
          if CidrOverlaps(rd, src, protected[i]) {
            return Some(protected[i]);
          }
        }
      }
    }
    return None;
  }
}
