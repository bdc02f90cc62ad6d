/** Typed rules, their wire form, and the drift hash both sides compute. */
module Models {
  import opened Text
  import opened Encoding

  datatype Action = Allow | Deny | Reject | Limit | Masquerade
  datatype Direction = In | Out | Forward
  datatype Protocol = Any | Tcp | Udp | Icmp | Icmpv6 | Gre | Esp | Ah | Sctp

  function ActionText(a: Action): string {
    match a
    case Allow => "allow"
    case Deny => "deny"
    case Reject => "reject"
    case Limit => "limit"
    case Masquerade => "masquerade"
  }

  function DirectionText(d: Direction): string {
    match d
    case In => "in"
    case Out => "out"
    case Forward => "forward"
  }

  function ProtocolText(p: Protocol): string {
    match p
    case Any => "any"
    case Tcp => "tcp"
    case Udp => "udp"
    case Icmp => "icmp"
    case Icmpv6 => "icmpv6"
    case Gre => "gre"
    case Esp => "esp"
    case Ah => "ah"
    case Sctp => "sctp"
  }

  /** The action a text names, if any. */
  function ReadAction(t: string): Option<Action> {
    if t == "allow" then Some(Allow)
    else if t == "deny" then Some(Deny)
    else if t == "reject" then Some(Reject)
    else if t == "limit" then Some(Limit)
    else if t == "masquerade" then Some(Masquerade)
    else None
  }

  function ReadDirection(t: string): Option<Direction> {
    if t == "in" then Some(In)
    else if t == "out" then Some(Out)
    else if t == "forward" then Some(Forward)
    else None
  }

  function ReadProtocol(t: string): Option<Protocol> {
    if t == "any" then Some(Any)
    else if t == "tcp" then Some(Tcp)
    else if t == "udp" then Some(Udp)
    else if t == "icmp" then Some(Icmp)
    else if t == "icmpv6" then Some(Icmpv6)
    else if t == "gre" then Some(Gre)
    else if t == "esp" then Some(Esp)
    else if t == "ah" then Some(Ah)
    else if t == "sctp" then Some(Sctp)
    else None
  }

  /** The names and the enum values are in one-to-one correspondence. */
  lemma NamesReadBack(a: Action, d: Direction, p: Protocol)
    ensures ReadAction(ActionText(a)) == Some(a)
    ensures ReadDirection(DirectionText(d)) == Some(d)
    ensures ReadProtocol(ProtocolText(p)) == Some(p)
  {
  }

  lemma NamesAreTexts(t: string)
    ensures ReadAction(t).Some? ==> ActionText(ReadAction(t).value) == t
    ensures ReadDirection(t).Some? ==> DirectionText(ReadDirection(t).value) == t
    ensures ReadProtocol(t).Some? ==> ProtocolText(ReadProtocol(t).value) == t
  {
  }

  /** The sixteen bytes of a UUID. */
  type Uuid = Bytes

  /** A rule as the agent holds it; the audit columns (creator, timestamps, description) are dropped. */
  datatype Rule = Rule(
    id: Uuid, name: string, action: Action, direction: Direction, protocol: Protocol,
    srcCidr: Option<string>, srcPortStart: Option<int>, srcPortEnd: Option<int>,
    dstCidr: Option<string>, dstPortStart: Option<int>, dstPortEnd: Option<int>,
    interfaceIn: Option<string>, interfaceOut: Option<string>,
    comment: string, log: bool, priority: int)

  /** A rule as the manager reads it from its table and sends it: the enums are text. */
  datatype RuleDto = RuleDto(
    id: Uuid, name: string, action: string, direction: string, protocol: string,
    srcCidr: Option<string>, srcPortStart: Option<int>, srcPortEnd: Option<int>,
    dstCidr: Option<string>, dstPortStart: Option<int>, dstPortEnd: Option<int>,
    interfaceIn: Option<string>, interfaceOut: Option<string>,
    priority: int, log: bool)

  /** `dto_to_rule`: unknown names fall back to allow, in and any; the rule's name becomes its comment. */
  function DtoToRule(d: RuleDto): Rule {
    Rule(d.id, d.name, OrElse(ReadAction(d.action), Allow), OrElse(ReadDirection(d.direction), In),
         OrElse(ReadProtocol(d.protocol), Any),
         d.srcCidr, d.srcPortStart, d.srcPortEnd, d.dstCidr, d.dstPortStart, d.dstPortEnd,
         d.interfaceIn, d.interfaceOut, d.name, d.log, d.priority)
  }

  /** Names the agent does not know become allow, in and any. */
  lemma UnknownNames(d: RuleDto)
    ensures d.action !in ["allow", "deny", "reject", "limit", "masquerade"] ==> DtoToRule(d).action == Allow
    ensures d.direction !in ["in", "out", "forward"] ==> DtoToRule(d).direction == In
    ensures d.protocol !in ["any", "tcp", "udp", "icmp", "icmpv6", "gre", "esp", "ah", "sctp"] ==>
              DtoToRule(d).protocol == Any
  {
  }

  function DtosToRules(ds: seq<RuleDto>): (rs: seq<Rule>)
    ensures |rs| == |ds|
    ensures forall i :: 0 <= i < |ds| ==> rs[i] == DtoToRule(ds[i])
  {
    seq(|ds|, i requires 0 <= i < |ds| => DtoToRule(ds[i]))
  }

  // ---- the drift hash ------------------------------------------------------

  datatype RuleHashParts = RuleHashParts(
    id: Uuid, action: string, direction: string, protocol: string,
    srcCidr: Option<string>, dstCidr: Option<string>, dstPortStart: Option<int>)

  /** What the manager feeds for a table row. */
  function DtoParts(d: RuleDto): RuleHashParts {
    RuleHashParts(d.id, d.action, d.direction, d.protocol, d.srcCidr, d.dstCidr, d.dstPortStart)
  }

  /** What the agent feeds for a rule it applied. */
  function RuleParts(r: Rule): RuleHashParts {
    RuleHashParts(r.id, ActionText(r.action), DirectionText(r.direction), ProtocolText(r.protocol),
                  r.srcCidr, r.dstCidr, r.dstPortStart)
  }

  function DtosParts(ds: seq<RuleDto>): (ps: seq<RuleHashParts>)
    ensures |ps| == |ds| && forall i :: 0 <= i < |ds| ==> ps[i] == DtoParts(ds[i])
  {
    seq(|ds|, i requires 0 <= i < |ds| => DtoParts(ds[i]))
  }

  function RulesParts(rs: seq<Rule>): (ps: seq<RuleHashParts>)
    ensures |ps| == |rs| && forall i :: 0 <= i < |rs| ==> ps[i] == RuleParts(rs[i])
  {
    seq(|rs|, i requires 0 <= i < |rs| => RuleParts(rs[i]))
  }

  /** The three enum columns hold names the agent knows, as the database enum types enforce. */
  predicate KnownNames(d: RuleDto) {
    ReadAction(d.action).Some? && ReadDirection(d.direction).Some? && ReadProtocol(d.protocol).Some?
  }

  /** The agent re-derives exactly the parts the manager hashed iff every name is one it knows. */
  lemma PartsAgree(ds: seq<RuleDto>)
    ensures RulesParts(DtosToRules(ds)) == DtosParts(ds) <==> forall i :: 0 <= i < |ds| ==> KnownNames(ds[i])
  {
    var a, b := RulesParts(DtosToRules(ds)), DtosParts(ds);
    forall i | 0 <= i < |ds| ensures a[i] == b[i] <==> KnownNames(ds[i]) {
      NamesAreTexts(ds[i].action);
      NamesAreTexts(ds[i].direction);
      NamesAreTexts(ds[i].protocol);
      var r := DtoToRule(ds[i]);
      NamesReadBack(r.action, r.direction, r.protocol);
      assert a[i] == RuleParts(r) && b[i] == DtoParts(ds[i]);
    }
    assert a == b <==> forall i :: 0 <= i < |ds| ==> a[i] == b[i];
  }

  /** `i32::to_le_bytes`, two's complement. */
  function LeBytes(p: int): (b: Bytes)
    ensures |b| == 4
  {
    var u := p % 0x1_0000_0000;
    [(u % 0x100) as byte, (u / 0x100 % 0x100) as byte, (u / 0x1_0000 % 0x100) as byte,
     (u / 0x100_0000) as byte]
  }

  function OptPortBytes(o: Option<int>): Bytes {
    match o case Some(p) => LeBytes(p) case None => []
  }

  /** The bytes one rule contributes: seven fields, no separators. */
  function PartsFeed(p: RuleHashParts): Bytes {
    p.id + Utf8(p.action) + Utf8(p.direction) + Utf8(p.protocol)
    + OptBytes(p.srcCidr) + OptBytes(p.dstCidr) + OptPortBytes(p.dstPortStart)
  }

  function RulesFeed(ps: seq<RuleHashParts>): Bytes {
    if ps == [] then [] else RulesFeed(ps[..|ps| - 1]) + PartsFeed(ps[|ps| - 1])
  }

  function RulesHash(digest: Digest, ps: seq<RuleHashParts>): string {
    digest(RulesFeed(ps))
  }

  /** Feeding the fields one after another is feeding the rule. */
  lemma FeedAssociates(fed: Bytes, p: RuleHashParts)
    ensures fed + p.id + Utf8(p.action) + Utf8(p.direction) + Utf8(p.protocol)
            + OptBytes(p.srcCidr) + OptBytes(p.dstCidr) + OptPortBytes(p.dstPortStart)
         == fed + PartsFeed(p)
  {
    var f1 := p.id + Utf8(p.action);
    var f2 := f1 + Utf8(p.direction);
    var f3 := f2 + Utf8(p.protocol);
    var f4 := f3 + OptBytes(p.srcCidr);
    var f5 := f4 + OptBytes(p.dstCidr);
    Regroup(fed, p.id, Utf8(p.action));
    Regroup(fed, f1, Utf8(p.direction));
    Regroup(fed, f2, Utf8(p.protocol));
    Regroup(fed, f3, OptBytes(p.srcCidr));
    Regroup(fed, f4, OptBytes(p.dstCidr));
    Regroup(fed, f5, OptPortBytes(p.dstPortStart));
  }

  /** `compute_rules_hash`: an incremental hasher over the fields of each rule in turn. */
  method ComputeRulesHash(digest: Digest, rules: seq<RuleHashParts>) returns (hash: string)
    ensures hash == RulesHash(digest, rules)
  {
    var hasher: Bytes := [];
    for i := 0 to |rules|
      invariant hasher == RulesFeed(rules[..i])
    {
      var r := rules[i];
      hasher := hasher + r.id;
      hasher := hasher + Utf8(r.action);
      hasher := hasher + Utf8(r.direction);
      hasher := hasher + Utf8(r.protocol);
      hasher := hasher + OptBytes(r.srcCidr);
      hasher := hasher + OptBytes(r.dstCidr);
      hasher := hasher + OptPortBytes(r.dstPortStart);
      assert rules[..i + 1][..i] == rules[..i];
      FeedAssociates(RulesFeed(rules[..i]), r);
    }
    assert rules[..|rules|] == rules;
    hash := digest(hasher);
  }

  /** Manager and agent compute one hash for one policy, whichever hash function is used. */
  lemma SameRulesSameHash(digest: Digest, ds: seq<RuleDto>)
    requires forall i :: 0 <= i < |ds| ==> KnownNames(ds[i])
    ensures RulesHash(digest, RulesParts(DtosToRules(ds))) == RulesHash(digest, DtosParts(ds))
  {
    PartsAgree(ds);
  }

  /** The two hashes are equal iff the same bytes are fed, short of a collision of the two feeds. */
  lemma EqualHashIff(digest: Digest, applied: seq<RuleDto>, current: seq<RuleDto>)
    requires forall i :: 0 <= i < |applied| ==> KnownNames(applied[i])
    requires NoCollision(digest, {RulesFeed(DtosParts(applied)), RulesFeed(DtosParts(current))})
    ensures RulesHash(digest, RulesParts(DtosToRules(applied))) == RulesHash(digest, DtosParts(current))
       <==> RulesFeed(DtosParts(applied)) == RulesFeed(DtosParts(current))
  {
    SameRulesSameHash(digest, applied);
  }

  // ---- what the hash does not see ------------------------------------------

  /** The two rules agree on the fields the hash covers. They may differ in name, source ports, last destination
      port, interfaces, log flag and priority. */
  predicate SameCovered(d: RuleDto, e: RuleDto) {
    && d.id == e.id && d.action == e.action && d.direction == e.direction && d.protocol == e.protocol
    && d.srcCidr == e.srcCidr && d.dstCidr == e.dstCidr && d.dstPortStart == e.dstPortStart
  }

  /** Equal hashes do not mean equal policies: the hash sees no edit to any of the other fields, in any rules. */
  lemma HashMissesUncoveredFields(digest: Digest, ds: seq<RuleDto>, es: seq<RuleDto>)
    requires |ds| == |es| && forall i :: 0 <= i < |ds| ==> SameCovered(ds[i], es[i])
    ensures RulesFeed(DtosParts(ds)) == RulesFeed(DtosParts(es))
    ensures RulesHash(digest, DtosParts(ds)) == RulesHash(digest, DtosParts(es))
  {
    assert DtosParts(ds) == DtosParts(es);
  }

  lemma {:induction false} FeedPointwise(ps: seq<RuleHashParts>, qs: seq<RuleHashParts>)
    requires |ps| == |qs| && forall i :: 0 <= i < |ps| ==> PartsFeed(ps[i]) == PartsFeed(qs[i])
    ensures RulesFeed(ps) == RulesFeed(qs)
  {
    if ps != [] {
      var n := |ps| - 1;
      FeedPointwise(ps[..n], qs[..n]);
      assert PartsFeed(ps[n]) == PartsFeed(qs[n]);
    }
  }

  lemma MovedFeed(p: RuleHashParts, t: string)
    requires p.srcCidr == Some(t) && p.dstCidr == None
    ensures PartsFeed(p.(srcCidr := None, dstCidr := Some(t))) == PartsFeed(p)
  {
    var x := p.id + Utf8(p.action) + Utf8(p.direction) + Utf8(p.protocol);
    assert x + [] == x;
    assert x + Utf8(t) + [] == x + Utf8(t);
  }

  /** There are no separators: moving a network from the source to the destination of a rule is not seen either. */
  lemma HashMissesMovedNetwork(digest: Digest, ds: seq<RuleDto>, i: nat, t: string)
    requires i < |ds| && ds[i].srcCidr == Some(t) && ds[i].dstCidr == None
    ensures
      var es := ds[i := ds[i].(srcCidr := None, dstCidr := Some(t))];
      && RulesFeed(DtosParts(es)) == RulesFeed(DtosParts(ds))
      && RulesHash(digest, DtosParts(es)) == RulesHash(digest, DtosParts(ds))
  {
    var es := ds[i := ds[i].(srcCidr := None, dstCidr := Some(t))];
    MovedFeed(DtoParts(ds[i]), t);
    FeedPointwise(DtosParts(es), DtosParts(ds));
  }

  // ---- what the hash sees --------------------------------------------------

  predicate IsI32(p: int) { -0x8000_0000 <= p < 0x8000_0000 }

  /** The value of four bytes, the lowest first. */
  function LeValue(b: Bytes): int
    requires |b| == 4
  {
    b[0] as int + 0x100 * b[1] as int + 0x1_0000 * b[2] as int + 0x100_0000 * b[3] as int
  }

  lemma LeReadsBack(p: int)
    requires IsI32(p)
    ensures LeValue(LeBytes(p)) == if p < 0 then p + 0x1_0000_0000 else p
  {
    var u := p % 0x1_0000_0000;
    assert u == if p < 0 then p + 0x1_0000_0000 else p;
    var v, w := u / 0x100, u / 0x1_0000;
    assert u == 0x100 * v + u % 0x100;
    assert v / 0x100 == w && v == 0x100 * w + v % 0x100;
    assert w / 0x100 == u / 0x100_0000 && w == 0x100 * (u / 0x100_0000) + w % 0x100;
  }

  /** Different ports have different bytes, and an absent one has none. */
  lemma PortBytesDiffer(p: Option<int>, q: Option<int>)
    requires (p.Some? ==> IsI32(p.value)) && (q.Some? ==> IsI32(q.value))
    ensures OptPortBytes(p) == OptPortBytes(q) <==> p == q
  {
    if p.Some? { LeReadsBack(p.value); }
    if q.Some? { LeReadsBack(q.value); }
  }

  lemma OptBytesDiffer(s: Option<string>, t: Option<string>)
    ensures OptBytes(s) == OptBytes(t) <==> OrElse(s, "") == OrElse(t, "")
  {
    assert Utf8("") == [];
    Utf8Injective(OrElse(s, ""), OrElse(t, ""));
  }

  datatype Field = IdField | ActionField | DirectionField | ProtocolField | SourceField | DestinationField | PortField

  /** The rules agree on every covered field but this one. */
  predicate SameBut(d: RuleDto, e: RuleDto, c: Field) {
    && (c != IdField ==> d.id == e.id)
    && (c != ActionField ==> d.action == e.action)
    && (c != DirectionField ==> d.direction == e.direction)
    && (c != ProtocolField ==> d.protocol == e.protocol)
    && (c != SourceField ==> d.srcCidr == e.srcCidr)
    && (c != DestinationField ==> d.dstCidr == e.dstCidr)
    && (c != PortField ==> d.dstPortStart == e.dstPortStart)
  }

  /** They agree on this one as well; an absent network counts as an empty text. */
  predicate SameField(d: RuleDto, e: RuleDto, c: Field) {
    match c
    case IdField => d.id == e.id
    case ActionField => d.action == e.action
    case DirectionField => d.direction == e.direction
    case ProtocolField => d.protocol == e.protocol
    case SourceField => OrElse(d.srcCidr, "") == OrElse(e.srcCidr, "")
    case DestinationField => OrElse(d.dstCidr, "") == OrElse(e.dstCidr, "")
    case PortField => d.dstPortStart == e.dstPortStart
  }

  predicate PortFits(d: RuleDto) { d.dstPortStart.Some? ==> IsI32(d.dstPortStart.value) }

  /** What is fed of one field. */
  function FieldBytes(d: RuleDto, c: Field): Bytes {
    match c
    case IdField => d.id
    case ActionField => Utf8(d.action)
    case DirectionField => Utf8(d.direction)
    case ProtocolField => Utf8(d.protocol)
    case SourceField => OptBytes(d.srcCidr)
    case DestinationField => OptBytes(d.dstCidr)
    case PortField => OptPortBytes(d.dstPortStart)
  }

  lemma FieldBytesDecide(d: RuleDto, e: RuleDto, c: Field)
    requires PortFits(d) && PortFits(e)
    ensures FieldBytes(d, c) == FieldBytes(e, c) <==> SameField(d, e, c)
  {
    match c
    case IdField =>
    case ActionField => Utf8Injective(d.action, e.action);
    case DirectionField => Utf8Injective(d.direction, e.direction);
    case ProtocolField => Utf8Injective(d.protocol, e.protocol);
    case SourceField => OptBytesDiffer(d.srcCidr, e.srcCidr);
    case DestinationField => OptBytesDiffer(d.dstCidr, e.dstCidr);
    case PortField => PortBytesDiffer(d.dstPortStart, e.dstPortStart);
  }

  /** The fields in the order they are fed. */
  function FieldAt(k: nat): Field {
    if k == 0 then IdField
    else if k == 1 then ActionField
    else if k == 2 then DirectionField
    else if k == 3 then ProtocolField
    else if k == 4 then SourceField
    else if k == 5 then DestinationField
    else PortField
  }

  function FieldIndex(c: Field): (k: nat)
    ensures k < 7 && FieldAt(k) == c
  {
    match c
    case IdField => 0
    case ActionField => 1
    case DirectionField => 2
    case ProtocolField => 3
    case SourceField => 4
    case DestinationField => 5
    case PortField => 6
  }

  /** The fields from number `k` on, one after another. */
  function FieldsFrom(d: RuleDto, k: nat): Bytes
    requires k <= 7
    decreases 7 - k
  {
    if k == 7 then [] else FieldBytes(d, FieldAt(k)) + FieldsFrom(d, k + 1)
  }

  lemma FeedIsFields(d: RuleDto)
    ensures PartsFeed(DtoParts(d)) == FieldsFrom(d, 0)
  {
    var p := DtoParts(d);
    assert FieldsFrom(d, 7) == [];
    assert FieldsFrom(d, 6) == OptPortBytes(p.dstPortStart) + [] == OptPortBytes(p.dstPortStart);
    var a, b, c := Utf8(p.action), Utf8(p.direction), Utf8(p.protocol);
    var s, t, o := OptBytes(p.srcCidr), OptBytes(p.dstCidr), OptPortBytes(p.dstPortStart);
    assert FieldsFrom(d, 5) == t + o;
    assert FieldsFrom(d, 4) == s + (t + o);
    assert FieldsFrom(d, 3) == c + (s + (t + o));
    assert FieldsFrom(d, 2) == b + (c + (s + (t + o)));
    assert FieldsFrom(d, 1) == a + (b + (c + (s + (t + o))));
    FeedRight(p.id, a, b, c, s, t, o);
  }

  lemma FeedRight(i: Bytes, a: Bytes, b: Bytes, c: Bytes, s: Bytes, t: Bytes, o: Bytes)
    ensures i + a + b + c + s + t + o == i + (a + (b + (c + (s + (t + o)))))
  {
    Regroup(i + a + b + c + s, t, o);
    Regroup(i + a + b + c, s, t + o);
    Regroup(i + a + b, c, s + (t + o));
    Regroup(i + a, b, c + (s + (t + o)));
    Regroup(i, a, b + (c + (s + (t + o))));
  }

  lemma OtherField(d: RuleDto, e: RuleDto, c: Field, k: nat)
    requires SameBut(d, e, c) && k < 7 && k != FieldIndex(c)
    ensures FieldBytes(d, FieldAt(k)) == FieldBytes(e, FieldAt(k))
  {
  }

  lemma {:induction false} LaterFields(d: RuleDto, e: RuleDto, c: Field, k: nat)
    requires SameBut(d, e, c) && FieldIndex(c) < k <= 7
    ensures FieldsFrom(d, k) == FieldsFrom(e, k)
    decreases 7 - k
  {
    if k < 7 {
      OtherField(d, e, c, k);
      LaterFields(d, e, c, k + 1);
    }
  }

  lemma {:induction false} FieldsDecide(d: RuleDto, e: RuleDto, c: Field, k: nat)
    requires SameBut(d, e, c) && k <= FieldIndex(c)
    ensures FieldsFrom(d, k) == FieldsFrom(e, k) <==> FieldBytes(d, c) == FieldBytes(e, c)
    decreases FieldIndex(c) - k
  {
    if k < FieldIndex(c) {
      OtherField(d, e, c, k);
      FieldsDecide(d, e, c, k + 1);
      SuffixEqual(FieldBytes(d, FieldAt(k)), FieldsFrom(d, k + 1), FieldsFrom(e, k + 1));
    } else {
      LaterFields(d, e, c, k + 1);
      PrefixEqual(FieldBytes(d, c), FieldBytes(e, c), FieldsFrom(d, k + 1));
    }
  }

  /** Every covered field counts: rules that agree on the other six feed the same bytes iff they agree on it. */
  lemma FieldDecides(d: RuleDto, e: RuleDto, c: Field)
    requires SameBut(d, e, c) && PortFits(d) && PortFits(e)
    ensures PartsFeed(DtoParts(d)) == PartsFeed(DtoParts(e)) <==> SameField(d, e, c)
  {
    FeedIsFields(d);
    FeedIsFields(e);
    FieldsDecide(d, e, c, 0);
    FieldBytesDecide(d, e, c);
  }

  lemma FeedNext(ps: seq<RuleHashParts>, p: RuleHashParts)
    ensures RulesFeed(ps + [p]) == RulesFeed(ps) + PartsFeed(p)
  {
    assert (ps + [p])[..|ps|] == ps;
  }

  lemma {:induction false} FeedAppend(ps: seq<RuleHashParts>, qs: seq<RuleHashParts>)
    ensures RulesFeed(ps + qs) == RulesFeed(ps) + RulesFeed(qs)
    decreases |qs|
  {
    if qs == [] {
      assert ps + qs == ps;
    } else {
      var init, q := qs[..|qs| - 1], qs[|qs| - 1];
      FeedAppend(ps, init);
      FeedNext(ps + init, q);
      FeedNext(init, q);
      Regroup(ps, init, [q]);
      assert qs == init + [q];
      Regroup(RulesFeed(ps), RulesFeed(init), PartsFeed(q));
    }
  }

  /** The feed of a list around one of its rules. */
  lemma FeedAround(ds: seq<RuleDto>, i: nat, e: RuleDto)
    requires i < |ds|
    ensures RulesFeed(DtosParts(ds[i := e]))
         == RulesFeed(DtosParts(ds[..i])) + PartsFeed(DtoParts(e)) + RulesFeed(DtosParts(ds[i + 1..]))
  {
    var front, back := DtosParts(ds[..i]), DtosParts(ds[i + 1..]);
    assert DtosParts(ds[i := e]) == front + [DtoParts(e)] + back;
    FeedAppend(front + [DtoParts(e)], back);
    FeedAppend(front, [DtoParts(e)]);
    assert [DtoParts(e)][..0] == [];
    assert RulesFeed([DtoParts(e)]) == PartsFeed(DtoParts(e));
  }

  /** An edit of one covered field of one rule changes what is hashed iff it changes that field. */
  lemma FieldEditDecides(ds: seq<RuleDto>, i: nat, e: RuleDto, c: Field)
    requires i < |ds| && SameBut(ds[i], e, c) && PortFits(ds[i]) && PortFits(e)
    ensures RulesFeed(DtosParts(ds[i := e])) == RulesFeed(DtosParts(ds)) <==> SameField(ds[i], e, c)
  {
    assert ds[i := ds[i]] == ds;
    FeedAround(ds, i, e);
    FeedAround(ds, i, ds[i]);
    var front, back := RulesFeed(DtosParts(ds[..i])), RulesFeed(DtosParts(ds[i + 1..]));
    var x, y := PartsFeed(DtoParts(e)), PartsFeed(DtoParts(ds[i]));
    PrefixEqual(front + x, front + y, back);
    SuffixEqual(front, x, y);
    FieldDecides(ds[i], e, c);
  }

  /** So does a rule more or less, anywhere: a rule has an id. */
  lemma InsertionSeen(front: seq<RuleDto>, e: RuleDto, back: seq<RuleDto>)
    requires e.id != []
    ensures RulesFeed(DtosParts(front + [e] + back)) != RulesFeed(DtosParts(front + back))
  {
    var x, y := DtosParts(front), DtosParts(back);
    assert DtosParts(front + [e] + back) == x + [DtoParts(e)] + y && DtosParts(front + back) == x + y;
    FeedAppend(x + [DtoParts(e)], y);
    FeedNext(x, DtoParts(e));
    FeedAppend(x, y);
    assert |PartsFeed(DtoParts(e))| >= |e.id|;
  }
}
