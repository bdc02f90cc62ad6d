/** Interface names are free text. What that does to the protected-network check: a rule that passes it and blocks. */
module FreeInterface {
  import opened Text
  import opened Cidr
  import opened Models
  import opened Protected
  import opened Shlex
  import opened Ufw
  import opened UfwCompile
  import opened UfwRoundTrip
  import opened UfwApply
  import opened UfwMeaning
  import opened Agent
  import opened AgentSafety

  /** A text in the interface column that goes on with a source clause and hides the rest of the line. */
  function InterfaceText(c: string): string { "eth0 from " + c + " #" }

  /** A deny-out rule without a source of its own. */
  function SampleDto(id: Uuid, name: string, c: string): RuleDto {
    RuleDto(id, name, "deny", "out", "any", None, None, None, None, None, None, None, Some(InterfaceText(c)), 0, false)
  }

  /** What is written before and after the hiding `#`. */
  function Front(c: string): seq<Piece> {
    [Plain("ufw"), Plain("deny"), Plain("out"), Plain("on"), Plain("eth0"), Plain("from"), Plain(c)]
  }

  function Rest(name: string): seq<Piece> {
    Unaddressed(if name != "" then [Plain("comment"), Quoted(DropQuotes(name))] else [])
  }

  function Hidden(name: string): seq<Piece> { [Plain("#")] + Rest(name) }

  /** The rule UFW reads. */
  function Misread(c: string): UfwRule {
    UfwRule(Deny, true, false, Some("eth0"), Any, Some(c), None, None, None, None)
  }

  lemma BackWords(r: Rule)
    requires r.srcCidr == None && r.dstCidr == None && SrcRange(r) == None && DstRange(r) == None
    ensures ClausesFrom(r, 4) == Unaddressed(CommentWords(r))
  {
    assert ClausesFrom(r, 9) == [];
    assert ClausesFrom(r, 8) == CommentWords(r);
    assert ClausesFrom(r, 7) == CommentWords(r);
    assert ClausesFrom(r, 6) == AddressWords("to", None) + CommentWords(r);
    assert ClausesFrom(r, 5) == AddressWords("to", None) + CommentWords(r);
  }

  function Unaddressed(comment: seq<Piece>): seq<Piece> {
    AddressWords("from", None) + (AddressWords("to", None) + comment)
  }

  lemma FrontWords(r: Rule, i: string)
    requires r.direction == Out && !r.log && r.interfaceOut == Some(i) && r.protocol == Any
    ensures ClausesFrom(r, 0) == [Plain("out")] + ([Plain("on"), Plain(i)] + ClausesFrom(r, 4))
  {
    assert ClausesFrom(r, 3) == ClausesFrom(r, 4);
    assert ClausesFrom(r, 2) == [Plain("on"), Plain(i)] + ClausesFrom(r, 4);
    assert ClausesFrom(r, 1) == ClausesFrom(r, 2);
  }

  lemma SampleWords(id: Uuid, name: string, c: string)
    ensures
      RuleWords(DtoToRule(SampleDto(id, name, c)))
      == [Plain("ufw")] + ([Plain("deny")] + ([Plain("out")] + ([Plain("on"), Plain(InterfaceText(c))] + Rest(name))))
  {
    var r := DtoToRule(SampleDto(id, name, c));
    FrontWords(r, InterfaceText(c));
    BackWords(r);
  }

  lemma TrailingFour(a: Piece, b: Piece, c: Piece, d: Piece)
    ensures Trailing([a, b, c, d]) == " " + a.Render() + " " + b.Render() + " " + c.Render() + " " + d.Render()
  {
    TrailingAppend([a, b], [c, d]);
    assert [a, b, c, d] == [a, b] + [c, d];
    TrailingTwo(a, b);
    TrailingTwo(c, d);
    Regroup4(" " + a.Render() + " " + b.Render(), " " + c.Render(), " ", d.Render());
    Regroup(" " + a.Render() + " " + b.Render(), " ", c.Render());
  }

  lemma TrailingTwo(a: Piece, b: Piece)
    ensures Trailing([a, b]) == " " + a.Render() + " " + b.Render()
  {
    assert [a, b][1..] == [b] && [b][1..] == [];
    assert Trailing([b]) == " " + b.Render();
    Regroup(" " + a.Render(), " ", b.Render());
  }

  lemma SampleText(c: string)
    ensures Trailing([Plain("on"), Plain(InterfaceText(c))])
         == Trailing([Plain("on"), Plain("eth0"), Plain("from"), Plain(c)]) + " #"
  {
    TrailingTwo(Plain("on"), Plain(InterfaceText(c)));
    TrailingFour(Plain("on"), Plain("eth0"), Plain("from"), Plain(c));
    Spread(" on", c);
  }

  lemma Spread(a: string, c: string)
    ensures a + " " + ("eth0 from " + c + " #") == a + " " + "eth0" + " " + "from" + " " + c + " #"
  {
    assert "eth0 from " == "eth0" + " " + "from" + " ";
  }

  lemma SampleTrailing(id: Uuid, name: string, c: string)
    ensures
      RuleLine(DtoToRule(SampleDto(id, name, c)))
      == "ufw" + (Trailing([Plain("deny"), Plain("out")])
                  + (Trailing([Plain("on"), Plain(InterfaceText(c))]) + Trailing(Rest(name))))
  {
    var head, on := [Plain("deny"), Plain("out")], [Plain("on"), Plain(InterfaceText(c))];
    SampleWords(id, name, c);
    assert [Plain("deny")] + ([Plain("out")] + (on + Rest(name))) == head + (on + Rest(name));
    RenderTrailing(Plain("ufw"), head + (on + Rest(name)));
    TrailingAppend(head, on + Rest(name));
    TrailingAppend(on, Rest(name));
  }

  lemma FrontTrailing(c: string)
    ensures Render(Front(c))
         == "ufw" + (Trailing([Plain("deny"), Plain("out")])
                     + Trailing([Plain("on"), Plain("eth0"), Plain("from"), Plain(c)]))
  {
    var head, on := [Plain("deny"), Plain("out")], [Plain("on"), Plain("eth0"), Plain("from"), Plain(c)];
    assert Front(c) == [Plain("ufw")] + (head + on);
    RenderTrailing(Plain("ufw"), head + on);
    TrailingAppend(head, on);
  }

  /** The text of the rule's command line. */
  lemma SampleLine(id: Uuid, name: string, c: string)
    ensures RuleLine(DtoToRule(SampleDto(id, name, c))) == Render(Front(c)) + " " + Render(Hidden(name))
  {
    SampleTrailing(id, name, c);
    SampleText(c);
    FrontTrailing(c);
    RenderTrailing(Plain("#"), Rest(name));
    Join("ufw", Trailing([Plain("deny"), Plain("out")]),
         Trailing([Plain("on"), Plain("eth0"), Plain("from"), Plain(c)]), Trailing(Rest(name)));
  }

  lemma Join(a: string, b: string, c: string, d: string)
    ensures a + (b + (c + " #" + d)) == a + (b + c) + " " + ("#" + d)
  {
  }

  predicate NoBreak(s: string) { forall i :: 0 <= i < |s| ==> s[i] != '\n' }

  lemma {:induction false} RenderNoBreak(ps: seq<Piece>)
    requires forall i :: 0 <= i < |ps| ==> NoBreak(ps[i].value)
    ensures NoBreak(Render(ps))
  {
    if ps != [] {
      assert NoBreak(ps[0].Render());
      RenderNoBreak(ps[1..]);
    }
  }

  lemma {:induction false} DropQuotesNoBreak(s: string)
    requires NoBreak(s)
    ensures NoBreak(DropQuotes(s))
  {
    if s != "" {
      assert NoBreak(s[1..]);
      DropQuotesNoBreak(s[1..]);
    }
  }

  /** The rest of the line is a comment to the shell. */
  lemma HiddenIsHidden(name: string)
    requires NoBreak(name)
    ensures Split(Render(Hidden(name))) == Some([])
  {
    var h := Hidden(name);
    DropQuotesNoBreak(name);
    forall i | 0 <= i < |h| ensures NoBreak(h[i].value) {}
    RenderNoBreak(h);
    assert Render(h)[0] == '#' by {
      assert h == [h[0]] + h[1..];
      RenderSplits(h[0], h[1..]);
    }
  }

  lemma FrontReads(c: string)
    requires c != "any"
    ensures ReadCommand(Values(Front(c))) == Some(AddRule(Misread(c)))
  {
    var r0 := Blank(Deny);
    var r1 := r0.(outgoing := true);
    var r2 := r1.(iface := Some("eth0"));
    var tail: seq<string> := ["from", c];
    var args := Values(Front(c));
    assert args == ["ufw", "deny", "out"] + (["on", "eth0"] + tail);
    assert args[2..] == ["out"] + (["on", "eth0"] + tail);
    ReadFlag("out", ["on", "eth0"] + tail, r0, NoSide);
    ReadPair("on", "eth0", tail, r1, NoSide);
    assert tail == tail + [];
    ReadPair("from", c, [], r2, NoSide);
  }

  /** A rule that names no source is read as one that blocks the network its interface text names. */
  lemma InterfaceMisread(rd: Reader, id: Uuid, name: string, c: string)
    requires IsPlain(c) && c != "any" && rd.cidr(c).Some? && NoBreak(name)
    ensures
      var r := DtoToRule(SampleDto(id, name, c));
      r.srcCidr == None && ReadBack(rd, r) == Some(Misread(c)) && !PlainRule(r)
  {
    SampleSplits(id, name, c);
    FrontReads(c);
    SampleNotPlain(id, name, c);
  }

  lemma SampleSplits(id: Uuid, name: string, c: string)
    requires IsPlain(c) && NoBreak(name)
    ensures Split(RuleLine(DtoToRule(SampleDto(id, name, c)))) == Some(Values(Front(c)))
  {
    SampleLine(id, name, c);
    KeywordsPlain();
    ActionPlain(Deny);
    assert IsPlain("eth0");
    assert AllValid(Front(c));
    SplitFront(Front(c), Render(Hidden(name)));
    HiddenIsHidden(name);
    assert Values(Front(c)) + [] == Values(Front(c));
  }

  lemma SampleNotPlain(id: Uuid, name: string, c: string)
    ensures !PlainRule(DtoToRule(SampleDto(id, name, c)))
  {
    assert InterfaceText(c)[4] == ' ';
  }

  /** The policy's verdict is missed too: a packet the rule does not cover is denied, whatever the default. */
  lemma MisreadVerdict(rd: Reader, ctx: ApplyContext, fw: Firewall, id: Uuid, name: string, c: string, x: Ip, y: Ip)
    requires rd.Valid() && Gate(rd, ctx) && ctx.defaultOut.None? && PlainDefaults(ctx)
    requires IsPlain(c) && c != "any" && rd.cidr(c).Some? && rd.cidr(c).value.Contains(x) && NoBreak(name)
    ensures
      var rules := [DtoToRule(SampleDto(id, name, c))];
      var p := Packet(true, "eth0", Udp, x, None, y, None);
      && Verdict(rd, CompleteState(rd, rules, ctx, fw), p) == Deny
      && PolicyVerdict(rd, rules, ctx, fw, p) == fw.defaultOut
  {
    var r := DtoToRule(SampleDto(id, name, c));
    var rules, p := [r], Packet(true, "eth0", Udp, x, None, y, None);
    InterfaceMisread(rd, id, name, c);
    assert ReadBacks(rd, rules) == [Misread(c)] by {
      ReadBacksNext(rd, rules);
      assert rules[..0] == [];
    }
    CompleteVerdict(rd, rules, ctx, fw, p);
    assert Matches(rd, Misread(c), p);
    assert FirstMatch(rd, [Misread(c)], p) == Some(Deny);
    assert InterfaceText(c)[4] == ' ' && InterfaceText(c) != "eth0";
    assert !Covers(rd, r, p) && rules[1..] == [];
    assert Decides(rd, rules, p) == None;
    assert PolicyVerdict(rd, rules, ctx, fw, p) == fw.defaultOut;
    assert Verdict(rd, CompleteState(rd, rules, ctx, fw), p) == Deny;
  }

  /** The agent's check does not see it. */
  lemma CheckMisses(su: Setup, id: Uuid, name: string, c: string)
    requires IsPlain(c) && c != "any" && su.sys.rd.cidr(c).Some? && NoBreak(name) && c in su.protected
    ensures
      var rules := DtosToRules([SampleDto(id, name, c)]);
      Violations(su.sys.rd, rules, su.protected) == [] && !CheckHolds(su, rules)
  {
    var dto := SampleDto(id, name, c);
    var rules := DtosToRules([dto]);
    assert rules == [DtoToRule(dto)];
    PassesIffAcceptable(su.sys.rd, rules, su.protected);
    InterfaceMisread(su.sys.rd, id, name, c);
    ContainsOwnNetwork(su.sys.rd.cidr(c).value);
    var i :| 0 <= i < |su.protected| && su.protected[i] == c;
    assert su.sys.rd.TextsOverlap(c, su.protected[i]);
    assert !ReadsOpen(su, rules[0]);
  }

  function SampleReply(dto: RuleDto): Response { Response(true, [dto], None, [], Defaults(None, None)) }

  lemma SampleCompletes(su: Setup, fw: Firewall, dto: RuleDto, o: Outcome)
    requires su.sys.rd.Valid() && Gate(su.sys.rd, Context(su, Defaults(None, None)))
    requires ReadBack(su.sys.rd, DtoToRule(dto)).Some?
    requires o.resetOk && o.enableOk && o.cmdOk(0) && o.cmdOk(1)
    ensures ApplyLines(su.sys, fw, CompileLines(DtosToRules([dto]), Context(su, Defaults(None, None))), o).failed == 0
  {
    var rules, ctx := DtosToRules([dto]), Context(su, Defaults(None, None));
    assert rules == [DtoToRule(dto)];
    assert CompileLines(rules, ctx) == [UmbilicalLine(ctx), RuleLine(rules[0])] by {
      RuleLineAt(rules, 0);
      assert FrontLines(ctx) == [UmbilicalLine(ctx)];
    }
    UmbilicalUnderstood(su.sys.rd, ctx);
    ReplayCounts(su.sys.rd, Enable(Reset(fw)), CompileLines(rules, ctx), o.cmdOk);
  }

  /** Without a condition on interface texts the protected-network property is false: from any state, one check-in
      that delivers this rule, with nothing failing, ends with a live rule that blocks packets from a protected
      network, for every protected network whose text is plain. */
  lemma FreeInterfaceBlocks(su: Setup, s: State, now: nat, f: Faults, id: Uuid, name: string, c: string)
    requires su.sys.rd.Valid() && Gate(su.sys.rd, Context(su, Defaults(None, None))) && f.lockOk
    requires IsPlain(c) && c != "any" && su.sys.rd.cidr(c).Some? && NoBreak(name) && c in su.protected
    requires f.apply.resetOk && f.apply.enableOk && f.apply.cmdOk(0) && f.apply.cmdOk(1)
    ensures !ProtectedOpen(su, Cycle(su, s, now, Some(SampleReply(SampleDto(id, name, c))), f).s.fw)
  {
    var dto := SampleDto(id, name, c);
    InterfaceMisread(su.sys.rd, id, name, c);
    CheckMisses(su, id, name, c);
    SampleCompletes(su, s.fw, dto, f.apply);
    DeliveredOpenIff(su, s, now, SampleReply(dto), f);
  }
}
