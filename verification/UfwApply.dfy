/** The UFW backend: compile a policy, replay it on the host, and what the host then does to packets. */
module UfwApply {
  import opened Text
  import opened Encoding
  import opened Models
  import opened Protected
  import opened Shlex
  import opened Ufw
  import opened UfwCompile
  import opened UfwRoundTrip
  import Snapshot

  // ---- compile -------------------------------------------------------------

  const UMBILICAL_COMMENT := "fw-mgr-umbilical"

  function UmbilicalWords(ctx: ApplyContext): seq<Piece> {
    [Plain("ufw"), Plain("allow"), Plain("out"), Plain("from"), Plain("any"),
     Plain("to"), Plain(ctx.managerIp), Plain("port"), Plain(IntText(ctx.managerPort)),
     Plain("proto"), Plain("tcp"), Plain("comment"), Quoted(UMBILICAL_COMMENT)]
  }

  /** The outbound allow to the manager. */
  function UmbilicalRule(ctx: ApplyContext): UfwRule {
    UfwRule(Allow, true, false, None, Tcp, None, None,
            Some(ctx.managerIp), Some(Range(ctx.managerPort, ctx.managerPort)), Some("fw-mgr-umbilical"))
  }

  function DefaultWords(policy: string, way: string): seq<Piece> {
    [Plain("ufw"), Plain("default"), Plain(policy), Plain(way)]
  }

  function DefaultLines(policy: Option<string>, way: string): seq<string> {
    match policy case Some(p) => [DefaultLine(p, way)] case None => []
  }

  function RuleLine(r: Rule): string { Render(RuleWords(r)) }

  function RuleLines(rules: seq<Rule>): seq<string> {
    if rules == [] then [] else RuleLines(rules[..|rules| - 1]) + [RuleLine(rules[|rules| - 1])]
  }

  /** Umbilical first, then the defaults the policy set names, then the rules in order. */
  function CompileLines(rules: seq<Rule>, ctx: ApplyContext): seq<string> {
    FrontLines(ctx) + RuleLines(rules)
  }

  function FrontLines(ctx: ApplyContext): seq<string> {
    [UmbilicalLine(ctx)] + DefaultLines(ctx.defaultIn, "incoming") + DefaultLines(ctx.defaultOut, "outgoing")
  }

  function UmbilicalLine(ctx: ApplyContext): string { Render(UmbilicalWords(ctx)) }

  function DefaultLine(policy: string, way: string): string { Render(DefaultWords(policy, way)) }

  /** `UfwBackend::compile`. */
  method Compile(rules: seq<Rule>, ctx: ApplyContext) returns (commands: seq<string>)
    ensures commands == CompileLines(rules, ctx)
  {
    commands := CompileFront(ctx);
    var lines := CompileRules(rules);
    commands := commands + lines;
  }

  method CompileRules(rules: seq<Rule>) returns (lines: seq<string>)
    ensures lines == RuleLines(rules)
  {
    lines := [];
    for i := 0 to |rules|
      invariant lines == RuleLines(rules[..i])
    {
      var line := CompileUfwRule(rules[i]);
      assert rules[..i + 1][..i] == rules[..i];
      lines := lines + [line];
    }
    assert rules[..|rules|] == rules;
  }

  method CompileFront(ctx: ApplyContext) returns (commands: seq<string>)
    ensures commands == FrontLines(ctx)
  {
    commands := [UmbilicalLine(ctx)];
    if ctx.defaultIn.Some? {
      commands := commands + [DefaultLine(ctx.defaultIn.value, "incoming")];
    }
    if ctx.defaultOut.Some? {
      commands := commands + [DefaultLine(ctx.defaultOut.value, "outgoing")];
    }
  }

  // ---- apply ---------------------------------------------------------------

  /** What the agent cannot see into: address reading, the hash, and how `ufw status` lists a state. */
  datatype System = System(rd: Reader, digest: Digest, listing: Firewall -> string)

  /** The live hash used for drift detection. */
  function LiveHash(sys: System, fw: Firewall): string {
    Snapshot.SnapshotHash(sys.digest, sys.listing(fw))
  }

  /** What the tool reports during one apply; `cmdOk(i)` is for command `i`. */
  datatype Outcome = Outcome(resetOk: bool, enableOk: bool, cmdOk: nat -> bool, statusOk: bool)

  datatype Applied = Applied(fw: Firewall, applied: nat, failed: nat, hash: string, error: bool)

  function ApplyLines(sys: System, fw: Firewall, lines: seq<string>, o: Outcome): Applied {
    if !o.resetOk then Applied(fw, 0, 0, "", true)
    else if !o.enableOk then Applied(Reset(fw), 0, 0, "", true)
    else
      var r := Replay(sys.rd, Enable(Reset(fw)), lines, o.cmdOk);
      Applied(r.fw, r.applied, r.failed, if o.statusOk then LiveHash(sys, r.fw) else "", r.failed > 0)
  }

  /** What an apply reports: nothing attempted when reset or enable fails; otherwise every command counted, an error
      iff one failed, and the hash of what is live then, empty when the status command fails. */
  lemma ApplyReports(sys: System, fw: Firewall, lines: seq<string>, o: Outcome)
    ensures
      var a, started := ApplyLines(sys, fw, lines, o), o.resetOk && o.enableOk;
      && a.applied + a.failed == (if started then |lines| else 0)
      && (a.error <==> !(started && AllSucceed(sys.rd, lines, o.cmdOk)))
      && (a.failed == 0 <==> (started ==> AllSucceed(sys.rd, lines, o.cmdOk)))
      && a.hash == if started && o.statusOk then LiveHash(sys, a.fw) else ""
  {
    ReplayCounts(sys.rd, Enable(Reset(fw)), lines, o.cmdOk);
  }

  /** The host's firewall, changed only through the tool. */
  class UfwHost {
    var fw: Firewall

    constructor (initial: Firewall)
      ensures fw == initial
    {
      fw := initial;
    }

    /** `UfwBackend::apply`: reset, enable, replay with counters, snapshot. */
    method Apply(sys: System, commands: seq<string>, o: Outcome)
      returns (applied: nat, failed: nat, hash: string, error: bool)
      modifies this
      ensures Applied(fw, applied, failed, hash, error) == ApplyLines(sys, old(fw), commands, o)
    {
      if !o.resetOk {
        return 0, 0, "", true;
      }
      fw := Ufw.Reset(fw);
      if !o.enableOk {
        return 0, 0, "", true;
      }
      fw := Ufw.Enable(fw);
      ghost var start := fw;
      applied, failed := 0, 0;
      for i := 0 to |commands|
        invariant Replayed(fw, applied, failed) == Replay(sys.rd, start, commands[..i], o.cmdOk)
      {
        assert commands[..i + 1][..i] == commands[..i];
        var understood := Understood(sys.rd, commands[i]);
        if understood.Some? && o.cmdOk(i) {
          fw := Effect(fw, understood.value);
          applied := applied + 1;
        } else {
          failed := failed + 1;
        }
      }
      assert commands[..|commands|] == commands;
      var _, h := Snapshot.TakeSnapshot(sys.digest, o.statusOk, sys.listing(fw));
      hash := h;
      error := failed > 0;
    }

    /** `UfwBackend::reset`, which a rollback action runs. */
    method Reset(ok: bool) returns (success: bool)
      modifies this
      ensures success == ok && (!ok ==> fw == old(fw))
      ensures ok ==> fw.rules == [] && !fw.active
      ensures fw.defaultIn == old(fw).defaultIn && fw.defaultOut == old(fw).defaultOut
    {
      if ok {
        fw := Ufw.Reset(fw);
      }
      success := ok;
    }
  }

  // ---- what the lines mean -------------------------------------------------

  function UmbilicalTail(ctx: ApplyContext): seq<string> {
    ["to", ctx.managerIp] + (["port", IntText(ctx.managerPort)] + (["proto", "tcp"] + ["comment", UMBILICAL_COMMENT]))
  }

  lemma UmbilicalTailReads(ctx: ApplyContext, r: UfwRule)
    requires ctx.managerIp != "any" && r == Blank(Allow).(outgoing := true)
    ensures ReadClauses(UmbilicalTail(ctx), r, FromSide) == Some(UmbilicalRule(ctx))
  {
    var port, tail: seq<string> := IntText(ctx.managerPort), ["comment", UMBILICAL_COMMENT];
    var r1 := r.(dst := Some(ctx.managerIp));
    var r2 := r1.(dstPort := Some(Range(ctx.managerPort, ctx.managerPort)));
    var r3 := r2.(proto := Tcp);
    ReadPair("to", ctx.managerIp, ["port", port] + (["proto", "tcp"] + tail), r, FromSide);
    RangeReads(Range(ctx.managerPort, ctx.managerPort));
    ReadPortPair(port, ["proto", "tcp"] + tail, r1, ToSide);
    ReadPair("proto", "tcp", tail, r2, ToSide);
    assert tail == tail + [];
    ReadPair("comment", UMBILICAL_COMMENT, [], r3, ToSide);
  }

  lemma UmbilicalReads(ctx: ApplyContext)
    requires ctx.managerIp != "any"
    ensures ReadCommand(Values(UmbilicalWords(ctx))) == Some(AddRule(UmbilicalRule(ctx)))
  {
    var r0 := Blank(Allow);
    var r1 := r0.(outgoing := true);
    var args, tail := Values(UmbilicalWords(ctx)), UmbilicalTail(ctx);
    assert args[2..] == ["out"] + (["from", "any"] + tail);
    ReadFlag("out", ["from", "any"] + tail, r0, NoSide);
    ReadPair("from", "any", tail, r1, NoSide);
    assert r1.(src := None) == r1;
    UmbilicalTailReads(ctx, r1);
  }

  /** The manager's address and port, when the safety gate accepts the context. */
  predicate Gate(rd: Reader, ctx: ApplyContext) {
    rd.ip(ctx.managerIp).Some? && !rd.ip(ctx.managerIp).value.Unspecified()
  }

  lemma UmbilicalUnderstood(rd: Reader, ctx: ApplyContext)
    requires rd.Valid() && Gate(rd, ctx)
    ensures Understood(rd, UmbilicalLine(ctx)) == Some(AddRule(UmbilicalRule(ctx)))
  {
    var ws := UmbilicalWords(ctx);
    assert IsPlain(ctx.managerIp);
    KeywordsPlain();
    NumberPlain(ctx.managerPort);
    assert AllValid(ws);
    SplitRender(ws);
    UmbilicalReads(ctx);
    assert ReadAddress(rd, ctx.managerIp).Some?;
  }

  lemma RuleUnderstood(rd: Reader, r: Rule)
    requires PlainRule(r) && Understood(rd, RuleLine(r)).Some?
    ensures Understood(rd, RuleLine(r)) == Some(AddRule(Live(r)))
  {
    CommandRoundTrip(r);
  }

  lemma RenderAppend(p: Piece, q: Piece, ps: seq<Piece>)
    requires ps != []
    ensures Render([p] + ([q] + ps)) == Render([p, q]) + " " + Render(ps)
  {
    assert ([p] + ([q] + ps))[1..] == [q] + ps && ([q] + ps)[1..] == ps;
    assert [p, q][1..] == [q];
    Regroup4(p.Render() + " ", q.Render(), " ", Render(ps));
  }

  lemma {:induction false} ClausesKeepAction(args: seq<string>, r: UfwRule, side: Side)
    ensures ReadClauses(args, r, side).Some? ==> ReadClauses(args, r, side).value.action == r.action
    decreases |args|
  {
    if args != [] {
      if args[0] == "in" {
        ClausesKeepAction(args[1..], r.(outgoing := false), side);
      } else if args[0] == "out" {
        ClausesKeepAction(args[1..], r.(outgoing := true), side);
      } else if args[0] == "log" {
        ClausesKeepAction(args[1..], r.(log := true), side);
      } else if |args| >= 2 {
        PairKeepsAction(args, r, side);
      }
    }
  }

  lemma {:induction false} PairKeepsAction(args: seq<string>, r: UfwRule, side: Side)
    requires |args| >= 2 && args[0] !in ["in", "out", "log"]
    ensures ReadClauses(args, r, side).Some? ==> ReadClauses(args, r, side).value.action == r.action
    decreases |args|, 0
  {
    var v, rest := args[1], args[2..];
    if args[0] == "on" {
      ClausesKeepAction(rest, r.(iface := Some(v)), side);
    } else if args[0] == "proto" {
      if ReadProtocol(v).Some? { ClausesKeepAction(rest, r.(proto := ReadProtocol(v).value), side); }
    } else if args[0] == "from" {
      ClausesKeepAction(rest, r.(src := ReadSpec(v)), FromSide);
    } else if args[0] == "to" {
      ClausesKeepAction(rest, r.(dst := ReadSpec(v)), ToSide);
    } else if args[0] == "port" {
      if ReadRange(v).Some? {
        ClausesKeepAction(rest, r.(srcPort := Some(ReadRange(v).value)), side);
        ClausesKeepAction(rest, r.(dstPort := Some(ReadRange(v).value)), side);
      }
    } else if args[0] == "comment" {
      ClausesKeepAction(rest, r.(comment := Some(v)), side);
    }
  }

  /** However its texts are read, a command line with this head is a rule with this action. */
  lemma RuleHead(a: Action, words: seq<string>)
    ensures
      var c := ReadCommand(["ufw", ActionText(a)] + words);
      && (c.Some? ==> c.value.AddRule? && c.value.rule.action == a)
      && (a == Masquerade ==> c == None)
  {
    var args := ["ufw", ActionText(a)] + words;
    assert args[0] == "ufw" && args[1] == ActionText(a) && args[2..] == words;
    NamesReadBack(a, In, Any);
    assert args[1] != "default";
    ClausesKeepAction(words, Blank(a), NoSide);
  }

  /** Whatever its texts hold, a rule's command line is refused or read as a rule with the same action, and
      a masquerade rule's is refused. */
  lemma RuleLineReads(rd: Reader, r: Rule)
    ensures
      var c := Understood(rd, RuleLine(r));
      && (c.Some? ==> c.value.AddRule? && c.value.rule.action == r.action)
      && (r.action == Masquerade ==> c == None)
  {
    var head, rest := [Plain("ufw"), Plain(ActionText(r.action))], ClausesFrom(r, 0);
    KeywordsPlain();
    ActionPlain(r.action);
    HasClauses(r, 0);
    RenderAppend(head[0], head[1], rest);
    SplitFront(head, Render(rest));
    assert Values(head) == ["ufw", ActionText(r.action)];
    if Split(Render(rest)).Some? {
      RuleHead(r.action, Split(Render(rest)).value);
    }
  }

  lemma {:induction false} HasClauses(r: Rule, k: nat)
    requires k <= 4
    ensures ClausesFrom(r, k) != []
    decreases 4 - k
  {
    if k < 4 {
      HasClauses(r, k + 1);
    }
  }

  /** Whatever the policy text holds, a default command line never adds a rule. */
  lemma DefaultLineReads(rd: Reader, policy: string, way: string)
    ensures
      var c := Understood(rd, DefaultLine(policy, way));
      c.Some? ==> c.value.SetDefault?
  {
    var head, rest := [Plain("ufw"), Plain("default")], [Plain(policy), Plain(way)];
    assert IsPlain("ufw") && IsPlain("default");
    RenderAppend(head[0], head[1], rest);
    assert [head[0]] + ([head[1]] + rest) == DefaultWords(policy, way);
    SplitFront(head, Render(rest));
    assert Values(head) == ["ufw", "default"];
    if Split(Render(rest)).Some? {
      DefaultHead(Split(Render(rest)).value);
    }
  }

  lemma DefaultHead(words: seq<string>)
    ensures
      var c := ReadCommand(["ufw", "default"] + words);
      c.Some? ==> c.value.SetDefault?
  {
    var args := ["ufw", "default"] + words;
    assert args[0] == "ufw" && args[1] == "default";
  }

  lemma DefaultSplits(policy: string, way: string)
    requires IsPlain(policy) && IsPlain(way)
    ensures Split(DefaultLine(policy, way)) == Some(["ufw", "default", policy, way])
  {
    var ws := DefaultWords(policy, way);
    assert IsPlain("ufw") && IsPlain("default");
    assert AllValid(ws);
    SplitRender(ws);
    assert Values(ws) == ["ufw", "default", policy, way];
  }

  lemma DefaultUnderstood(rd: Reader, policy: string, outgoing: bool)
    requires IsPlain(policy)
    ensures
      var way := if outgoing then "outgoing" else "incoming";
      Understood(rd, DefaultLine(policy, way))
      == match ReadPolicy(policy) { case Some(p) => Some(SetDefault(outgoing, p)) case None => None }
  {
    assert IsPlain("incoming") && IsPlain("outgoing");
    DefaultSplits(policy, if outgoing then "outgoing" else "incoming");
  }
}
