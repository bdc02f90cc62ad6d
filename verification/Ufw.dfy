/**
  UFW as the agent uses it. The tool itself is an assumption: `reset` clears the rules, deactivates the
  firewall and keeps the default policies; `enable` activates it; an added rule goes to the end; the first
  rule that matches a packet decides; a command that fails changes nothing.
*/
module Ufw {
  import opened Text
  import opened Cidr
  import opened Models
  import opened Protected
  import Shlex

  datatype Range = Range(lo: int, hi: int)

  /** A live rule; an absent address, port, interface or comment is not constrained. */
  datatype UfwRule = UfwRule(
    action: Action, outgoing: bool, log: bool, iface: Option<string>, proto: Protocol,
    src: Option<string>, srcPort: Option<Range>, dst: Option<string>, dstPort: Option<Range>,
    comment: Option<string>)

  datatype Command = AddRule(rule: UfwRule) | SetDefault(outgoing: bool, policy: Action)

  datatype Firewall = Firewall(active: bool, rules: seq<UfwRule>, defaultIn: Action, defaultOut: Action)

  datatype Packet = Packet(
    outgoing: bool, iface: string, proto: Protocol,
    src: Ip, srcPort: Option<int>, dst: Ip, dstPort: Option<int>)

  // ---- meaning of a live ruleset -------------------------------------------

  /** The addresses a text names: a network, or one bare address. */
  function ReadAddress(rd: Reader, t: string): Option<Net> {
    if rd.cidr(t).Some? then rd.cidr(t)
    else if rd.ip(t).Some? && rd.ip(t).value.Valid() then Some(HostNet(rd.ip(t).value))
    else None
  }

  predicate AddressMatches(rd: Reader, spec: Option<string>, x: Ip) {
    spec.None? || (ReadAddress(rd, spec.value).Some? && ReadAddress(rd, spec.value).value.Contains(x))
  }

  predicate PortMatches(spec: Option<Range>, port: Option<int>) {
    spec.None? || (port.Some? && spec.value.lo <= port.value <= spec.value.hi)
  }

  predicate Matches(rd: Reader, r: UfwRule, p: Packet) {
    && r.outgoing == p.outgoing
    && (r.iface.None? || r.iface.value == p.iface)
    && (r.proto == Any || r.proto == p.proto)
    && AddressMatches(rd, r.src, p.src) && PortMatches(r.srcPort, p.srcPort)
    && AddressMatches(rd, r.dst, p.dst) && PortMatches(r.dstPort, p.dstPort)
  }

  function FirstMatch(rd: Reader, rules: seq<UfwRule>, p: Packet): Option<Action> {
    if rules == [] then None
    else if Matches(rd, rules[0], p) then Some(rules[0].action)
    else FirstMatch(rd, rules[1..], p)
  }

  /** What happens to a packet. */
  function Verdict(rd: Reader, fw: Firewall, p: Packet): Action {
    if !fw.active then Allow
    else match FirstMatch(rd, fw.rules, p)
      case Some(a) => a
      case None => if p.outgoing then fw.defaultOut else fw.defaultIn
  }

  lemma {:induction false} FirstMatchAppend(rd: Reader, a: seq<UfwRule>, b: seq<UfwRule>, p: Packet)
    ensures FirstMatch(rd, a + b, p)
         == match FirstMatch(rd, a, p) { case Some(v) => Some(v) case None => FirstMatch(rd, b, p) }
  {
    if a == [] {
      assert a + b == b;
    } else {
      assert (a + b)[1..] == a[1..] + b;
      FirstMatchAppend(rd, a[1..], b, p);
    }
  }

  // ---- reading a command line ----------------------------------------------

  function ReadRange(t: string): Option<Range> {
    var i := Find(t, ':');
    if i == |t| then
      match ReadInt(t) case Some(n) => Some(Range(n, n)) case None => None
    else
      match ReadInt(t[..i])
      case None => None
      case Some(lo) => match ReadInt(t[i + 1..]) case Some(hi) => Some(Range(lo, hi)) case None => None
  }

  datatype Side = NoSide | FromSide | ToSide

  function ReadSpec(v: string): Option<string> {
    if v == "any" then None else Some(v)
  }

  /** The clauses after the action, in any order; `port` belongs to the address clause before it. */
  function ReadClauses(args: seq<string>, r: UfwRule, side: Side): Option<UfwRule>
    decreases |args|
  {
    if args == [] then Some(r)
    else if args[0] == "in" then ReadClauses(args[1..], r.(outgoing := false), side)
    else if args[0] == "out" then ReadClauses(args[1..], r.(outgoing := true), side)
    else if args[0] == "log" then ReadClauses(args[1..], r.(log := true), side)
    else if |args| < 2 then None
    else
      var v, rest := args[1], args[2..];
      if args[0] == "on" then ReadClauses(rest, r.(iface := Some(v)), side)
      else if args[0] == "proto" then
        match ReadProtocol(v) case Some(p) => ReadClauses(rest, r.(proto := p), side) case None => None
      else if args[0] == "from" then ReadClauses(rest, r.(src := ReadSpec(v)), FromSide)
      else if args[0] == "to" then ReadClauses(rest, r.(dst := ReadSpec(v)), ToSide)
      else if args[0] == "port" then
        match ReadRange(v)
        case None => None
        case Some(g) =>
          match side
          case NoSide => None
          case FromSide => ReadClauses(rest, r.(srcPort := Some(g)), side)
          case ToSide => ReadClauses(rest, r.(dstPort := Some(g)), side)
      else if args[0] == "comment" then ReadClauses(rest, r.(comment := Some(v)), side)
      else None
  }

  function Blank(a: Action): UfwRule {
    UfwRule(a, false, false, None, Any, None, None, None, None, None)
  }

  /** The policies `ufw default` takes. */
  function ReadPolicy(t: string): Option<Action> {
    match ReadAction(t)
    case Some(Allow) => Some(Allow)
    case Some(Deny) => Some(Deny)
    case Some(Reject) => Some(Reject)
    case _ => None
  }

  /** The actions a `ufw` rule can have; `masquerade` is none of them. */
  function ReadRuleAction(t: string): Option<Action> {
    match ReadAction(t)
    case Some(Masquerade) => None
    case a => a
  }

  function ReadCommand(args: seq<string>): Option<Command> {
    if |args| < 2 || args[0] != "ufw" then None
    else if args[1] == "default" then
      if |args| != 4 then None
      else match ReadPolicy(args[2])
        case None => None
        case Some(p) =>
          if args[3] == "incoming" then Some(SetDefault(false, p))
          else if args[3] == "outgoing" then Some(SetDefault(true, p))
          else None
    else match ReadRuleAction(args[1])
      case None => None
      case Some(a) =>
        match ReadClauses(args[2..], Blank(a), NoSide)
        case Some(r) => Some(AddRule(r))
        case None => None
  }

  /** The tool takes a rule only when it can read its addresses. */
  predicate Usable(rd: Reader, c: Command) {
    c.AddRule? ==>
      && (c.rule.src.None? || ReadAddress(rd, c.rule.src.value).Some?)
      && (c.rule.dst.None? || ReadAddress(rd, c.rule.dst.value).Some?)
  }

  function Effect(fw: Firewall, c: Command): Firewall {
    match c
    case AddRule(r) => fw.(rules := fw.rules + [r])
    case SetDefault(outgoing, p) => if outgoing then fw.(defaultOut := p) else fw.(defaultIn := p)
  }

  function Reset(fw: Firewall): Firewall { fw.(active := false, rules := []) }

  function Enable(fw: Firewall): Firewall { fw.(active := true) }

  /** What a command line asks for: `None` when it cannot be split or read, or names an unreadable address. */
  function Understood(rd: Reader, line: string): (c: Option<Command>)
    ensures c.Some? ==> Usable(rd, c.value)
  {
    match Shlex.Split(line)
    case None => None
    case Some(args) =>
      match ReadCommand(args)
      case None => None
      case Some(c) => if Usable(rd, c) then Some(c) else None
  }

  // ---- the replay ----------------------------------------------------------

  datatype Replayed = Replayed(fw: Firewall, applied: nat, failed: nat)

  /** A command succeeds when it is understood and the tool reports success. */
  predicate Succeeds(rd: Reader, line: string, ok: bool) {
    ok && Understood(rd, line).Some?
  }

  function RunOne(rd: Reader, r: Replayed, line: string, ok: bool): Replayed {
    if Succeeds(rd, line, ok)
    then Replayed(Effect(r.fw, Understood(rd, line).value), r.applied + 1, r.failed)
    else r.(failed := r.failed + 1)
  }

  /** Running the command lines in order; `ok(i)` is what the tool reported for line `i`. */
  function Replay(rd: Reader, fw: Firewall, lines: seq<string>, ok: nat -> bool): Replayed {
    if lines == [] then Replayed(fw, 0, 0)
    else
      var n := |lines| - 1;
      RunOne(rd, Replay(rd, fw, lines[..n], ok), lines[n], ok(n))
  }

  predicate AllSucceed(rd: Reader, lines: seq<string>, ok: nat -> bool) {
    forall i :: 0 <= i < |lines| ==> Succeeds(rd, lines[i], ok(i))
  }

  /** Every line is counted once, and nothing failed iff every line succeeded. */
  lemma {:induction false} ReplayCounts(rd: Reader, fw: Firewall, lines: seq<string>, ok: nat -> bool)
    ensures
      var r := Replay(rd, fw, lines, ok);
      r.applied + r.failed == |lines| && (r.failed == 0 <==> AllSucceed(rd, lines, ok))
  {
    if lines != [] {
      var n := |lines| - 1;
      var init := lines[..n];
      ReplayCounts(rd, fw, init, ok);
      forall i | 0 <= i < n ensures init[i] == lines[i] {}
      assert forall i :: 0 <= i < |lines| ==> i == n || lines[i] == init[i];
    }
  }

  /** A replay only appends: it never removes or reorders a live rule and never switches the firewall. */
  lemma {:induction false} ReplayAppends(rd: Reader, fw: Firewall, lines: seq<string>, ok: nat -> bool)
    ensures
      var r := Replay(rd, fw, lines, ok).fw;
      r.active == fw.active && fw.rules <= r.rules
  {
    if lines != [] {
      ReplayAppends(rd, fw, lines[..|lines| - 1], ok);
    }
  }

  function Shift(ok: nat -> bool, n: nat): nat -> bool {
    (i: nat) => ok(n + i)
  }

  /** A replay can be cut anywhere. */
  lemma {:induction false} ReplayCut(rd: Reader, fw: Firewall, a: seq<string>, b: seq<string>, ok: nat -> bool)
    ensures Replay(rd, fw, a + b, ok).fw == Replay(rd, Replay(rd, fw, a, ok).fw, b, Shift(ok, |a|)).fw
    decreases |b|
  {
    if b == [] {
      assert a + b == a;
    } else {
      var m := |b| - 1;
      assert (a + b)[..|a| + m] == a + b[..m];
      assert (a + b)[|a| + m] == b[m];
      ReplayCut(rd, fw, a, b[..m], ok);
    }
  }

  lemma SucceedCut(rd: Reader, a: seq<string>, b: seq<string>, ok: nat -> bool)
    ensures AllSucceed(rd, a + b, ok) <==> AllSucceed(rd, a, ok) && AllSucceed(rd, b, Shift(ok, |a|))
  {
    var good := (line: string, o: bool) => Succeeds(rd, line, o);
    CutAll(good, a, b, ok);
    AsAll(rd, a + b, ok, good);
    AsAll(rd, a, ok, good);
    AsAll(rd, b, Shift(ok, |a|), good);
  }

  ghost predicate All(good: (string, bool) -> bool, lines: seq<string>, ok: nat -> bool) {
    forall i :: 0 <= i < |lines| ==> good(lines[i], ok(i))
  }

  lemma AsAll(rd: Reader, lines: seq<string>, ok: nat -> bool, good: (string, bool) -> bool)
    requires forall l, o :: good(l, o) == Succeeds(rd, l, o)
    ensures AllSucceed(rd, lines, ok) <==> All(good, lines, ok)
  {
  }

  lemma CutAll(good: (string, bool) -> bool, a: seq<string>, b: seq<string>, ok: nat -> bool)
    ensures All(good, a + b, ok) <==> All(good, a, ok) && All(good, b, Shift(ok, |a|))
  {
    assert forall i :: 0 <= i < |a| ==> (a + b)[i] == a[i];
    if All(good, a + b, ok) {
      forall i | 0 <= i < |b| ensures good(b[i], Shift(ok, |a|)(i)) {
        assert good((a + b)[|a| + i], ok(|a| + i));
      }
    }
    if All(good, a, ok) && All(good, b, Shift(ok, |a|)) {
      forall i | 0 <= i < |a + b| ensures good((a + b)[i], ok(i)) {
        if i >= |a| {
          assert good(b[i - |a|], Shift(ok, |a|)(i - |a|));
        }
      }
    }
  }

  lemma ReplayOne(rd: Reader, fw: Firewall, line: string, ok: nat -> bool)
    ensures Replay(rd, fw, [line], ok).fw
         == if Succeeds(rd, line, ok(0)) then Effect(fw, Understood(rd, line).value) else fw
  {
    assert [line][..0] == [];
  }
}
