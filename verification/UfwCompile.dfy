/** The agent's UFW compiler: command text for each rule, and what the text means to UFW. */
module UfwCompile {
  import opened Text
  import opened Models
  import opened Shlex
  import opened Ufw

  datatype ApplyContext = ApplyContext(
    managerIp: string, managerPort: nat, defaultIn: Option<string>, defaultOut: Option<string>)

  // ---- the intended words --------------------------------------------------

  /** The interface of the rule's direction; everything but `out` counts as incoming. */
  function Interface(r: Rule): Option<string> {
    if r.direction == Out then r.interfaceOut else r.interfaceIn
  }

  /** `port_range`. */
  function PortRange(start: Option<int>, end: Option<int>): Option<Range> {
    match (start, end)
    case (Some(s), Some(e)) => Some(Range(s, e))
    case (Some(s), None) => Some(Range(s, s))
    case (None, _) => None
  }

  function RangeText(g: Range): string {
    if g.lo == g.hi then IntText(g.lo) else IntText(g.lo) + ":" + IntText(g.hi)
  }

  function DropQuotes(s: string): (t: string)
    ensures '\'' !in t
  {
    if s == "" then ""
    else if s[0] == '\'' then DropQuotes(s[1..])
    else [s[0]] + DropQuotes(s[1..])
  }

  /** Only single quotes are dropped; the rest keeps its order. */
  lemma {:induction false} DropQuotesOnly(s: string, t: string)
    ensures DropQuotes(s + t) == DropQuotes(s) + DropQuotes(t)
    ensures '\'' !in t ==> DropQuotes(t) == t
    ensures DropQuotes("'") == ""
    decreases |s| + |t|
  {
    if s != "" {
      assert (s + t)[1..] == s[1..] + t;
      DropQuotesOnly(s[1..], t);
    } else {
      assert s + t == t;
      if t != "" {
        DropQuotesOnly("", t[1..]);
      }
    }
  }

  function OutWords(r: Rule): seq<Piece> { if r.direction == Out then [Plain("out")] else [] }

  function LogWords(r: Rule): seq<Piece> { if r.log then [Plain("log")] else [] }

  function OnWords(r: Rule): seq<Piece> {
    match Interface(r) case Some(i) => [Plain("on"), Plain(i)] case None => []
  }

  function ProtoWords(r: Rule): seq<Piece> {
    if r.protocol != Any then [Plain("proto"), Plain(ProtocolText(r.protocol))] else []
  }

  function AddressWords(key: string, cidr: Option<string>): seq<Piece> {
    [Plain(key), Plain(OrElse(cidr, "any"))]
  }

  function PortWords(range: Option<Range>): seq<Piece> {
    match range case Some(g) => [Plain("port"), Plain(RangeText(g))] case None => []
  }

  function CommentWords(r: Rule): seq<Piece> {
    if r.comment != "" then [Plain("comment"), Quoted(DropQuotes(r.comment))] else []
  }

  function SrcRange(r: Rule): Option<Range> { PortRange(r.srcPortStart, r.srcPortEnd) }

  function DstRange(r: Rule): Option<Range> { PortRange(r.dstPortStart, r.dstPortEnd) }

  /** The clauses after `ufw <action>`, in the order they are written. */
  function Clause(r: Rule, k: nat): seq<Piece> {
    if k == 0 then OutWords(r)
    else if k == 1 then LogWords(r)
    else if k == 2 then OnWords(r)
    else if k == 3 then ProtoWords(r)
    else if k == 4 then AddressWords("from", r.srcCidr)
    else if k == 5 then PortWords(SrcRange(r))
    else if k == 6 then AddressWords("to", r.dstCidr)
    else if k == 7 then PortWords(DstRange(r))
    else if k == 8 then CommentWords(r)
    else []
  }

  /** The words of the clauses from number `k` on. */
  function ClausesFrom(r: Rule, k: nat): seq<Piece>
    decreases 9 - k, r
  {
    if k >= 9 then [] else Clause(r, k) + ClausesFrom(r, k + 1)
  }

  function RuleWords(r: Rule): seq<Piece> {
    [Plain("ufw")] + ([Plain(ActionText(r.action))] + ClausesFrom(r, 0))
  }

  /** The live rule the text should become. */
  function Live(r: Rule): UfwRule {
    UfwRule(r.action, r.direction == Out, r.log, Interface(r), r.protocol,
            ReadSpec(OrElse(r.srcCidr, "any")), SrcRange(r),
            ReadSpec(OrElse(r.dstCidr, "any")), DstRange(r),
            if r.comment != "" then Some(DropQuotes(r.comment)) else None)
  }

  // ---- text ----------------------------------------------------------------

  /** Each piece with a blank before it. */
  function Trailing(ps: seq<Piece>): string {
    if ps == [] then "" else " " + ps[0].Render() + Trailing(ps[1..])
  }

  lemma {:induction false} TrailingAppend(a: seq<Piece>, b: seq<Piece>)
    ensures Trailing(a + b) == Trailing(a) + Trailing(b)
  {
    if a == [] {
      assert a + b == b;
    } else {
      assert (a + b)[1..] == a[1..] + b;
      TrailingAppend(a[1..], b);
    }
  }

  lemma {:induction false} RenderTrailing(p: Piece, ps: seq<Piece>)
    ensures Render([p] + ps) == p.Render() + Trailing(ps)
    decreases |ps|
  {
    RenderCons(p, ps);
    if ps == [] {
      assert p.Render() + "" == p.Render();
    } else {
      RenderTrailing(ps[0], ps[1..]);
      assert ps == [ps[0]] + ps[1..];
      Regroup4(p.Render(), " ", ps[0].Render(), Trailing(ps[1..]));
    }
  }

  lemma TrailingShort(key: string, value: Piece)
    ensures Trailing([]) == ""
    ensures Trailing([Plain(key)]) == " " + key
    ensures Trailing([Plain(key), value]) == " " + key + " " + value.Render()
  {
    assert [Plain(key), value][1..] == [value];
    assert [value][1..] == [];
    assert Trailing([value]) == " " + value.Render();
  }

  /** `cmd` holds the command up to clause `k` of the finished text `total`. */
  ghost predicate Written(cmd: string, r: Rule, k: nat, total: string) {
    cmd + Trailing(ClausesFrom(r, k)) == total
  }

  lemma Wrote(cmd: string, part: string, r: Rule, k: nat, total: string)
    requires k < 9 && Written(cmd, r, k, total) && part == Trailing(Clause(r, k))
    ensures Written(cmd + part, r, k + 1, total)
  {
    var rest := Trailing(ClausesFrom(r, k + 1));
    NextClause(r, k);
    assert cmd + (part + rest) == total;
    Regroup(cmd, part, rest);
  }

  lemma NextClause(r: Rule, k: nat)
    requires k < 9
    ensures Trailing(ClausesFrom(r, k)) == Trailing(Clause(r, k)) + Trailing(ClausesFrom(r, k + 1))
  {
    TrailingAppend(Clause(r, k), ClausesFrom(r, k + 1));
  }

  method WriteFlag(cmd: string, flag: string, on: bool, r: Rule, ghost k: nat, ghost total: string)
    returns (out: string)
    requires k < 9 && Clause(r, k) == (if on then [Plain(flag)] else [])
    requires Written(cmd, r, k, total)
    ensures Written(out, r, k + 1, total)
  {
    var part := "";
    if on {
      part := " " + flag;
    }
    TrailingShort(flag, Plain(""));
    Wrote(cmd, part, r, k, total);
    out := cmd + part;
  }

  method WritePair(cmd: string, key: string, value: Piece, on: bool, r: Rule, ghost k: nat, ghost total: string)
    returns (out: string)
    requires k < 9 && Clause(r, k) == (if on then [Plain(key), value] else [])
    requires Written(cmd, r, k, total)
    ensures Written(out, r, k + 1, total)
  {
    var part := "";
    if on {
      part := " " + key + " " + value.Render();
    }
    TrailingShort(key, value);
    Wrote(cmd, part, r, k, total);
    out := cmd + part;
  }

  method WriteEnd(
    start: string, key: string, cidr: Option<string>, range: Option<Range>, r: Rule, ghost k: nat, ghost total: string)
    returns (cmd: string)
    requires k < 8 && Clause(r, k) == AddressWords(key, cidr) && Clause(r, k + 1) == PortWords(range)
    requires Written(start, r, k, total)
    ensures Written(cmd, r, k + 2, total)
  {
    cmd := WritePair(start, key, Plain(OrElse(cidr, "any")), true, r, k, total);
    var ports := if range.Some? then RangeText(range.value) else "";
    cmd := WritePair(cmd, "port", Plain(ports), range.Some?, r, k + 1, total);
  }

  /** `compile_ufw_rule`: the command grows clause by clause. */
  method CompileUfwRule(r: Rule) returns (cmd: string)
    ensures cmd == Render(RuleWords(r))
  {
    ghost var total := Render(RuleWords(r));
    cmd := "ufw" + " " + ActionText(r.action);
    Opening(r);
    cmd := WriteOptions(cmd, r, total);
    cmd := WriteEnds(cmd, r, total);
    Finished(cmd, r, total);
  }

  method WriteFlags(start: string, r: Rule, ghost total: string) returns (cmd: string)
    requires Written(start, r, 0, total)
    ensures Written(cmd, r, 2, total)
  {
    cmd := WriteFlag(start, "out", r.direction == Out, r, 0, total);
    cmd := WriteFlag(cmd, "log", r.log, r, 1, total);
  }

  method WriteOptions(start: string, r: Rule, ghost total: string) returns (cmd: string)
    requires Written(start, r, 0, total)
    ensures Written(cmd, r, 4, total)
  {
    cmd := WriteFlags(start, r, total);
    var iface := Interface(r);
    cmd := WritePair(cmd, "on", Plain(OrElse(iface, "")), iface.Some?, r, 2, total);
    cmd := WritePair(cmd, "proto", Plain(ProtocolText(r.protocol)), r.protocol != Any, r, 3, total);
  }

  method WriteEnds(start: string, r: Rule, ghost total: string) returns (cmd: string)
    requires Written(start, r, 4, total)
    ensures Written(cmd, r, 9, total)
  {
    cmd := WriteEnd(start, "from", r.srcCidr, SrcRange(r), r, 4, total);
    cmd := WriteEnd(cmd, "to", r.dstCidr, DstRange(r), r, 6, total);
    cmd := WritePair(cmd, "comment", Quoted(DropQuotes(r.comment)), r.comment != "", r, 8, total);
  }

  lemma Finished(cmd: string, r: Rule, total: string)
    requires Written(cmd, r, 9, total)
    ensures cmd == total
  {
    assert cmd + "" == cmd;
  }

  lemma Opening(r: Rule)
    ensures Written("ufw" + " " + ActionText(r.action), r, 0, Render(RuleWords(r)))
  {
    var action := Plain(ActionText(r.action));
    var rest := [action] + ClausesFrom(r, 0);
    RenderTrailing(Plain("ufw"), rest);
    TrailingAppend([action], ClausesFrom(r, 0));
    TrailingShort(ActionText(r.action), action);
  }
}
