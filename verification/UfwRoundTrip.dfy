/** The command text of a rule, split and read back, is the rule that was meant. */
module UfwRoundTrip {
  import opened Text
  import opened Models
  import opened Shlex
  import opened Ufw
  import opened UfwCompile

  predicate OptPlain(o: Option<string>) { o.Some? ==> IsPlain(o.value) }

  /** Addresses and the interface in use need no quoting. */
  predicate PlainRule(r: Rule) {
    OptPlain(Interface(r)) && OptPlain(r.srcCidr) && OptPlain(r.dstCidr)
  }

  // ---- every word is valid -------------------------------------------------

  lemma KeywordsPlain()
    ensures IsPlain("ufw") && IsPlain("out") && IsPlain("log") && IsPlain("on") && IsPlain("proto")
    ensures IsPlain("from") && IsPlain("to") && IsPlain("port") && IsPlain("comment") && IsPlain("any")
    ensures IsPlain("tcp") && IsPlain("allow")
  {
  }

  lemma ActionPlain(a: Action)
    ensures IsPlain(ActionText(a))
  {
    match a {
      case Allow => assert IsPlain("allow");
      case Deny => assert IsPlain("deny");
      case Reject => assert IsPlain("reject");
      case Limit => assert IsPlain("limit");
      case Masquerade => assert IsPlain("masquerade");
    }
  }

  lemma ProtocolPlain(p: Protocol)
    ensures IsPlain(ProtocolText(p))
  {
    match p {
      case Any => assert IsPlain("any");
      case Tcp => assert IsPlain("tcp");
      case Udp => assert IsPlain("udp");
      case Icmp => assert IsPlain("icmp");
      case Icmpv6 => assert IsPlain("icmpv6");
      case Gre => assert IsPlain("gre");
      case Esp => assert IsPlain("esp");
      case Ah => assert IsPlain("ah");
      case Sctp => assert IsPlain("sctp");
    }
  }

  lemma NumberPlain(n: int)
    ensures IsPlain(IntText(n)) && ':' !in IntText(n)
  {
    IntTextReads(n);
  }

  lemma RangePlain(g: Range)
    ensures IsPlain(RangeText(g))
  {
    NumberPlain(g.lo);
    NumberPlain(g.hi);
    var t := RangeText(g);
    forall i | 0 <= i < |t| ensures IsOrdinary(t[i]) {
      if g.lo != g.hi && i > |IntText(g.lo)| {
        assert t[i] == IntText(g.hi)[i - |IntText(g.lo)| - 1];
      }
    }
  }

  lemma ClauseValid(r: Rule, k: nat)
    requires PlainRule(r) && k < 9
    ensures AllValid(Clause(r, k))
  {
    KeywordsPlain();
    ProtocolPlain(r.protocol);
    if SrcRange(r).Some? { RangePlain(SrcRange(r).value); }
    if DstRange(r).Some? { RangePlain(DstRange(r).value); }
  }

  lemma {:induction false} ClausesValid(r: Rule, k: nat)
    requires PlainRule(r)
    ensures AllValid(ClausesFrom(r, k))
    decreases 9 - k
  {
    if k < 9 {
      ClauseValid(r, k);
      ClausesValid(r, k + 1);
    }
  }

  lemma WordsValid(r: Rule)
    requires PlainRule(r)
    ensures AllValid(RuleWords(r))
  {
    KeywordsPlain();
    ActionPlain(r.action);
    ClausesValid(r, 0);
  }

  /** Only the comment is quoted, and it holds no single quote. */
  lemma {:induction false} ClausesClosed(r: Rule, k: nat)
    ensures QuotesClosed(ClausesFrom(r, k))
    decreases 9 - k
  {
    if k < 9 {
      ClausesClosed(r, k + 1);
    }
  }

  lemma {:induction false} ValidClause(r: Rule, k: nat, m: nat)
    requires k <= m < 9 && AllValid(ClausesFrom(r, k))
    ensures AllValid(Clause(r, m))
    decreases m - k
  {
    NextValid(r, k);
    if k < m {
      ValidClause(r, k + 1, m);
    }
  }

  lemma NextValid(r: Rule, k: nat)
    requires k < 9 && AllValid(ClausesFrom(r, k))
    ensures AllValid(Clause(r, k)) && AllValid(ClausesFrom(r, k + 1))
  {
    ValidParts(Clause(r, k), ClausesFrom(r, k + 1));
  }

  lemma ValidParts(a: seq<Piece>, b: seq<Piece>)
    requires AllValid(a + b)
    ensures AllValid(a) && AllValid(b)
  {
    forall i | 0 <= i < |a| ensures a[i].Valid() { assert (a + b)[i] == a[i]; }
    forall i | 0 <= i < |b| ensures b[i].Valid() { assert (a + b)[|a| + i] == b[i]; }
  }

  /** The words of a rule are all valid iff its interface and addresses are plain. */
  lemma ValidIffPlain(r: Rule)
    ensures AllValid(RuleWords(r)) <==> PlainRule(r)
  {
    if PlainRule(r) {
      WordsValid(r);
    } else if AllValid(RuleWords(r)) {
      var rest := [Plain(ActionText(r.action))] + ClausesFrom(r, 0);
      ValidParts([Plain("ufw")], rest);
      ValidParts([Plain(ActionText(r.action))], ClausesFrom(r, 0));
      ValidClause(r, 0, 2);
      ValidClause(r, 0, 4);
      ValidClause(r, 0, 6);
      PlainFromClauses(r);
    }
  }

  lemma PlainFromClauses(r: Rule)
    requires AllValid(OnWords(r))
    requires AllValid(AddressWords("from", r.srcCidr)) && AllValid(AddressWords("to", r.dstCidr))
    ensures PlainRule(r)
  {
    if Interface(r).Some? {
      assert OnWords(r)[1].Valid();
    }
    assert AddressWords("from", r.srcCidr)[1].Valid() && AddressWords("to", r.dstCidr)[1].Valid();
  }

  // ---- reading back --------------------------------------------------------

  lemma RangeReads(g: Range)
    ensures ReadRange(RangeText(g)) == Some(g)
  {
    NumberPlain(g.lo);
    NumberPlain(g.hi);
    IntTextReads(g.lo);
    IntTextReads(g.hi);
    var lo, hi := IntText(g.lo), IntText(g.hi);
    if g.lo == g.hi {
      assert Find(lo, ':') == |lo|;
    } else {
      var t := lo + ":" + hi;
      FindAfter(lo, ':', hi);
      assert t[..|lo|] == lo && t[|lo| + 1..] == hi;
    }
  }

  /** The rule as read once the first `k` clauses are read. */
  function Partial(r: Rule, k: nat): UfwRule {
    UfwRule(r.action, k > 0 && r.direction == Out, k > 1 && r.log,
            if k > 2 then Interface(r) else None, if k > 3 then r.protocol else Any,
            if k > 4 then Live(r).src else None, if k > 5 then SrcRange(r) else None,
            if k > 6 then Live(r).dst else None, if k > 7 then DstRange(r) else None,
            if k > 8 then Live(r).comment else None)
  }

  function SideAt(k: nat): Side {
    if k <= 4 then NoSide else if k <= 6 then FromSide else ToSide
  }

  /** Reading a two-word clause. */
  lemma ReadPair(key: string, v: string, rest: seq<string>, r: UfwRule, side: Side)
    ensures
      var args := [key, v] + rest;
      && (key == "on" ==> ReadClauses(args, r, side) == ReadClauses(rest, r.(iface := Some(v)), side))
      && (key == "proto" && ReadProtocol(v).Some? ==>
            ReadClauses(args, r, side) == ReadClauses(rest, r.(proto := ReadProtocol(v).value), side))
      && (key == "from" ==> ReadClauses(args, r, side) == ReadClauses(rest, r.(src := ReadSpec(v)), FromSide))
      && (key == "to" ==> ReadClauses(args, r, side) == ReadClauses(rest, r.(dst := ReadSpec(v)), ToSide))
      && (key == "comment" ==> ReadClauses(args, r, side) == ReadClauses(rest, r.(comment := Some(v)), side))
  {
    var args := [key, v] + rest;
    assert args[0] == key && args[1] == v && args[2..] == rest;
  }

  lemma ReadPortPair(v: string, rest: seq<string>, r: UfwRule, side: Side)
    requires ReadRange(v).Some?
    ensures side == FromSide ==>
              ReadClauses(["port", v] + rest, r, side)
              == ReadClauses(rest, r.(srcPort := Some(ReadRange(v).value)), side)
    ensures side == ToSide ==>
              ReadClauses(["port", v] + rest, r, side)
              == ReadClauses(rest, r.(dstPort := Some(ReadRange(v).value)), side)
  {
    var args := ["port", v] + rest;
    assert args[0] == "port" && args[1] == v && args[2..] == rest;
  }

  lemma ReadFlag(flag: string, rest: seq<string>, r: UfwRule, side: Side)
    ensures flag == "out" ==>
              ReadClauses([flag] + rest, r, side) == ReadClauses(rest, r.(outgoing := true), side)
    ensures flag == "log" ==>
              ReadClauses([flag] + rest, r, side) == ReadClauses(rest, r.(log := true), side)
  {
    var args := [flag] + rest;
    assert args[0] == flag && args[1..] == rest;
  }

  /** Reading clause `k` turns the rule read so far into the next one. */
  lemma ReadClause(r: Rule, k: nat, rest: seq<string>)
    requires k < 9
    ensures ReadClauses(Values(Clause(r, k)) + rest, Partial(r, k), SideAt(k))
         == ReadClauses(rest, Partial(r, k + 1), SideAt(k + 1))
  {
    if Clause(r, k) == [] {
      assert Values(Clause(r, k)) + rest == rest;
    } else if k <= 1 {
      var flag := Clause(r, k)[0].value;
      assert Values(Clause(r, k)) == [flag];
      ReadFlag(flag, rest, Partial(r, k), SideAt(k));
    } else {
      var c := Clause(r, k);
      assert Values(c) == [c[0].value, c[1].value];
      if k == 5 || k == 7 {
        RangeReads(if k == 5 then SrcRange(r).value else DstRange(r).value);
        ReadPortPair(c[1].value, rest, Partial(r, k), SideAt(k));
      } else {
        NamesReadBack(r.action, r.direction, r.protocol);
        ReadPair(c[0].value, c[1].value, rest, Partial(r, k), SideAt(k));
      }
    }
  }

  lemma ValuesAppend(a: seq<Piece>, b: seq<Piece>)
    ensures Values(a + b) == Values(a) + Values(b)
  {
  }

  lemma {:induction false} ReadFrom(r: Rule, k: nat)
    requires k <= 9
    ensures ReadClauses(Values(ClausesFrom(r, k)), Partial(r, k), SideAt(k)) == Some(Live(r))
    decreases 9 - k
  {
    if k < 9 {
      ReadFrom(r, k + 1);
      var rest := Values(ClausesFrom(r, k + 1));
      ValuesAppend(Clause(r, k), ClausesFrom(r, k + 1));
      ReadClause(r, k, rest);
    } else {
      assert ClausesFrom(r, 9) == [];
      assert Partial(r, 9) == Live(r);
    }
  }

  /** The intended words name the intended live rule; UFW has no masquerade rules. */
  lemma WordsRead(r: Rule)
    ensures ReadCommand(Values(RuleWords(r))) == if r.action == Masquerade then None else Some(AddRule(Live(r)))
  {
    assert Partial(r, 0) == Blank(r.action);
    ReadFrom(r, 0);
    ActionReads(r.action, ClausesFrom(r, 0), Live(r));
  }

  lemma ActionReads(a: Action, ps: seq<Piece>, live: UfwRule)
    requires ReadClauses(Values(ps), Blank(a), NoSide) == Some(live)
    ensures ReadCommand(Values([Plain("ufw")] + ([Plain(ActionText(a))] + ps)))
         == if a == Masquerade then None else Some(AddRule(live))
  {
    var args := Values([Plain("ufw")] + ([Plain(ActionText(a))] + ps));
    assert args[2..] == Values(ps);
    assert args[0] == "ufw" && args[1] == ActionText(a);
    NamesReadBack(a, In, Any);
    assert args[1] != "default";
  }

  /** Command text round trip: split with POSIX quoting, the text is exactly the intended words iff the rule's
      interface and addresses are plain; the words decode to the action, direction, log flag, interface,
      protocol, addresses, ports and comment of any rule. */
  lemma CommandRoundTrip(r: Rule)
    ensures Split(Render(RuleWords(r))) == Some(Values(RuleWords(r))) <==> PlainRule(r)
    ensures ReadCommand(Values(RuleWords(r))) == if r.action == Masquerade then None else Some(AddRule(Live(r)))
  {
    ClausesClosed(r, 0);
    SplitExactly(RuleWords(r));
    ValidIffPlain(r);
    WordsRead(r);
  }

  /** The comment is one last word: the comment without its single quotes, whatever else it holds. The text
      splits into these words iff the rule is plain. */
  lemma CommentIsOneWord(r: Rule)
    requires r.comment != ""
    ensures
      var words := Values(RuleWords(r));
      && |words| >= 2 && words[|words| - 2] == "comment" && words[|words| - 1] == DropQuotes(r.comment)
      && (Split(Render(RuleWords(r))) == Some(words) <==> PlainRule(r))
  {
    CommandRoundTrip(r);
    EndsWithComment(r, 0);
    ValuesEnd(Plain("ufw"), Plain(ActionText(r.action)), ClausesFrom(r, 0), DropQuotes(r.comment));
  }

  predicate CommentLast(ps: seq<Piece>, text: string) {
    |ps| >= 2 && ps[|ps| - 2] == Plain("comment") && ps[|ps| - 1] == Quoted(text)
  }

  lemma ValuesEnd(a: Piece, b: Piece, ps: seq<Piece>, text: string)
    requires CommentLast(ps, text)
    ensures
      var v := Values([a] + ([b] + ps));
      |v| >= 2 && v[|v| - 2] == "comment" && v[|v| - 1] == text
  {
  }

  lemma {:induction false} EndsWithComment(r: Rule, k: nat)
    requires r.comment != "" && k <= 8
    ensures CommentLast(ClausesFrom(r, k), DropQuotes(r.comment))
    decreases 9 - k
  {
    if k == 8 {
      assert ClausesFrom(r, 9) == [];
      assert ClausesFrom(r, 8) == CommentWords(r);
    } else {
      EndsWithComment(r, k + 1);
      AppendKeepsEnd(Clause(r, k), ClausesFrom(r, k + 1), DropQuotes(r.comment));
    }
  }

  lemma AppendKeepsEnd(a: seq<Piece>, b: seq<Piece>, text: string)
    requires CommentLast(b, text)
    ensures CommentLast(a + b, text)
  {
  }
}
