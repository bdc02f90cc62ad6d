/** The canonical form of `ufw status numbered` that drift detection hashes. */
module Snapshot {
  import opened Text
  import opened Encoding

  /** A status line without its `[ n]` number: what follows the first `]`, trimmed. */
  function StripNumber(line: string): string {
    var t := Trim(line);
    var i := Find(t, ']');
    if i < |t| then Trim(t[i + 1..]) else t
  }

  function StripAll(lines: seq<string>): (ss: seq<string>)
    ensures |ss| == |lines| && forall i :: 0 <= i < |lines| ==> ss[i] == StripNumber(lines[i])
  {
    seq(|lines|, i requires 0 <= i < |lines| => StripNumber(lines[i]))
  }

  function NonEmpty(ss: seq<string>): (rs: seq<string>)
    ensures forall r :: r in rs ==> r in ss
  {
    if ss == [] then []
    else NonEmpty(ss[..|ss| - 1]) + if ss[|ss| - 1] != "" then [ss[|ss| - 1]] else []
  }

  /** The lines stripped, without the empty ones. */
  function RuleLines(lines: seq<string>): seq<string> { NonEmpty(StripAll(lines)) }

  /** The rule lines of a listing: those after the two header lines. */
  function ListedRules(stdout: string): (rs: seq<string>)
    ensures forall r :: r in rs ==> '\n' !in r
  {
    var ls := Lines(stdout);
    LinesAreLines(stdout, "");
    var kept := if |ls| < 2 then [] else ls[2..];
    RuleLinesKeepLines(kept);
    RuleLines(kept)
  }

  lemma RuleLinesKeepLines(lines: seq<string>)
    requires forall l :: l in lines ==> '\n' !in l
    ensures forall r :: r in RuleLines(lines) ==> '\n' !in r
  {
    forall r | r in RuleLines(lines) ensures '\n' !in r {
      var i :| 0 <= i < |lines| && StripAll(lines)[i] == r;
      StripKeepsLine(lines[i]);
    }
  }

  lemma TrimKeepsLine(s: string)
    ensures forall c :: c in Trim(s) ==> c in s
  {
    TrimStartSubset(s);
    TrimEndSubset(TrimStart(s));
  }

  lemma TrimStartSubset(s: string)
    ensures forall c :: c in TrimStart(s) ==> c in s
  {
  }

  lemma TrimEndSubset(s: string)
    ensures forall c :: c in TrimEnd(s) ==> c in s
  {
  }

  lemma StripKeepsLine(line: string)
    ensures '\n' !in line ==> '\n' !in StripNumber(line)
  {
    var t := Trim(line);
    TrimKeepsLine(line);
    var i := Find(t, ']');
    if i < |t| {
      TrimKeepsLine(t[i + 1..]);
    }
  }

  lemma {:induction false} TrimEndPrefix(p: string, body: string)
    requires p != "" && !IsSpace(p[|p| - 1])
    ensures TrimEnd(p + body) == p + TrimEnd(body)
    decreases |body|
  {
    var s := p + body;
    if body == "" {
      assert s == p;
    } else {
      assert s[|s| - 1] == body[|body| - 1];
      assert s[..|s| - 1] == p + body[..|body| - 1];
      TrimEndPrefix(p, body[..|body| - 1]);
    }
  }

  lemma {:induction false} TrimEndTwice(x: string)
    ensures TrimEnd(TrimEnd(x)) == TrimEnd(x)
  {
    if x != "" && IsSpace(x[|x| - 1]) {
      TrimEndTwice(x[..|x| - 1]);
    }
  }

  lemma {:induction false} TrimEndOfSpaces(c: char, y: string)
    ensures TrimEnd(y) == "" ==> TrimEnd([c] + y) == TrimEnd([c])
    ensures TrimEnd(y) != "" ==> TrimEnd([c] + y) == [c] + TrimEnd(y)
    decreases |y|
  {
    var x := [c] + y;
    if y == "" {
      assert x == [c];
    } else {
      assert x[|x| - 1] == y[|y| - 1];
      assert x[..|x| - 1] == [c] + y[..|y| - 1];
      if IsSpace(y[|y| - 1]) {
        TrimEndOfSpaces(c, y[..|y| - 1]);
      }
    }
  }

  lemma {:induction false} TrimsCommute(x: string)
    ensures TrimStart(TrimEnd(x)) == TrimEnd(TrimStart(x))
  {
    if x != "" {
      assert x == [x[0]] + x[1..];
      TrimEndOfSpaces(x[0], x[1..]);
      TrimsCommute(x[1..]);
      assert [x[0]][..0] == "";
      if IsSpace(x[0]) {
        assert ([x[0]] + TrimEnd(x[1..]))[1..] == TrimEnd(x[1..]);
      }
    }
  }

  /** The number of a rule, and so its position, does not enter the canonical form. */
  lemma NumberIgnored(n: string, body: string)
    requires ']' !in n
    ensures StripNumber("[" + n + "]" + body) == Trim(body)
  {
    var p := "[" + n + "]";
    TrimNumbered(p, body);
    AfterBracket(n, TrimEnd(body));
    TrimsCommute(body);
    TrimEndTwice(TrimStart(body));
  }

  lemma TrimNumbered(p: string, body: string)
    requires p != "" && !IsSpace(p[0]) && !IsSpace(p[|p| - 1])
    ensures Trim(p + body) == p + TrimEnd(body)
  {
    assert (p + body)[0] == p[0];
    TrimEndPrefix(p, body);
  }

  lemma AfterBracket(n: string, rest: string)
    requires ']' !in n
    ensures
      var t := "[" + n + "]" + rest;
      Find(t, ']') == |n| + 1 < |t| && t[|n| + 2..] == rest
  {
    FindPrefix("[" + n, "]" + rest, ']');
    assert "[" + n + "]" + rest == "[" + n + ("]" + rest);
  }

  // ---- sorting -------------------------------------------------------------

  /** Order of strings by code point, which is the order of their UTF-8 bytes. */
  predicate Leq(a: string, b: string) {
    a == "" || (b != "" && (a[0] < b[0] || (a[0] == b[0] && Leq(a[1..], b[1..]))))
  }

  lemma LeqTotal(a: string, b: string)
    ensures Leq(a, b) || Leq(b, a)
  {
  }

  lemma {:induction false} LeqAntisymmetric(a: string, b: string)
    requires Leq(a, b) && Leq(b, a)
    ensures a == b
  {
    if a != "" {
      LeqAntisymmetric(a[1..], b[1..]);
      assert a == [a[0]] + a[1..] && b == [b[0]] + b[1..];
    }
  }

  lemma {:induction false} LeqTransitive(a: string, b: string, c: string)
    requires Leq(a, b) && Leq(b, c)
    ensures Leq(a, c)
  {
    if a != "" && a[0] == b[0] && b[0] == c[0] {
      LeqTransitive(a[1..], b[1..], c[1..]);
    }
  }

  predicate Sorted(ls: seq<string>) {
    forall i, j :: 0 <= i < j < |ls| ==> Leq(ls[i], ls[j])
  }

  function Insert(x: string, ls: seq<string>): seq<string> {
    if ls == [] || Leq(x, ls[0]) then [x] + ls else [ls[0]] + Insert(x, ls[1..])
  }

  lemma {:induction false} InsertSorts(x: string, ls: seq<string>)
    requires Sorted(ls)
    ensures Sorted(Insert(x, ls)) && multiset(Insert(x, ls)) == multiset{x} + multiset(ls)
  {
    if ls == [] {
    } else if Leq(x, ls[0]) {
      forall j | 0 <= j < |ls| ensures Leq(x, ls[j]) {
        if j > 0 { LeqTransitive(x, ls[0], ls[j]); }
      }
    } else {
      var rest := Insert(x, ls[1..]);
      InsertSorts(x, ls[1..]);
      LeqTotal(x, ls[0]);
      assert ls == [ls[0]] + ls[1..];
      forall j | 0 <= j < |rest| ensures Leq(ls[0], rest[j]) {
        assert rest[j] in multiset(rest);
        if rest[j] != x {
          assert rest[j] in ls[1..];
        }
      }
    }
  }

  /** `lines.sort()`. */
  function Sort(ls: seq<string>): seq<string> {
    if ls == [] then [] else Insert(ls[0], Sort(ls[1..]))
  }

  lemma {:induction false} SortSorts(ls: seq<string>)
    ensures Sorted(Sort(ls)) && multiset(Sort(ls)) == multiset(ls)
  {
    if ls != [] {
      SortSorts(ls[1..]);
      InsertSorts(ls[0], Sort(ls[1..]));
      assert ls == [ls[0]] + ls[1..];
    }
  }

  /** A multiset has one sorted arrangement, so any correct sort gives the same list. */
  lemma {:induction false} SortedUnique(a: seq<string>, b: seq<string>)
    requires Sorted(a) && Sorted(b) && multiset(a) == multiset(b)
    ensures a == b
  {
    if a == [] {
      assert multiset(b) == multiset{};
      assert |multiset(b)| == |b|;
    } else {
      assert a[0] in multiset(b) && a[0] in b;
      assert b[0] in b && b[0] in multiset(a) && b[0] in a;
      assert Leq(a[0], b[0]) by { LeqReflexive(a[0]); }
      assert Leq(b[0], a[0]) by { LeqReflexive(b[0]); }
      LeqAntisymmetric(a[0], b[0]);
      assert a == [a[0]] + a[1..] && b == [b[0]] + b[1..];
      assert multiset(a[1..]) == multiset(a) - multiset{a[0]};
      assert multiset(b[1..]) == multiset(b) - multiset{b[0]};
      SortedUnique(a[1..], b[1..]);
    }
  }

  lemma LeqReflexive(a: string)
    ensures Leq(a, a)
  {
  }

  // ---- hashing -------------------------------------------------------------

  /** What the hasher is fed: each line and a newline. */
  function LinesFeed(ls: seq<string>): Bytes {
    if ls == [] then [] else LinesFeed(ls[..|ls| - 1]) + Utf8(ls[|ls| - 1]) + [10]
  }

  function SnapshotHash(digest: Digest, stdout: string): string {
    digest(LinesFeed(Sort(ListedRules(stdout))))
  }

  /** The stripped lines that are not empty. */
  method CollectRules(kept: seq<string>) returns (rules: seq<string>)
    ensures rules == RuleLines(kept)
  {
    rules := [];
    for i := 0 to |kept|
      invariant rules == RuleLines(kept[..i])
    {
      var r := StripNumber(kept[i]);
      assert kept[..i + 1] == kept[..i] + [kept[i]];
      RuleLinesAppend(kept[..i], kept[i]);
      if r != "" {
        rules := rules + [r];
      }
    }
    assert kept[..|kept|] == kept;
  }

  /** The line by line feed of the hasher. */
  method FeedLines(lines: seq<string>) returns (hasher: Bytes)
    ensures hasher == LinesFeed(lines)
  {
    hasher := [];
    for i := 0 to |lines|
      invariant hasher == LinesFeed(lines[..i])
    {
      hasher := hasher + Utf8(lines[i]);
      hasher := hasher + [10];
      assert lines[..i + 1][..i] == lines[..i];
    }
    assert lines[..|lines|] == lines;
  }

  /** `UfwBackend::snapshot`: strip, filter, sort, hash; an empty hash when the status command fails. */
  method TakeSnapshot(digest: Digest, ok: bool, stdout: string) returns (rules: seq<string>, hash: string)
    ensures ok ==> rules == Sort(ListedRules(stdout)) && hash == SnapshotHash(digest, stdout)
    ensures !ok ==> rules == [] && hash == ""
  {
    if !ok {
      return [], "";
    }
    var ls := Lines(stdout);
    rules := CollectRules(if |ls| < 2 then [] else ls[2..]);
    rules := Sort(rules);
    var hasher := FeedLines(rules);
    hash := digest(hasher);
  }

  function Join(ls: seq<string>): string {
    if ls == [] then "" else ls[0] + "\n" + Join(ls[1..])
  }

  lemma {:induction false} FeedFront(l: string, ls: seq<string>)
    ensures LinesFeed([l] + ls) == Utf8(l) + [10] + LinesFeed(ls)
    decreases |ls|
  {
    var all := [l] + ls;
    if ls == [] {
      assert all[..0] == [] && all[0] == l;
      assert LinesFeed([]) + Utf8(l) + [10] == Utf8(l) + [10] + LinesFeed([]);
    } else {
      var n := |ls| - 1;
      assert all[..|all| - 1] == [l] + ls[..n];
      assert all[|all| - 1] == ls[n];
      FeedFront(l, ls[..n]);
      Regroup4(Utf8(l) + [10], LinesFeed(ls[..n]), Utf8(ls[n]), [10]);
    }
  }

  /** The hash input is the UTF-8 form of the joined lines. */
  lemma {:induction false} FeedIsText(ls: seq<string>)
    ensures LinesFeed(ls) == Utf8(Join(ls))
  {
    if ls != [] {
      FeedIsText(ls[1..]);
      assert ls == [ls[0]] + ls[1..];
      FeedFront(ls[0], ls[1..]);
      Utf8Append(ls[0] + "\n", Join(ls[1..]));
      Utf8Append(ls[0], "\n");
      assert Utf8("\n") == [10] by { assert Utf8("") == []; assert "\n"[1..] == ""; }
    }
  }

  lemma {:induction false} JoinInjective(a: seq<string>, b: seq<string>)
    requires forall l :: l in a || l in b ==> '\n' !in l
    requires Join(a) == Join(b)
    ensures a == b
  {
    assert a != [] <==> |Join(a)| >= 1;
    assert b != [] <==> |Join(b)| >= 1;
    if a != [] {
      FindAfter(a[0], '\n', Join(a[1..]));
      FindAfter(b[0], '\n', Join(b[1..]));
      var i := Find(Join(a), '\n');
      assert Join(a)[..i] == a[0] && Join(b)[..i] == b[0];
      assert Join(a)[i + 1..] == Join(a[1..]) && Join(b)[i + 1..] == Join(b[1..]);
      JoinInjective(a[1..], b[1..]);
      assert a == [a[0]] + a[1..] && b == [b[0]] + b[1..];
    }
  }

  predicate OneLiners(ls: seq<string>) {
    forall l :: l in ls ==> '\n' !in l
  }

  lemma FeedInjective(x: seq<string>, y: seq<string>)
    requires OneLiners(x) && OneLiners(y) && LinesFeed(x) == LinesFeed(y)
    ensures x == y
  {
    FeedIsText(x);
    FeedIsText(y);
    Utf8Injective(Join(x), Join(y));
    JoinInjective(x, y);
  }

  lemma SortKeepsLines(ls: seq<string>)
    requires OneLiners(ls)
    ensures OneLiners(Sort(ls))
  {
    SortSorts(ls);
    forall l | l in Sort(ls) ensures '\n' !in l {
      assert l in multiset(Sort(ls));
    }
  }

  lemma SortedFeedIff(a: seq<string>, b: seq<string>)
    requires OneLiners(a) && OneLiners(b)
    ensures LinesFeed(Sort(a)) == LinesFeed(Sort(b)) <==> multiset(a) == multiset(b)
  {
    SortSorts(a);
    SortSorts(b);
    SortKeepsLines(a);
    SortKeepsLines(b);
    if multiset(a) == multiset(b) {
      SortedUnique(Sort(a), Sort(b));
    } else if LinesFeed(Sort(a)) == LinesFeed(Sort(b)) {
      FeedInjective(Sort(a), Sort(b));
    }
  }

  /** Two listings feed the hash the same bytes iff they hold the same multiset of stripped rule lines. */
  lemma CanonicalForm(a: string, b: string)
    ensures LinesFeed(Sort(ListedRules(a))) == LinesFeed(Sort(ListedRules(b)))
       <==> multiset(ListedRules(a)) == multiset(ListedRules(b))
  {
    SortedFeedIff(ListedRules(a), ListedRules(b));
  }

  /** Reordering or renumbering never shows as drift; any other change does, short of a hash collision
      between the two listings' own canonical bytes. */
  lemma DriftIsChangedLines(digest: Digest, a: string, b: string)
    requires NoCollision(digest, {LinesFeed(Sort(ListedRules(a))), LinesFeed(Sort(ListedRules(b)))})
    ensures SnapshotHash(digest, a) == SnapshotHash(digest, b)
       <==> multiset(ListedRules(a)) == multiset(ListedRules(b))
  {
    CanonicalForm(a, b);
  }

  // ---- which lines count ---------------------------------------------------

  /** A carriage return at the end of a line is white space. */
  lemma TrimCrIgnored(l: string)
    ensures Trim(StripCr(l)) == Trim(l)
  {
    var c := StripCr(l);
    if c != l {
      assert l == c + "\r";
      TrimEndSpaces(c, "\r");
      TrimsCommute(c);
      TrimsCommute(l);
    }
  }

  lemma StripCrIgnored(l: string)
    ensures StripNumber(StripCr(l)) == StripNumber(l)
  {
    TrimCrIgnored(l);
  }

  lemma RuleLinesAppend(ls: seq<string>, l: string)
    ensures RuleLines(ls + [l]) == RuleLines(ls) + if StripNumber(l) != "" then [StripNumber(l)] else []
  {
    assert StripAll(ls + [l])[..|ls|] == StripAll(ls);
  }

  /** The first two lines list nothing. */
  lemma HeadersListNothing(s: string)
    requires |Lines(s)| <= 2
    ensures ListedRules(s) == []
  {
  }

  /** A line added at the end of a listing is listed without its number, unless it is empty. */
  lemma AddedLineListed(s: string, l: string)
    requires WholeLines(s) && |Lines(s)| >= 2 && '\n' !in l
    ensures ListedRules(s + (l + "\n")) == ListedRules(s) + if StripNumber(l) != "" then [StripNumber(l)] else []
  {
    LinesAppend(s, l + "\n", "");
    LinesCut(l, "", "");
    assert l + "\n" + "" == l + "\n" && "" + l == l && Lines("") == [];
    var before, after := Lines(s), Lines(s + (l + "\n"));
    assert after == before + [StripCr(l)] && after[2..] == before[2..] + [StripCr(l)];
    RuleLinesAppend(before[2..], StripCr(l));
    StripCrIgnored(l);
  }

  /** So a rule line added out of band is drift, short of a collision. */
  lemma AddedLineIsDrift(digest: Digest, s: string, l: string)
    requires WholeLines(s) && |Lines(s)| >= 2 && '\n' !in l && StripNumber(l) != ""
    requires NoCollision(digest, {LinesFeed(Sort(ListedRules(s))), LinesFeed(Sort(ListedRules(s + (l + "\n"))))})
    ensures SnapshotHash(digest, s + (l + "\n")) != SnapshotHash(digest, s)
  {
    AddedLineListed(s, l);
    DriftIsChangedLines(digest, s, s + (l + "\n"));
    assert |multiset(ListedRules(s + (l + "\n")))| == |multiset(ListedRules(s))| + 1;
  }

  // ---- numbered listings ---------------------------------------------------

  /** What `ufw status numbered` prints: two header lines, then a numbered line for each rule. */
  function NumberedLines(ns: seq<string>, rules: seq<string>): seq<string>
    requires |ns| == |rules|
  {
    seq(|rules|, i requires 0 <= i < |rules| => "[" + ns[i] + "] " + rules[i])
  }

  function Listing(head: (string, string), ns: seq<string>, rules: seq<string>): string
    requires |ns| == |rules|
  {
    head.0 + "\n" + (head.1 + "\n" + Join(NumberedLines(ns, rules)))
  }

  /** Rule texts are one line each, not empty, with no white space at the ends; numbers hold no bracket. */
  predicate Printable(head: (string, string), ns: seq<string>, rules: seq<string>) {
    && '\n' !in head.0 && '\n' !in head.1 && |ns| == |rules|
    && (forall i :: 0 <= i < |ns| ==> ']' !in ns[i] && '\n' !in ns[i])
    && (forall i :: 0 <= i < |rules| ==> '\n' !in rules[i] && rules[i] != "" && Trimmed(rules[i]))
  }

  lemma {:induction false} JoinedLines(ls: seq<string>)
    requires forall i :: 0 <= i < |ls| ==> '\n' !in ls[i]
    ensures |Lines(Join(ls))| == |ls|
    ensures forall i :: 0 <= i < |ls| ==> Lines(Join(ls))[i] == StripCr(ls[i])
  {
    if ls != [] {
      JoinedLines(ls[1..]);
      LinesCut(ls[0], Join(ls[1..]), "");
      assert "" + ls[0] == ls[0];
    }
  }

  /** A numbered line is listed as its rule. */
  lemma NumberedStrips(n: string, rule: string)
    requires ']' !in n && Trimmed(rule)
    ensures StripNumber(StripCr("[" + n + "] " + rule)) == rule
  {
    StripCrIgnored("[" + n + "] " + rule);
    assert "[" + n + "] " + rule == "[" + n + "]" + (" " + rule) && " " + rule == " " + rule + "";
    NumberIgnored(n, " " + rule);
    TrimPadded(" ", rule, "");
  }

  lemma {:induction false} NoneEmpty(rules: seq<string>)
    requires forall i :: 0 <= i < |rules| ==> rules[i] != ""
    ensures NonEmpty(rules) == rules
  {
    if rules != [] {
      NoneEmpty(rules[..|rules| - 1]);
    }
  }

  /** Such a listing lists exactly its rules. */
  lemma ListingLists(head: (string, string), ns: seq<string>, rules: seq<string>)
    requires Printable(head, ns, rules)
    ensures ListedRules(Listing(head, ns, rules)) == rules
  {
    var ls := NumberedLines(ns, rules);
    forall i | 0 <= i < |ls| ensures '\n' !in ls[i] {
      assert '\n' !in ns[i] && '\n' !in rules[i] && ls[i] == "[" + ns[i] + "] " + rules[i];
    }
    JoinedLines(ls);
    LinesCut(head.0, head.1 + "\n" + Join(ls), "");
    LinesCut(head.1, Join(ls), "");
    var all, body := Lines(Listing(head, ns, rules)), Lines(Join(ls));
    assert all[2..] == body;
    forall i | 0 <= i < |body| ensures StripNumber(body[i]) == rules[i] {
      NumberedStrips(ns[i], rules[i]);
    }
    assert StripAll(body) == rules;
    NoneEmpty(rules);
  }

  /** Drift, in terms of what is printed: whatever the headers and the numbers, two listings have one hash iff they
      show the same rules as often, short of a collision of the two. */
  lemma DriftIffRulesDiffer(
    digest: Digest, h: (string, string), ns: seq<string>, a: seq<string>,
    k: (string, string), ms: seq<string>, b: seq<string>)
    requires Printable(h, ns, a) && Printable(k, ms, b)
    requires NoCollision(digest, {LinesFeed(Sort(a)), LinesFeed(Sort(b))})
    ensures SnapshotHash(digest, Listing(h, ns, a)) == SnapshotHash(digest, Listing(k, ms, b))
       <==> multiset(a) == multiset(b)
  {
    ListingLists(h, ns, a);
    ListingLists(k, ms, b);
    DriftIsChangedLines(digest, Listing(h, ns, a), Listing(k, ms, b));
  }
}
