/** POSIX word splitting, as `shlex::split` does it, and the texts that survive it. */
module Shlex {
  import opened Text

  predicate IsBlank(c: char) { c == ' ' || c == '\t' || c == '\n' }

  datatype WordResult = Bad | Got(word: string, rest: string)

  /** Reads the rest of a word outside quotes. */
  function Word(s: string, acc: string): (r: WordResult)
    ensures r.Got? ==> |r.rest| <= |s| && (s != "" ==> |r.rest| < |s|)
    ensures r.Got? ==> |r.word| + |r.rest| <= |acc| + |s|
    decreases |s|
  {
    if s == "" then Got(acc, "")
    else if s[0] == '"' then Double(s[1..], acc)
    else if s[0] == '\'' then Single(s[1..], acc)
    else if s[0] == '\\' then
      if |s| == 1 then Bad
      else Word(s[2..], if s[1] == '\n' then acc else acc + [s[1]])
    else if IsBlank(s[0]) then Got(acc, s[1..])
    else Word(s[1..], acc + [s[0]])
  }

  /** Reads inside single quotes. */
  function Single(s: string, acc: string): (r: WordResult)
    ensures r.Got? ==> |r.rest| <= |s| && |r.word| + |r.rest| <= |acc| + |s|
    decreases |s|
  {
    if s == "" then Bad
    else if s[0] == '\'' then Word(s[1..], acc)
    else Single(s[1..], acc + [s[0]])
  }

  /** Reads inside double quotes, where a backslash escapes only `$`, a backquote, `"`, `\` and newline. */
  function Double(s: string, acc: string): (r: WordResult)
    ensures r.Got? ==> |r.rest| <= |s| && |r.word| + |r.rest| <= |acc| + |s|
    decreases |s|
  {
    if s == "" then Bad
    else if s[0] == '"' then Word(s[1..], acc)
    else if s[0] == '\\' then
      if |s| == 1 then Bad
      else if s[1] in ['$', '`', '"', '\\'] then Double(s[2..], acc + [s[1]])
      else if s[1] == '\n' then Double(s[2..], acc)
      else Double(s[2..], acc + [s[0], s[1]])
    else Double(s[1..], acc + [s[0]])
  }

  /** `shlex::split`: all words, or `None` when a quote or an escape is left open. */
  function Split(s: string): Option<seq<string>>
    decreases |s|
  {
    if s == "" then Some([])
    else if IsBlank(s[0]) then Split(s[1..])
    else if s[0] == '#' then
      var i := Find(s, '\n');
      if i == |s| then Some([]) else Split(s[i + 1..])
    else
      match Word(s, "")
      case Bad => None
      case Got(w, rest) =>
        match Split(rest)
        case None => None
        case Some(ws) => Some([w] + ws)
  }

  // ---- what survives -------------------------------------------------------

  /** Kept as it is inside a word. */
  predicate IsOrdinary(c: char) { !IsBlank(c) && c != '"' && c != '\'' && c != '\\' }

  predicate AllOrdinary(w: string) {
    forall i :: 0 <= i < |w| ==> IsOrdinary(w[i])
  }

  /** A text that needs no quoting. */
  predicate IsPlain(w: string) {
    w != "" && w[0] != '#' && AllOrdinary(w)
  }

  lemma {:induction false} WordOrdinary(w: string, rest: string, acc: string)
    requires AllOrdinary(w)
    ensures Word(w + rest, acc) == Word(rest, acc + w)
    decreases |w|
  {
    if w == "" {
      assert w + rest == rest;
      assert acc + w == acc;
    } else {
      assert (w + rest)[1..] == w[1..] + rest;
      WordOrdinary(w[1..], rest, acc + [w[0]]);
      assert acc + [w[0]] + w[1..] == acc + w;
    }
  }

  lemma {:induction false} SingleQuoted(w: string, rest: string, acc: string)
    requires '\'' !in w
    ensures Single(w + "'" + rest, acc) == Word(rest, acc + w)
    decreases |w|
  {
    var s := w + "'" + rest;
    if w == "" {
      assert s[1..] == rest;
      assert acc + w == acc;
    } else {
      assert s[1..] == w[1..] + "'" + rest;
      SingleQuoted(w[1..], rest, acc + [w[0]]);
      assert acc + [w[0]] + w[1..] == acc + w;
    }
  }

  /** A word of a command line: written as it is, or in single quotes. */
  datatype Piece = Plain(value: string) | Quoted(value: string)
  {
    predicate Valid() { if Plain? then IsPlain(value) else '\'' !in value }
    function Render(): string { if Plain? then value else "'" + value + "'" }
  }

  predicate AllValid(ps: seq<Piece>) {
    forall i :: 0 <= i < |ps| ==> ps[i].Valid()
  }

  /** The pieces with one blank between them. */
  function Render(ps: seq<Piece>): string {
    if ps == [] then ""
    else if |ps| == 1 then ps[0].Render()
    else ps[0].Render() + " " + Render(ps[1..])
  }

  function Values(ps: seq<Piece>): (vs: seq<string>)
    ensures |vs| == |ps| && forall i :: 0 <= i < |ps| ==> vs[i] == ps[i].value
  {
    seq(|ps|, i requires 0 <= i < |ps| => ps[i].value)
  }

  lemma ReadPlain(w: string, rest: string)
    requires IsPlain(w) && (rest == "" || IsBlank(rest[0]))
    ensures Word(w + rest, "") == Got(w, if rest == "" then "" else rest[1..])
  {
    WordOrdinary(w, rest, "");
    assert "" + w == w;
  }

  lemma ReadQuoted(w: string, rest: string)
    requires '\'' !in w && (rest == "" || IsBlank(rest[0]))
    ensures Word("'" + w + "'" + rest, "") == Got(w, if rest == "" then "" else rest[1..])
  {
    Opened(w + "'" + rest);
    assert "'" + w + "'" + rest == "'" + (w + "'" + rest);
    SingleQuoted(w, rest, "");
    assert "" + w == w;
  }

  lemma Opened(s: string)
    ensures Word("'" + s, "") == Single(s, "")
  {
    assert ("'" + s)[1..] == s;
  }

  /** One rendered piece is read back, whatever blank or end follows. */
  lemma ReadPiece(p: Piece, rest: string)
    requires p.Valid() && (rest == "" || IsBlank(rest[0]))
    ensures
      var s := p.Render() + rest;
      s != "" && !IsBlank(s[0]) && s[0] != '#'
      && Word(s, "") == Got(p.value, if rest == "" then "" else rest[1..])
  {
    if p.Plain? {
      ReadPlain(p.value, rest);
      assert IsOrdinary(p.value[0]);
    } else {
      ReadQuoted(p.value, rest);
    }
  }

  lemma SplitStep(s: string, w: string, rest: string, ws: seq<string>)
    requires s != "" && !IsBlank(s[0]) && s[0] != '#'
    requires Word(s, "") == Got(w, rest) && Split(rest) == Some(ws)
    ensures Split(s) == Some([w] + ws)
  {
  }

  /** Splitting a rendered command line gives back exactly its words. */
  lemma {:induction false} SplitRender(ps: seq<Piece>)
    requires AllValid(ps)
    ensures Split(Render(ps)) == Some(Values(ps))
  {
    if ps != [] {
      SplitRender(ps[1..]);
      SplitRenderStep(ps[0], ps[1..]);
      ValuesCons(ps[0], ps[1..]);
      assert ps == [ps[0]] + ps[1..];
    }
  }

  lemma ValuesCons(p: Piece, ps: seq<Piece>)
    ensures Values([p] + ps) == [p.value] + Values(ps)
  {
  }

  lemma LastWord(p: Piece)
    requires p.Valid()
    ensures Split(p.Render()) == Some([p.value])
  {
    ReadPiece(p, "");
    assert p.Render() + "" == p.Render();
    SplitStep(p.Render(), p.value, "", []);
    assert [p.value] + [] == [p.value];
  }

  lemma RenderCons(p: Piece, ps: seq<Piece>)
    ensures Render([p] + ps) == if ps == [] then p.Render() else p.Render() + " " + Render(ps)
  {
    assert ([p] + ps)[1..] == ps;
  }

  lemma SplitRenderStep(p: Piece, tail: seq<Piece>)
    requires p.Valid() && Split(Render(tail)) == Some(Values(tail))
    ensures Split(Render([p] + tail)) == Some([p.value] + Values(tail))
  {
    RenderCons(p, tail);
    if tail == [] {
      LastWord(p);
      assert [p.value] + Values([]) == [p.value];
    } else {
      SplitFirst(p, Render(tail));
    }
  }

  /** Words written at the front of a text come out first, whatever follows them. */
  lemma {:induction false} SplitFront(ps: seq<Piece>, rest: string)
    requires ps != [] && AllValid(ps)
    ensures Split(Render(ps) + " " + rest) == Prefixed(Values(ps), Split(rest))
  {
    var tail := ps[1..];
    if tail == [] {
      assert ps == [ps[0]] && Values(ps) == [ps[0].value];
      SplitFirst(ps[0], rest);
    } else {
      SplitFront(tail, rest);
      SplitFirst(ps[0], Render(tail) + " " + rest);
      Regroup4(ps[0].Render() + " ", Render(tail), " ", rest);
      assert ps == [ps[0]] + tail;
      ValuesCons(ps[0], tail);
      if Split(rest).Some? {
        Regroup([ps[0].value], Values(tail), Split(rest).value);
      }
    }
  }

  function Prefixed(front: seq<string>, words: Option<seq<string>>): Option<seq<string>> {
    match words case Some(ws) => Some(front + ws) case None => None
  }

  lemma SplitFirst(p: Piece, rest: string)
    requires p.Valid()
    ensures Split(p.Render() + " " + rest) == Prefixed([p.value], Split(rest))
  {
    ReadPiece(p, " " + rest);
    assert (" " + rest)[1..] == rest;
    assert p.Render() + " " + rest == p.Render() + (" " + rest);
  }

  // ---- nothing else survives -----------------------------------------------

  /** The number of characters other than single quotes. */
  function Weight(s: string): nat {
    if s == "" then 0 else CharWeight(s[0]) + Weight(s[1..])
  }

  function CharWeight(c: char): nat { if c == '\'' then 0 else 1 }

  lemma {:induction false} WeightAppend(a: string, b: string)
    ensures Weight(a + b) == Weight(a) + Weight(b)
  {
    if a == "" {
      assert a + b == b;
    } else {
      assert (a + b)[1..] == a[1..] + b;
      WeightAppend(a[1..], b);
    }
  }

  predicate HasQuote(s: string) { exists i :: 0 <= i < |s| && s[i] == '\'' }

  lemma Pushed(acc: string, c: char)
    ensures Weight(acc + [c]) == Weight(acc) + CharWeight(c)
    ensures HasQuote(acc + [c]) <==> HasQuote(acc) || c == '\''
  {
    WeightAppend(acc, [c]);
    assert [c][1..] == "";
    var t := acc + [c];
    assert t[|acc|] == c;
    if HasQuote(acc) {
      var i :| 0 <= i < |acc| && acc[i] == '\'';
      assert t[i] == '\'';
    }
  }

  /** A separator is spent when something follows the word. */
  function Separator(rest: string): nat { if rest == "" then 0 else 1 }

  /** Getting a single quote into a word costs an escape or a double quote. */
  function Surcharge(acc: string, word: string): nat {
    if HasQuote(word) && !HasQuote(acc) then 1 else 0
  }

  /** What a word and the rest weigh together, with the price of what is not copied. */
  function Spent(r: WordResult): nat
    requires r.Got?
  {
    Weight(r.word) + Weight(r.rest) + Separator(r.rest)
  }

  lemma {:induction false} WordCost(s: string, acc: string)
    requires Word(s, acc).Got?
    ensures Spent(Word(s, acc)) + Surcharge(acc, Word(s, acc).word) <= Weight(acc) + Weight(s)
    decreases |s|
  {
    if s != "" {
      if s[0] == '"' {
        DoubleCost(s[1..], acc);
      } else if s[0] == '\'' {
        SingleCost(s[1..], acc);
      } else if s[0] == '\\' {
        EscapeCost(s, acc);
      } else if !IsBlank(s[0]) {
        Pushed(acc, s[0]);
        WordCost(s[1..], acc + [s[0]]);
      }
    }
  }

  /** A backslash outside quotes is not copied. */
  lemma {:induction false} EscapeCost(s: string, acc: string)
    requires s != "" && s[0] == '\\' && Word(s, acc).Got?
    ensures Spent(Word(s, acc)) < Weight(acc) + Weight(s)
    decreases |s|, 0
  {
    assert s[1..][1..] == s[2..];
    if s[1] == '\n' {
      WordCost(s[2..], acc);
    } else {
      Pushed(acc, s[1]);
      WordCost(s[2..], acc + [s[1]]);
    }
  }

  lemma {:induction false} SingleCost(s: string, acc: string)
    requires Single(s, acc).Got?
    ensures Spent(Single(s, acc)) + Surcharge(acc, Single(s, acc).word) <= Weight(acc) + Weight(s)
    decreases |s|
  {
    if s[0] == '\'' {
      WordCost(s[1..], acc);
    } else {
      Pushed(acc, s[0]);
      SingleCost(s[1..], acc + [s[0]]);
    }
  }

  lemma {:induction false} DoubleCost(s: string, acc: string)
    requires Double(s, acc).Got?
    ensures Spent(Double(s, acc)) <= Weight(acc) + Weight(s)
    decreases |s|
  {
    if s[0] == '"' {
      WordCost(s[1..], acc);
    } else if s[0] == '\\' {
      DoubleEscapeCost(s, acc);
    } else {
      Pushed(acc, s[0]);
      DoubleCost(s[1..], acc + [s[0]]);
    }
  }

  lemma {:induction false} DoubleEscapeCost(s: string, acc: string)
    requires s != "" && s[0] == '\\' && Double(s, acc).Got?
    ensures Spent(Double(s, acc)) <= Weight(acc) + Weight(s)
    decreases |s|, 0
  {
    assert s[1..][1..] == s[2..];
    if s[1] in ['$', '`', '"', '\\'] {
      Pushed(acc, s[1]);
      DoubleCost(s[2..], acc + [s[1]]);
    } else if s[1] == '\n' {
      DoubleCost(s[2..], acc);
    } else {
      Pushed(acc, s[0]);
      Pushed(acc + [s[0]], s[1]);
      assert acc + [s[0], s[1]] == acc + [s[0]] + [s[1]];
      DoubleCost(s[2..], acc + [s[0], s[1]]);
    }
  }

  /** What words weigh, each with one separator. */
  function WordsWeight(ws: seq<string>): nat {
    if ws == [] then 0 else Weight(ws[0]) + 1 + WordsWeight(ws[1..])
  }

  predicate AnyQuote(ws: seq<string>) { exists i :: 0 <= i < |ws| && HasQuote(ws[i]) }

  lemma FirstOrLater(w: string, ws: seq<string>)
    ensures AnyQuote([w] + ws) ==> HasQuote(w) || AnyQuote(ws)
    ensures WordsWeight([w] + ws) == Weight(w) + 1 + WordsWeight(ws)
  {
    assert ([w] + ws)[1..] == ws;
    if AnyQuote([w] + ws) && !HasQuote(w) {
      var i :| 0 <= i < |[w] + ws| && HasQuote(([w] + ws)[i]);
      assert ws[i - 1] == ([w] + ws)[i];
    }
  }

  lemma {:induction false} SuffixWeight(s: string, k: nat)
    requires k <= |s|
    ensures Weight(s[k..]) <= Weight(s)
  {
    assert s == s[..k] + s[k..];
    WeightAppend(s[..k], s[k..]);
  }

  /** Splitting never makes text heavier, and makes it lighter when a single quote comes out. */
  lemma {:induction false} SplitCost(s: string)
    requires Split(s).Some?
    ensures WordsWeight(Split(s).value) + Tally(AnyQuote(Split(s).value)) <= Weight(s) + 1
    ensures s != "" && (IsBlank(s[0]) || s[0] == '#') ==> WordsWeight(Split(s).value) <= Weight(s)
    decreases |s|
  {
    if s != "" {
      if IsBlank(s[0]) {
        SplitCost(s[1..]);
      } else if s[0] == '#' {
        var i := Find(s, '\n');
        if i < |s| {
          SplitCost(s[i + 1..]);
          assert s[1..][i..] == s[i + 1..];
          SuffixWeight(s[1..], i);
        }
      } else {
        var r := Word(s, "");
        WordCost(s, "");
        SplitCost(r.rest);
        FirstOrLater(r.word, Split(r.rest).value);
      }
    }
  }

  /** Quoted words keep no single quote; unquoted ones may be any text. */
  predicate QuotesClosed(ps: seq<Piece>) {
    forall i :: 0 <= i < |ps| && ps[i].Quoted? ==> ps[i].Valid()
  }

  lemma PieceWeight(p: Piece)
    ensures Weight(p.Render()) == Weight(p.value)
  {
    if p.Quoted? {
      WeightAppend("'" + p.value, "'");
      WeightAppend("'", p.value);
      assert Weight("'") == 0 by { assert "'"[1..] == ""; }
    }
  }

  lemma {:induction false} RenderWeight(ps: seq<Piece>)
    requires ps != []
    ensures Weight(Render(ps)) + 1 == WordsWeight(Values(ps))
  {
    PieceWeight(ps[0]);
    var tail := ps[1..];
    assert Values(ps)[0] == ps[0].value && Values(ps)[1..] == Values(tail);
    if tail != [] {
      RenderWeight(tail);
      WeightAppend(ps[0].Render() + " ", Render(tail));
      Pushed(ps[0].Render(), ' ');
    }
  }

  /** Copied without loss, a text is ordinary throughout. */
  lemma {:induction false} LosslessIsOrdinary(v: string, t: string, acc: string)
    requires !HasQuote(v)
    requires Word(v + t, acc).Got? && Word(v + t, acc).word == acc + v
    requires Spent(Word(v + t, acc)) >= Weight(acc) + Weight(v + t)
    ensures AllOrdinary(v)
    decreases |v|
  {
    if v != "" {
      var s := v + t;
      assert s[0] == v[0] && s[1..] == v[1..] + t;
      assert v[0] != '\'';
      if v[0] == '"' {
        DoubleCost(s[1..], acc);
      } else if v[0] == '\\' {
        EscapeCost(s, acc);
      } else if !IsBlank(v[0]) {
        Pushed(acc, v[0]);
        assert acc + v == acc + [v[0]] + v[1..];
        NoQuoteLater(v);
        LosslessIsOrdinary(v[1..], t, acc + [v[0]]);
      }
    }
  }

  lemma NoQuoteLater(v: string)
    requires v != "" && !HasQuote(v)
    ensures !HasQuote(v[1..])
  {
  }

  /** The first of the words that survive is plain. */
  lemma FirstIsPlain(v: string, t: string, ws: seq<string>)
    requires t == "" || IsBlank(t[0])
    requires Split(v + t) == Some([v] + ws) && WordsWeight([v] + ws) == Weight(v + t) + 1
    ensures IsPlain(v)
  {
    var s := v + t;
    SplitCost(s);
    assert ([v] + ws)[0] == v;
    assert !HasQuote(v);
    assert v == "" ==> s == t;
    assert s[0] == v[0] && !IsBlank(s[0]) && s[0] != '#';
    var r := Word(s, "");
    assert [r.word] + Split(r.rest).value == [v] + ws;
    SameParts(r.word, Split(r.rest).value, v, ws);
    SplitCost(r.rest);
    FirstOrLater(v, ws);
    assert "" + v == v;
    LosslessIsOrdinary(v, t, "");
  }

  lemma SameParts(a: string, x: seq<string>, b: string, y: seq<string>)
    requires [a] + x == [b] + y
    ensures a == b && x == y
  {
    assert ([a] + x)[0] == a && ([b] + y)[0] == b;
    assert ([a] + x)[1..] == x && ([b] + y)[1..] == y;
  }

  lemma RenderSplits(p: Piece, tail: seq<Piece>)
    ensures
      var t := if tail == [] then "" else " " + Render(tail);
      Render([p] + tail) == p.Render() + t && (tail != [] ==> t[1..] == Render(tail))
  {
    RenderCons(p, tail);
    if tail == [] {
      assert p.Render() + "" == p.Render();
    } else {
      assert (" " + Render(tail))[1..] == Render(tail);
      Regroup(p.Render(), " ", Render(tail));
    }
  }

  lemma FirstPieceValid(p: Piece, tail: seq<Piece>)
    requires p.Quoted? ==> p.Valid()
    requires Split(Render([p] + tail)) == Some([p.value] + Values(tail))
    ensures p.Valid()
  {
    if p.Plain? {
      RenderSplits(p, tail);
      RenderWeight([p] + tail);
      ValuesCons(p, tail);
      FirstIsPlain(p.value, if tail == [] then "" else " " + Render(tail), Values(tail));
    }
  }

  lemma RestSurvives(p: Piece, tail: seq<Piece>)
    requires p.Valid() && Split(Render([p] + tail)) == Some([p.value] + Values(tail))
    ensures Split(Render(tail)) == Some(Values(tail))
  {
    if tail != [] {
      var s := Render([p] + tail);
      RenderSplits(p, tail);
      ReadPiece(p, " " + Render(tail));
      SameParts(p.value, Split(Render(tail)).value, p.value, Values(tail));
    }
  }

  lemma {:induction false} OnlyValidSurvive(ps: seq<Piece>)
    requires QuotesClosed(ps) && Split(Render(ps)) == Some(Values(ps))
    ensures AllValid(ps)
  {
    if ps != [] {
      var p, tail := ps[0], ps[1..];
      assert ps == [p] + tail;
      ValuesCons(p, tail);
      FirstPieceValid(p, tail);
      RestSurvives(p, tail);
      OnlyValidSurvive(tail);
    }
  }

  /** A command line splits into the words meant by it iff every unquoted one of them is plain. */
  lemma SplitExactly(ps: seq<Piece>)
    requires QuotesClosed(ps)
    ensures Split(Render(ps)) == Some(Values(ps)) <==> AllValid(ps)
  {
    if AllValid(ps) {
      SplitRender(ps);
    } else if Split(Render(ps)) == Some(Values(ps)) {
      OnlyValidSurvive(ps);
    }
  }

  /** A text passes through unquoted as one word, unchanged, iff it is plain. */
  lemma PlainExactly(s: string)
    ensures Split(s) == Some([s]) <==> IsPlain(s)
  {
    var ps := [Plain(s)];
    SplitExactly(ps);
    assert Values(ps) == [s] && Render(ps) == s;
    assert AllValid(ps) <==> ps[0].Valid();
  }
}
