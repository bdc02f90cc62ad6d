/** Options, line splitting, trimming and decimal numbers, as the Rust standard library does them. */
module Text {

  datatype Option<+T> = None | Some(value: T)

  function OrElse<T>(o: Option<T>, d: T): T {
    match o case Some(v) => v case None => d
  }

  function Tally(b: bool): nat { if b then 1 else 0 }

  lemma Regroup<T>(a: seq<T>, b: seq<T>, c: seq<T>)
    ensures a + (b + c) == a + b + c
  {
  }

  lemma Regroup4<T>(a: seq<T>, b: seq<T>, c: seq<T>, d: seq<T>)
    ensures a + (b + c + d) == a + b + c + d
    ensures a + b + (c + d) == a + b + c + d
  {
  }

  lemma SuffixEqual<T>(p: seq<T>, a: seq<T>, b: seq<T>)
    ensures p + a == p + b <==> a == b
  {
    assert (p + a)[|p|..] == a && (p + b)[|p|..] == b;
  }

  lemma PrefixEqual<T>(a: seq<T>, b: seq<T>, rest: seq<T>)
    ensures a + rest == b + rest <==> a == b
  {
    if a + rest == b + rest {
      assert |a| == |b|;
      assert a == (a + rest)[..|a|] && b == (b + rest)[..|b|];
    }
  }

  /** `char::is_whitespace`: the Unicode White_Space property. */
  predicate IsSpace(c: char) {
    var n := c as int;
    9 <= n <= 13 || n == 0x20 || n == 0x85 || n == 0xA0 || n == 0x1680 || 0x2000 <= n <= 0x200A
    || n == 0x2028 || n == 0x2029 || n == 0x202F || n == 0x205F || n == 0x3000
  }

  function TrimStart(s: string): string {
    if s != "" && IsSpace(s[0]) then TrimStart(s[1..]) else s
  }

  function TrimEnd(s: string): string {
    if s != "" && IsSpace(s[|s| - 1]) then TrimEnd(s[..|s| - 1]) else s
  }

  function Trim(s: string): string {
    TrimEnd(TrimStart(s))
  }

  predicate SpaceFree(s: string) {
    forall i :: 0 <= i < |s| ==> !IsSpace(s[i])
  }

  lemma TrimSpaceFree(s: string)
    requires SpaceFree(s)
    ensures Trim(s) == s
  {
  }

  predicate AllSpace(s: string) {
    forall i :: 0 <= i < |s| ==> IsSpace(s[i])
  }

  /** The text does not begin or end with white space. */
  predicate Trimmed(s: string) {
    s != "" ==> !IsSpace(s[0]) && !IsSpace(s[|s| - 1])
  }

  lemma {:induction false} TrimStartPart(s: string) returns (a: string)
    ensures s == a + TrimStart(s) && AllSpace(a)
    ensures TrimStart(s) != "" ==> !IsSpace(TrimStart(s)[0])
  {
    a := "";
    if s != "" && IsSpace(s[0]) {
      var rest := TrimStartPart(s[1..]);
      a := [s[0]] + rest;
    }
  }

  lemma {:induction false} TrimEndPart(s: string) returns (b: string)
    ensures s == TrimEnd(s) + b && AllSpace(b)
    ensures TrimEnd(s) != "" ==> !IsSpace(TrimEnd(s)[|TrimEnd(s)| - 1])
  {
    b := "";
    if s != "" && IsSpace(s[|s| - 1]) {
      var rest := TrimEndPart(s[..|s| - 1]);
      b := rest + [s[|s| - 1]];
    }
  }

  /** Trimming takes white space off both ends, and all of it. */
  lemma TrimParts(s: string) returns (a: string, b: string)
    ensures s == a + Trim(s) + b && AllSpace(a) && AllSpace(b) && Trimmed(Trim(s))
  {
    a := TrimStartPart(s);
    b := TrimEndPart(TrimStart(s));
    assert Trim(s) != "" ==> TrimStart(s)[0] == Trim(s)[0];
  }

  lemma {:induction false} TrimStartSpaces(a: string, t: string)
    requires AllSpace(a)
    ensures TrimStart(a + t) == TrimStart(t)
  {
    if a == "" {
      assert a + t == t;
    } else {
      assert (a + t)[1..] == a[1..] + t;
      TrimStartSpaces(a[1..], t);
    }
  }

  lemma {:induction false} TrimEndSpaces(t: string, b: string)
    requires AllSpace(b)
    ensures TrimEnd(t + b) == TrimEnd(t)
    decreases |b|
  {
    if b == "" {
      assert t + b == t;
    } else {
      assert (t + b)[..|t + b| - 1] == t + b[..|b| - 1];
      TrimEndSpaces(t, b[..|b| - 1]);
    }
  }

  /** White space around a text that has none at its ends is what trimming removes. */
  lemma TrimPadded(a: string, core: string, b: string)
    requires AllSpace(a) && AllSpace(b) && Trimmed(core)
    ensures Trim(a + core + b) == core
  {
    Regroup(a, core, b);
    TrimStartSpaces(a, core + b);
    if core == "" {
      assert core + b == b && b + "" == b;
      TrimStartSpaces(b, "");
    } else {
      assert (core + b)[0] == core[0];
      TrimEndSpaces(core, b);
    }
  }

  /** The text is `core` with white space around it. */
  ghost predicate PaddedText(t: string, core: string) {
    exists a, b :: AllSpace(a) && AllSpace(b) && t == a + core + b
  }

  lemma TrimIff(t: string, core: string)
    requires Trimmed(core)
    ensures Trim(t) == core <==> PaddedText(t, core)
  {
    var a, b := TrimParts(t);
    if a, b :| AllSpace(a) && AllSpace(b) && t == a + core + b {
      TrimPadded(a, core, b);
    }
  }

  /** The index of the first `c`, or the length when there is none. */
  function Find(s: string, c: char): (i: nat)
    ensures i <= |s|
    ensures i < |s| ==> s[i] == c
    ensures forall j :: 0 <= j < i ==> s[j] != c
  {
    if s == "" || s[0] == c then 0 else 1 + Find(s[1..], c)
  }

  function StripCr(line: string): string {
    if line != "" && line[|line| - 1] == '\r' then line[..|line| - 1] else line
  }

  /** `str::lines`: split at each newline, dropping one `\r` before it; no empty last line. */
  function Lines(s: string): seq<string> {
    LinesFrom(s, "")
  }

  /** The lines of `s` when `cur` is already read of the first one. */
  function LinesFrom(s: string, cur: string): seq<string>
    decreases |s|
  {
    if s == "" then (if cur == "" then [] else [cur])
    else if s[0] == '\n' then [StripCr(cur)] + LinesFrom(s[1..], "")
    else LinesFrom(s[1..], cur + [s[0]])
  }

  lemma {:induction false} LinesAreLines(s: string, cur: string)
    requires '\n' !in cur
    ensures forall l :: l in LinesFrom(s, cur) ==> '\n' !in l
    decreases |s|
  {
    if s != "" {
      if s[0] == '\n' {
        LinesAreLines(s[1..], "");
      } else {
        LinesAreLines(s[1..], cur + [s[0]]);
      }
    }
  }

  lemma {:induction false} LinesCut(l: string, tail: string, cur: string)
    requires '\n' !in l
    ensures LinesFrom(l + "\n" + tail, cur) == [StripCr(cur + l)] + Lines(tail)
  {
    var s := l + "\n" + tail;
    if l == "" {
      assert s[1..] == tail && cur + l == cur;
    } else {
      assert s[0] == l[0] && s[1..] == l[1..] + "\n" + tail && cur + [l[0]] + l[1..] == cur + l;
      LinesCut(l[1..], tail, cur + [l[0]]);
    }
  }

  lemma {:induction false} OneLineLeft(l: string, cur: string)
    requires '\n' !in l
    ensures LinesFrom(l, cur) == if cur + l == "" then [] else [cur + l]
  {
    if l == "" {
      assert cur + l == cur;
    } else {
      assert cur + [l[0]] + l[1..] == cur + l;
      OneLineLeft(l[1..], cur + [l[0]]);
    }
  }

  /** A line ends at a newline, with or without a carriage return before it. */
  lemma LinesFirst(l: string, tail: string)
    requires '\n' !in l && (l != "" ==> l[|l| - 1] != '\r')
    ensures Lines(l + "\n" + tail) == [l] + Lines(tail)
    ensures Lines(l + "\r\n" + tail) == [l] + Lines(tail)
  {
    LinesCut(l, tail, "");
    LinesCut(l + "\r", tail, "");
    assert "" + l == l && "" + (l + "\r") == l + "\r" && l + "\r" + "\n" + tail == l + "\r\n" + tail;
    assert StripCr(l + "\r") == l;
  }

  /** A text made of whole lines: empty, or ending in a newline. */
  predicate WholeLines(s: string) {
    s == "" || s[|s| - 1] == '\n'
  }

  lemma FindPrefix(s: string, t: string, c: char)
    ensures Find(s, c) < |s| ==> Find(s + t, c) == Find(s, c)
    ensures Find(s, c) == |s| ==> Find(s + t, c) == |s| + Find(t, c)
  {
    if s == "" {
      assert s + t == t;
    } else if s[0] != c {
      assert (s + t)[1..] == s[1..] + t;
      FindPrefix(s[1..], t, c);
    }
  }

  /** Appending to a text of whole lines appends its lines. */
  lemma {:induction false} LinesAppend(s: string, t: string, cur: string)
    requires WholeLines(s) && (s == "" ==> cur == "")
    ensures LinesFrom(s + t, cur) == LinesFrom(s, cur) + LinesFrom(t, "")
    decreases |s|
  {
    if s == "" {
      assert s + t == t;
    } else {
      assert (s + t)[1..] == s[1..] + t;
      if s[0] == '\n' {
        LinesAppend(s[1..], t, "");
      } else {
        LinesAppend(s[1..], t, cur + [s[0]]);
      }
    }
  }

  /** The first `c` of a text that has it after a front without one. */
  lemma FindAfter(front: string, c: char, rest: string)
    requires c !in front
    ensures Find(front + [c] + rest, c) == |front|
  {
    FindPrefix(front, [c] + rest, c);
    Regroup(front, [c], rest);
  }

  lemma {:induction false} OneLine(l: string, cur: string)
    requires SpaceFree(cur) && SpaceFree(l)
    ensures LinesFrom(l + "\n", cur) == [cur + l]
    decreases |l|
  {
    var s := l + "\n";
    if l == "" {
      assert s[1..] == "" && cur + l == cur;
      assert StripCr(cur) == cur by { if cur != "" { assert !IsSpace(cur[|cur| - 1]); } }
    } else {
      assert !IsSpace(l[0]) && s[1..] == l[1..] + "\n";
      OneLine(l[1..], cur + [l[0]]);
      assert cur + [l[0]] + l[1..] == cur + l;
    }
  }

  // ---- decimal numbers -----------------------------------------------------

  predicate IsDigit(c: char) { '0' <= c <= '9' }

  function DigitChar(d: nat): char
    requires d < 10
  {
    ('0' as int + d) as char
  }

  function NatText(n: nat): string {
    if n < 10 then [DigitChar(n)] else NatText(n / 10) + [DigitChar(n % 10)]
  }

  /** `i32::to_string` and the like. */
  function IntText(n: int): string {
    if n < 0 then "-" + NatText(-n) else NatText(n)
  }

  predicate AllDigits(s: string) {
    forall i :: 0 <= i < |s| ==> IsDigit(s[i])
  }

  function DigitsValue(s: string): int
    requires AllDigits(s)
  {
    if s == "" then 0 else 10 * DigitsValue(s[..|s| - 1]) + (s[|s| - 1] as int - '0' as int)
  }

  predicate IsNatText(s: string) {
    s != "" && AllDigits(s)
  }

  function ReadInt(s: string): Option<int> {
    if IsNatText(s) then Some(DigitsValue(s))
    else if s != "" && s[0] == '-' && IsNatText(s[1..]) then Some(-DigitsValue(s[1..]))
    else None
  }

  lemma {:induction false} NatTextValue(n: nat)
    ensures NatText(n) != "" && AllDigits(NatText(n)) && DigitsValue(NatText(n)) == n
  {
    if n >= 10 {
      NatTextValue(n / 10);
      var s := NatText(n);
      assert s[..|s| - 1] == NatText(n / 10);
    } else {
      var s := NatText(n);
      assert s[..|s| - 1] == "";
    }
  }

  lemma NatTextReads(n: nat)
    ensures IsNatText(NatText(n)) && ReadInt(NatText(n)) == Some(n)
  {
    NatTextValue(n);
  }

  lemma NegativeReads(t: string)
    requires IsNatText(t)
    ensures ReadInt("-" + t) == Some(-DigitsValue(t))
  {
    var s := "-" + t;
    assert s[1..] == t && s[0] == '-' && !IsDigit(s[0]);
  }

  /** Decimal text reads back, and uses only `-` and digits. */
  lemma IntTextReads(n: int)
    ensures ReadInt(IntText(n)) == Some(n)
    ensures IntText(n) != ""
    ensures forall i :: 0 <= i < |IntText(n)| ==> IsDigit(IntText(n)[i]) || IntText(n)[i] == '-'
  {
    if n < 0 {
      NatTextValue(-n);
      NegativeReads(NatText(-n));
      var s, t := IntText(n), NatText(-n);
      forall i | 0 <= i < |s| ensures IsDigit(s[i]) || s[i] == '-' {
        if i > 0 { assert s[i] == t[i - 1]; }
      }
    } else {
      NatTextReads(n);
    }
  }
}
