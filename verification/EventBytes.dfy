/** The event stream as bytes: each chunk is decoded by itself, so a character cut by a chunk boundary comes out
    garbled. What that can and cannot change. */
module EventBytes {
  import opened Text
  import opened Encoding
  import opened EventStream

  predicate Foreign(s: string) {
    forall i :: 0 <= i < |s| ==> s[i] as int >= 0x80
  }

  predicate NoAscii(b: Bytes) {
    forall i :: 0 <= i < |b| ==> b[i] >= 0x80
  }

  /** `String::from_utf8_lossy`, as far as it matters: an ASCII byte stands for itself and keeps apart what is around
      it; other bytes become other characters, at least one. */
  ghost predicate Lossy(d: Decoder) {
    && (forall a, c, b :: c < 0x80 ==> d(a + [c] + b) == d(a) + [c as char] + d(b))
    && (forall a :: NoAscii(a) ==> Foreign(d(a)) && (d(a) == "" <==> a == []))
  }

  function Concat(chunks: seq<Bytes>): Bytes {
    if chunks == [] then [] else Concat(chunks[..|chunks| - 1]) + chunks[|chunks| - 1]
  }

  // ---- outlines ------------------------------------------------------------

  const GAP: char := 0xFFFD as char

  function Push(t: string, c: char): string {
    if (c as int) < 0x80 then t + [c] else if t != "" && t[|t| - 1] == GAP then t else t + [GAP]
  }

  function OutlineFrom(t: string, s: string): string {
    if s == "" then t else Push(OutlineFrom(t, s[..|s| - 1]), s[|s| - 1])
  }

  /** The ASCII text with every run of other characters replaced by one mark. */
  function Outline(s: string): string { OutlineFrom("", s) }

  lemma {:induction false} FromAppend(t: string, x: string, y: string)
    ensures OutlineFrom(t, x + y) == OutlineFrom(OutlineFrom(t, x), y)
    decreases |y|
  {
    if y == "" {
      assert x + y == x;
    } else {
      var n := |y| - 1;
      assert (x + y)[..|x| + n] == x + y[..n];
      FromAppend(t, x, y[..n]);
    }
  }

  lemma {:induction false} ForeignOutline(t: string, s: string)
    requires s != "" && Foreign(s)
    ensures OutlineFrom(t, s) == Push(t, GAP)
  {
    if |s| > 1 {
      ForeignOutline(t, s[..|s| - 1]);
    } else {
      assert s[..0] == "";
    }
  }

  predicate Closed(t: string) { t == "" || (t[|t| - 1] as int) < 0x80 }

  /** After an ASCII character the outline starts anew. */
  lemma {:induction false} AfterAscii(t: string, s: string)
    requires Closed(t)
    ensures OutlineFrom(t, s) == t + Outline(s)
  {
    if s != "" {
      AfterAscii(t, s[..|s| - 1]);
    }
  }

  lemma OutlineCut(x: string, c: char, y: string)
    requires (c as int) < 0x80
    ensures Outline(x + [c] + y) == Outline(x) + [c] + Outline(y)
  {
    FromAppend("", x + [c], y);
    FromAppend("", x, [c]);
    assert [c][..0] == "";
    AfterAscii(Outline(x) + [c], y);
  }

  lemma {:induction false} AsciiOutline(s: string)
    requires Ascii(s)
    ensures Outline(s) == s
  {
    if s != "" {
      AsciiOutline(s[..|s| - 1]);
    }
  }

  /** The coarsest such decoder marks every other byte. */
  function Bytewise(b: Bytes): string {
    seq(|b|, i requires 0 <= i < |b| => if b[i] < 0x80 then b[i] as char else GAP)
  }

  lemma BytewiseLossy()
    ensures Lossy(Bytewise)
  {
    forall a, c, b | c < 0x80 ensures Bytewise(a + [c] + b) == Bytewise(a) + [c as char] + Bytewise(b) {
    }
  }

  // ---- decoding in pieces --------------------------------------------------

  lemma SameThenSame(x: string, y: string, z: string)
    requires Outline(x) == Outline(y)
    ensures Outline(x + z) == Outline(y + z)
  {
    FromAppend("", x, z);
    FromAppend("", y, z);
  }

  lemma ForeignPieces(d: Decoder, a: Bytes, b: Bytes)
    requires Lossy(d) && NoAscii(a) && NoAscii(b)
    ensures Outline(d(a) + d(b)) == Outline(d(a + b))
  {
    if a + b != [] {
      assert NoAscii(a + b) && d(a + b) != "" && Foreign(d(a + b));
      assert d(a) + d(b) != "" && Foreign(d(a) + d(b));
      ForeignOutline("", d(a + b));
      ForeignOutline("", d(a) + d(b));
    } else {
      assert a == [] && b == [];
    }
  }

  lemma Around(d: Decoder, a: Bytes, k: nat)
    requires Lossy(d) && k < |a| && a[k] < 0x80
    ensures d(a) == d(a[..k]) + [a[k] as char] + d(a[k + 1..])
  {
    assert a == a[..k] + [a[k]] + a[k + 1..];
  }

  lemma CutInSecond(d: Decoder, a: Bytes, b: Bytes, k: nat)
    requires Lossy(d) && k < |b| && b[k] < 0x80 && Outline(d(a) + d(b[..k])) == Outline(d(a + b[..k]))
    ensures Outline(d(a) + d(b)) == Outline(d(a + b))
  {
    var b1, rest := b[..k], [b[k] as char] + d(b[k + 1..]);
    Around(d, b, k);
    Around(d, a + b, |a| + k);
    assert (a + b)[..|a| + k] == a + b1 && (a + b)[|a| + k + 1..] == b[k + 1..];
    SameThenSame(d(a) + d(b1), d(a + b1), rest);
    assert d(a) + d(b) == d(a) + d(b1) + rest && d(a + b) == d(a + b1) + rest;
  }

  lemma CutInFirst(d: Decoder, a: Bytes, b: Bytes, k: nat)
    requires Lossy(d) && k < |a| && a[k] < 0x80
    requires Outline(d(a[k + 1..]) + d(b)) == Outline(d(a[k + 1..] + b))
    ensures Outline(d(a) + d(b)) == Outline(d(a + b))
  {
    var a1, c, a2 := a[..k], a[k] as char, a[k + 1..];
    Around(d, a, k);
    Around(d, a + b, k);
    assert (a + b)[..k] == a1 && (a + b)[k + 1..] == a2 + b;
    OutlineCut(d(a1), c, d(a2) + d(b));
    OutlineCut(d(a1), c, d(a2 + b));
    assert d(a) + d(b) == d(a1) + [c] + (d(a2) + d(b));
  }

  /** Decoding in two pieces or at once gives the same outline. */
  lemma {:induction false} Pieces(d: Decoder, a: Bytes, b: Bytes)
    requires Lossy(d)
    ensures Outline(d(a) + d(b)) == Outline(d(a + b))
    decreases |a| + |b|
  {
    if k :| 0 <= k < |b| && b[k] < 0x80 {
      Pieces(d, a, b[..k]);
      CutInSecond(d, a, b, k);
    } else if k :| 0 <= k < |a| && a[k] < 0x80 {
      Pieces(d, a[k + 1..], b);
      CutInFirst(d, a, b, k);
    } else {
      ForeignPieces(d, a, b);
    }
  }

  /** However the stream is cut, decoding chunk by chunk keeps its outline. */
  lemma {:induction false} ChunksOutline(d: Decoder, chunks: seq<Bytes>)
    requires Lossy(d)
    ensures Outline(Flatten(Decoded(d, chunks))) == Outline(d(Concat(chunks)))
  {
    if chunks == [] {
      assert NoAscii([]);
    } else {
      var n := |chunks| - 1;
      ChunksOutline(d, chunks[..n]);
      assert Decoded(d, chunks)[..n] == Decoded(d, chunks[..n]);
      SameThenSame(Flatten(Decoded(d, chunks[..n])), d(Concat(chunks[..n])), d(chunks[n]));
      Pieces(d, Concat(chunks[..n]), chunks[n]);
    }
  }

  /** Nothing is lost at a cut next to an ASCII byte, or at an end. */
  predicate CleanCut(a: Bytes, b: Bytes) {
    a == [] || b == [] || a[|a| - 1] < 0x80 || b[0] < 0x80
  }

  lemma CleanPieces(d: Decoder, a: Bytes, b: Bytes)
    requires Lossy(d) && CleanCut(a, b)
    ensures d(a + b) == d(a) + d(b)
  {
    assert NoAscii([]) && d([]) == "";
    if a == [] || b == [] {
      assert a + b == if a == [] then b else a;
    } else if a[|a| - 1] < 0x80 {
      var k := |a| - 1;
      Around(d, a, k);
      Around(d, a + b, k);
      assert a[k + 1..] == [] && (a + b)[..k] == a[..k] && (a + b)[k + 1..] == b;
    } else {
      Around(d, b, 0);
      Around(d, a + b, |a|);
      assert b[..0] == [] && (a + b)[..|a|] == a && (a + b)[|a| + 1..] == b[1..];
    }
  }

  predicate CleanCuts(chunks: seq<Bytes>) {
    forall n :: 0 <= n < |chunks| ==> CleanCut(Concat(chunks[..n]), chunks[n])
  }

  /** With clean cuts only, as in any ASCII stream, streaming equals batch exactly. */
  lemma {:induction false} CleanCutsExact(d: Decoder, chunks: seq<Bytes>)
    requires Lossy(d) && CleanCuts(chunks)
    ensures Flatten(Decoded(d, chunks)) == d(Concat(chunks))
  {
    if chunks == [] {
      assert NoAscii([]);
    } else {
      var n := |chunks| - 1;
      assert CleanCuts(chunks[..n]) by {
        assert forall k :: 0 <= k < n ==> chunks[..n][..k] == chunks[..k];
      }
      CleanCutsExact(d, chunks[..n]);
      assert Decoded(d, chunks)[..n] == Decoded(d, chunks[..n]);
      CleanPieces(d, Concat(chunks[..n]), chunks[n]);
    }
  }

  lemma {:induction false} AsciiCutsClean(chunks: seq<Bytes>)
    requires forall n, i :: 0 <= n < |chunks| && 0 <= i < |chunks[n]| ==> chunks[n][i] < 0x80
    ensures CleanCuts(chunks)
  {
    forall n | 0 <= n < |chunks| ensures CleanCut(Concat(chunks[..n]), chunks[n]) {
    }
  }

  // ---- frames --------------------------------------------------------------

  lemma {:induction false} BreakFree(s: string)
    requires Break(s) == |s|
    ensures Break(Outline(s)) == |Outline(s)|
  {
    if s != "" {
      var n := |s| - 1;
      assert forall j :: BreakAt(s[..n], j) ==> BreakAt(s, j);
      assert Break(s[..n]) == n;
      BreakFree(s[..n]);
      var t, u := Outline(s[..n]), Outline(s);
      if n > 0 {
        assert t != "" && t[|t| - 1] == '\n' ==> s[n - 1] == '\n';
      }
      forall j | BreakAt(u, j) ensures false {
        if j + 1 < |t| {
          assert BreakAt(t, j);
        } else {
          assert BreakAt(s, n - 1);
        }
      }
    }
  }

  lemma FrameIff(f: string)
    ensures IsFrame(f) <==> Break(f + "\n") == |f + "\n"|
  {
    var one, two := f + "\n", f + "\n\n";
    forall j ensures BreakAt(one, j) <==> BreakAt(two, j) && j < |f| {
      assert 0 <= j < |f| ==> one[j] == two[j] && one[j + 1] == two[j + 1];
    }
    assert BreakAt(two, |f|);
    if !IsFrame(f) {
      assert BreakAt(two, Break(two));
    }
  }

  lemma OutlineFrame(f: string)
    requires IsFrame(f)
    ensures IsFrame(Outline(f))
  {
    FrameIff(f);
    BreakFree(f + "\n");
    OutlineCut(f, '\n', "");
    assert f + "\n" + "" == f + "\n" && Outline(f) + "\n" + "" == Outline(f) + "\n";
    FrameIff(Outline(f));
  }

  function Outlines(ts: seq<string>): seq<string> {
    seq(|ts|, i requires 0 <= i < |ts| => Outline(ts[i]))
  }

  lemma OutlinesCons(f: string, fs: seq<string>)
    ensures Outlines([f] + fs) == [Outline(f)] + Outlines(fs)
  {
  }

  lemma OutlineBreak(f: string, tail: string)
    ensures Outline(f + "\n\n" + tail) == Outline(f) + "\n\n" + Outline(tail)
  {
    OutlineCut(f, '\n', "\n" + tail);
    OutlineCut("", '\n', tail);
    assert f + "\n\n" + tail == f + ['\n'] + ("\n" + tail) && "" + ['\n'] + tail == "\n" + tail;
  }

  lemma FramesCons(f: string, tail: string)
    requires IsFrame(f)
    ensures Frames(f + "\n\n" + tail) == [f] + Frames(tail)
  {
    var s := f + "\n\n" + tail;
    BreakAfterFrame(f, tail);
    assert s[..|f|] == f && s[|f| + 2..] == tail;
  }

  /** The frames of the outline are the outlines of the frames. */
  lemma {:induction false} FramesOutline(s: string)
    ensures Frames(Outline(s)) == Outlines(Frames(s))
    decreases |s|
  {
    var i := Break(s);
    if i == |s| {
      BreakFree(s);
    } else {
      var f, tail := s[..i], s[i + 2..];
      CutAt(s, i);
      BreakOfFrame(s, i);
      OutlineFrame(f);
      OutlineBreak(f, tail);
      FramesCons(Outline(f), Outline(tail));
      FramesOutline(tail);
      OutlinesCons(f, Frames(tail));
    }
  }

  // ---- wake-ups ------------------------------------------------------------

  lemma {:induction false} OutlineChars(s: string, c: char)
    requires c in Outline(s) && c != GAP
    ensures c in s
  {
    if s != "" && c in Outline(s[..|s| - 1]) {
      OutlineChars(s[..|s| - 1], c);
    }
  }

  lemma OutlineStripCr(l: string)
    ensures StripCr(Outline(l)) == Outline(StripCr(l))
  {
    if l != "" {
      assert l == l[..|l| - 1] + [l[|l| - 1]];
    }
  }

  lemma OutlineEmpty(s: string)
    ensures Outline(s) == "" <==> s == ""
  {
  }

  lemma {:induction false} LinesOutline(s: string)
    ensures Lines(Outline(s)) == Outlines(Lines(s))
    decreases |s|
  {
    var i := Find(s, '\n');
    var l := s[..i];
    assert '\n' in Outline(l) ==> '\n' in l by {
      if '\n' in Outline(l) { OutlineChars(l, '\n'); }
    }
    if i == |s| {
      assert l == s && "" + s == s && "" + Outline(s) == Outline(s);
      OneLineLeft(s, "");
      OneLineLeft(Outline(s), "");
      OutlineEmpty(s);
    } else {
      var tail := s[i + 1..];
      assert s == l + "\n" + tail && "" + l == l && "" + Outline(l) == Outline(l);
      OutlineCut(l, '\n', tail);
      LinesCut(l, tail, "");
      LinesCut(Outline(l), Outline(tail), "");
      OutlineStripCr(l);
      LinesOutline(tail);
      OutlinesCons(StripCr(l), Lines(tail));
    }
  }

  lemma {:induction false} OutlineFirst(s: string)
    requires s != ""
    ensures Outline(s) != "" && Outline(s)[0] == if (s[0] as int) < 0x80 then s[0] else GAP
    ensures (s[0] as int) < 0x80 ==> Outline(s)[1..] == Outline(s[1..])
    decreases |s|
  {
    if (s[0] as int) < 0x80 {
      OutlineCut("", s[0], s[1..]);
      assert "" + [s[0]] + s[1..] == s;
    } else if |s| > 1 {
      OutlineFirst(s[..|s| - 1]);
    } else {
      ForeignOutline("", s);
    }
  }

  /** The outline starts with an ASCII text iff the text does, and then goes on as its outline. */
  lemma {:induction false} AsciiPrefix(p: string, s: string)
    requires Ascii(p)
    ensures p <= Outline(s) <==> p <= s
    ensures p <= s ==> Outline(s)[|p|..] == Outline(s[|p|..])
  {
    if p != "" && s != "" {
      OutlineFirst(s);
      if (s[0] as int) < 0x80 {
        AsciiPrefix(p[1..], s[1..]);
        assert p == [p[0]] + p[1..] && s == [s[0]] + s[1..] && Outline(s) == [s[0]] + Outline(s[1..]);
      }
    }
  }

  /** No white space outside ASCII. */
  predicate AsciiSpaced(s: string) {
    forall i :: 0 <= i < |s| ==> !(IsSpace(s[i]) && s[i] as int >= 0x80)
  }

  lemma TrimsToAscii(s: string)
    requires Ascii(Trim(s)) && AsciiSpaced(s)
    ensures Ascii(s)
  {
    var a, b := TrimParts(s);
    var t := Trim(s);
    forall i | 0 <= i < |s| ensures (s[i] as int) < 0x80 {
      if |a| <= i < |a| + |t| {
        assert s[i] == t[i - |a|];
      } else {
        assert s[i] == if i < |a| then a[i] else b[i - |a| - |t|];
      }
    }
  }

  lemma {:induction false} MarkedOutline(s: string)
    ensures AsciiSpaced(Outline(s)) && (GAP !in Outline(s) ==> Ascii(s))
  {
    if s != "" {
      MarkedOutline(s[..|s| - 1]);
    }
  }

  const FORCE := "check-in"

  lemma ForceValue(x: string)
    ensures Trim(Outline(x)) == FORCE <==> Trim(x) == FORCE && Ascii(x)
  {
    if Trim(Outline(x)) == FORCE {
      MarkedOutline(x);
      TrimsToAscii(Outline(x));
      AsciiOutline(x);
    }
    if Ascii(x) {
      AsciiOutline(x);
    }
  }

  lemma EventLineOutline(l: string)
    ensures IsEventLine(Outline(l)) <==> IsEventLine(l)
    ensures IsEventLine(l) ==> (EventValue(Outline(l)) == FORCE <==> EventValue(l) == FORCE && Ascii(l))
  {
    assert Ascii(EVENT_FIELD);
    AsciiPrefix(EVENT_FIELD, l);
    if IsEventLine(l) {
      var x := l[|EVENT_FIELD|..];
      ForceValue(x);
      assert l == EVENT_FIELD + x;
      assert forall i :: 0 <= i < |x| ==> x[i] == l[i + |EVENT_FIELD|];
    }
  }

  /** The last event line. */
  function EventLine(ls: seq<string>): (o: Option<string>)
    ensures LastEvent(ls) == if o.Some? && IsEventLine(o.value) then Some(EventValue(o.value)) else None
    ensures o.Some? ==> o.value in ls
  {
    if ls == [] then None
    else
      var n := |ls| - 1;
      if IsEventLine(ls[n]) then Some(ls[n]) else EventLine(ls[..n])
  }

  /** The frame forces a check-in by an event line that is not plain ASCII. */
  predicate SpacedForce(f: string) { IsForce(f) && !Ascii(OrElse(EventLine(Lines(f)), "")) }

  lemma {:induction false} LastEventOutline(ls: seq<string>)
    ensures LastEvent(Outlines(ls)) == Some(FORCE)
       <==> LastEvent(ls) == Some(FORCE) && Ascii(OrElse(EventLine(ls), ""))
  {
    if ls != [] {
      var n := |ls| - 1;
      LastEventOutline(ls[..n]);
      assert Outlines(ls)[..n] == Outlines(ls[..n]);
      EventLineOutline(ls[n]);
    }
  }

  lemma ForceOutline(f: string)
    ensures IsForce(Outline(f)) <==> IsForce(f) && !SpacedForce(f)
  {
    LinesOutline(f);
    LastEventOutline(Lines(f));
  }

  predicate AllSpaced(ls: seq<string>) {
    forall i :: 0 <= i < |ls| ==> AsciiSpaced(ls[i])
  }

  lemma {:induction false} LinesSpaced(s: string, cur: string)
    requires AsciiSpaced(s) && AsciiSpaced(cur)
    ensures AllSpaced(LinesFrom(s, cur))
    decreases |s|
  {
    if s != "" {
      if s[0] == '\n' {
        LinesSpaced(s[1..], "");
      } else {
        LinesSpaced(s[1..], cur + [s[0]]);
      }
    }
  }

  /** Such a line has white space outside ASCII. */
  lemma SpacedForceMeans(f: string)
    requires AsciiSpaced(f)
    ensures !SpacedForce(f)
  {
    LinesSpaced(f, "");
    if IsForce(f) {
      var l := EventLine(Lines(f)).value;
      TrimsToAscii(l[|EVENT_FIELD|..]);
      assert l == EVENT_FIELD + l[|EVENT_FIELD|..];
    }
  }

  lemma {:induction false} FramesSpaced(s: string)
    requires AsciiSpaced(s)
    ensures AllSpaced(Frames(s))
    decreases |s|
  {
    if Break(s) < |s| {
      FramesSpaced(s[Break(s) + 2..]);
    }
  }

  function SpacedCount(frames: seq<string>): nat {
    if frames == [] then 0
    else SpacedCount(frames[..|frames| - 1]) + Tally(SpacedForce(frames[|frames| - 1]))
  }

  lemma {:induction false} ForceCountOutline(fs: seq<string>)
    ensures ForceCount(fs) == ForceCount(Outlines(fs)) + SpacedCount(fs)
    ensures AllSpaced(fs) ==> SpacedCount(fs) == 0
  {
    if fs != [] {
      var n := |fs| - 1;
      ForceCountOutline(fs[..n]);
      assert Outlines(fs)[..n] == Outlines(fs[..n]);
      ForceOutline(fs[n]);
      if AsciiSpaced(fs[n]) {
        SpacedForceMeans(fs[n]);
      }
    }
  }

  /** For any bytes and any chunks: as many frames as in the stream decoded at once, each alike in its ASCII text and
      in where other characters stand. The check-ins of plain ASCII lines wake the loop in both readings, so there are
      as many wake-ups iff as many frames force one by a line with white space outside ASCII; a text without such white
      space has none. */
  lemma CutsKeepWakeups(d: Decoder, chunks: seq<Bytes>)
    requires Lossy(d)
    ensures
      var pieces, whole := Flatten(Decoded(d, chunks)), d(Concat(chunks));
      var a, b := Frames(pieces), Frames(whole);
      && Outlines(a) == Outlines(b)
      && (ForceCount(a) == ForceCount(b) <==> SpacedCount(a) == SpacedCount(b))
      && (AsciiSpaced(pieces) ==> SpacedCount(a) == 0) && (AsciiSpaced(whole) ==> SpacedCount(b) == 0)
  {
    var pieces, whole := Flatten(Decoded(d, chunks)), d(Concat(chunks));
    ChunksOutline(d, chunks);
    FramesOutline(pieces);
    FramesOutline(whole);
    ForceCountOutline(Frames(pieces));
    ForceCountOutline(Frames(whole));
    if AsciiSpaced(pieces) {
      FramesSpaced(pieces);
    }
    if AsciiSpaced(whole) {
      FramesSpaced(whole);
    }
  }

  const NBSP: char := 0xA0 as char

  /** A line with a no-break space behind it, cut inside that space. */
  function CutSpace(line: string, end: string): seq<Bytes> { [Utf8(line) + [0xC2], [0xA0] + Utf8(end)] }

  lemma ReadInPieces(d: Decoder, line: string, end: string)
    requires Lossy(d) && d([0xC2]) == [GAP] && d([0xA0]) == [GAP]
    requires Ascii(line) && Ascii(end) && line != "" && end != ""
    ensures Flatten(Decoded(d, CutSpace(line, end))) == line + [GAP, GAP] + end
  {
    AsciiDecodes(d, line);
    AsciiDecodes(d, end);
    CleanPieces(d, Utf8(line), [0xC2]);
    CleanPieces(d, [0xA0], Utf8(end));
    FlattenTwo(line + [GAP], [GAP] + end);
    assert Decoded(d, CutSpace(line, end)) == [line + [GAP], [GAP] + end];
  }

  lemma ReadAtOnce(d: Decoder, line: string, end: string)
    requires Lossy(d) && d([0xC2, 0xA0]) == [NBSP]
    requires Ascii(line) && Ascii(end) && line != "" && end != ""
    ensures d(Concat(CutSpace(line, end))) == line + [NBSP] + end
  {
    AsciiDecodes(d, line);
    AsciiDecodes(d, end);
    TwoChunks(Utf8(line) + [0xC2], [0xA0] + Utf8(end));
    assert Concat(CutSpace(line, end)) == Utf8(line) + ([0xC2, 0xA0] + Utf8(end));
    CleanPieces(d, [0xC2, 0xA0], Utf8(end));
    CleanPieces(d, Utf8(line), [0xC2, 0xA0] + Utf8(end));
  }

  lemma CutSpaceCounts(d: Decoder, word: string, end: string)
    requires Lossy(d) && d([0xC2, 0xA0]) == [NBSP] && d([0xC2]) == [GAP] && d([0xA0]) == [GAP]
    requires Ascii(word) && SpaceFree(word) && word != "" && end == "\n\n"
    ensures
      var chunks := CutSpace(EVENT_FIELD + word, end);
      && ForceCount(Frames(Flatten(Decoded(d, chunks)))) == Tally(word + [GAP, GAP] == FORCE)
      && ForceCount(Frames(d(Concat(chunks)))) == Tally(word == FORCE)
  {
    var line := EVENT_FIELD + word;
    ReadInPieces(d, line, end);
    ReadAtOnce(d, line, end);
    assert line + [GAP, GAP] + end == EVENT_FIELD + (word + [GAP, GAP]) + end;
    assert line + [NBSP] + end == EVENT_FIELD + (word + [NBSP]) + end;
    assert forall i :: 0 <= i < |word| ==> word[i] != '\n';
    OneFrame(word + [GAP, GAP], line + [GAP, GAP] + end);
    OneFrame(word + [NBSP], line + [NBSP] + end);
    TrimSpaceFree(word + [GAP, GAP]);
    TrimTail(word, NBSP);
  }

  /** The condition is needed: a no-break space cut in half is no longer white space, and the check-in it follows is
      missed. */
  lemma CutSpaceMissed(d: Decoder, end: string)
    requires Lossy(d) && d([0xC2, 0xA0]) == [NBSP] && d([0xC2]) == [GAP] && d([0xA0]) == [GAP] && end == "\n\n"
    ensures
      var chunks := CutSpace(EVENT_FIELD + FORCE, end);
      ForceCount(Frames(Flatten(Decoded(d, chunks)))) == 0 && ForceCount(Frames(d(Concat(chunks)))) == 1
  {
    CutSpaceCounts(d, FORCE, end);
    assert FORCE + [GAP, GAP] != FORCE;
  }

  lemma {:induction false} AsciiDecodes(d: Decoder, s: string)
    requires Lossy(d) && Ascii(s)
    ensures d(Utf8(s)) == s && NotEmptyAscii(s, Utf8(s))
  {
    Utf8Ascii(s);
    assert NoAscii([]);
    if s != "" {
      AsciiDecodes(d, s[1..]);
      Around(d, Utf8(s), 0);
      assert Utf8(s)[..0] == [] && Utf8(s)[1..] == Utf8(s[1..]);
    }
  }

  predicate NotEmptyAscii(s: string, b: Bytes) {
    s != "" ==> b != [] && b[0] < 0x80 && b[|b| - 1] < 0x80
  }

  lemma TwoChunks(a: Bytes, b: Bytes)
    ensures Concat([a, b]) == a + b
  {
    assert [a, b][..1] == [a] && [a][..0] == [];
    assert Concat([a]) == Concat([]) + a == a;
  }

  lemma FlattenTwo(a: string, b: string)
    ensures Flatten([a, b]) == a + b
  {
    assert [a, b][..1] == [a] && [a][..0] == [];
    assert Flatten([a]) == Flatten([]) + a == a;
  }

  lemma TrimTail(s: string, c: char)
    requires s != "" && SpaceFree(s) && IsSpace(c)
    ensures Trim(s + [c]) == s
  {
    assert !IsSpace(s[0]) && !IsSpace(s[|s| - 1]);
    assert (s + [c])[0] == s[0] && (s + [c])[..|s|] == s;
    assert TrimEnd(s + [c]) == TrimEnd(s) == s;
  }

  lemma OneFrame(value: string, s: string)
    requires '\n' !in value && s == "event:" + value + "\n\n"
    ensures ForceCount(Frames(s)) == Tally(Trim(value) == "check-in")
  {
    var f := EVENT_FIELD + value;
    assert Break(f + "\n\n") == |f| by {
      assert BreakAt(f + "\n\n", |f|);
    }
    FramesCons(f, "");
    assert s == f + "\n\n" + "" && Frames("") == [];
    OneLineLeft(f, "");
    assert "" + f == f && [f][..0] == [] && f[|EVENT_FIELD|..] == value;
    assert Lines(f) == [f];
  }
}
