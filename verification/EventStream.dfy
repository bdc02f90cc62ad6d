/** The agent's incremental reader of the manager's server-sent events. */
module EventStream {
  import opened Text
  import opened Encoding

  predicate BreakAt(s: string, j: int) { 0 <= j < |s| - 1 && s[j] == '\n' && s[j + 1] == '\n' }

  /** The first blank line: the index of the first two newlines in a row, or the length when there is none. */
  function Break(s: string): (i: nat)
    ensures i <= |s|
    ensures i < |s| ==> BreakAt(s, i)
    ensures forall j :: 0 <= j < i ==> !BreakAt(s, j)
  {
    BreakFrom(s, 0)
  }

  function BreakFrom(s: string, k: nat): (i: nat)
    requires k <= |s|
    ensures k <= i <= |s|
    ensures i < |s| ==> BreakAt(s, i)
    ensures forall j :: k <= j < i ==> !BreakAt(s, j)
    decreases |s| - k
  {
    if k == |s| || BreakAt(s, k) then k else BreakFrom(s, k + 1)
  }

  /** The whole text split leftmost at blank lines. */
  function Frames(s: string): seq<string>
    decreases |s|
  {
    var i := Break(s);
    if i == |s| then [] else [s[..i]] + Frames(s[i + 2..])
  }

  /** What is left after the last blank line. */
  function Rest(s: string): string
    decreases |s|
  {
    var i := Break(s);
    if i == |s| then s else Rest(s[i + 2..])
  }

  // ---- the split is the split ----------------------------------------------

  function Unsplit(frames: seq<string>, rest: string): string {
    if frames == [] then rest else frames[0] + "\n\n" + Unsplit(frames[1..], rest)
  }

  /** A frame ends at the first blank line after it starts. */
  predicate IsFrame(f: string) { Break(f + "\n\n") == |f| }

  /** Nothing is lost: the frames and the rest make up the text, and each frame ends as early as it can. */
  lemma {:induction false} SplitSound(s: string)
    ensures Unsplit(Frames(s), Rest(s)) == s && Break(Rest(s)) == |Rest(s)|
    ensures AllFrames(Frames(s))
    decreases |s|
  {
    var i := Break(s);
    if i < |s| {
      var f, tail := s[..i], s[i + 2..];
      SplitSound(tail);
      CutAt(s, i);
      UnsplitCons(f, Frames(tail), Rest(tail));
      BreakOfFrame(s, i);
      AllFramesCons(f, Frames(tail));
    }
  }

  predicate AllFrames(fs: seq<string>) {
    forall i :: 0 <= i < |fs| ==> IsFrame(fs[i])
  }

  lemma AllFramesCons(f: string, fs: seq<string>)
    requires IsFrame(f) && AllFrames(fs)
    ensures AllFrames([f] + fs)
  {
  }

  lemma UnsplitCons(f: string, fs: seq<string>, rest: string)
    ensures Unsplit([f] + fs, rest) == f + "\n\n" + Unsplit(fs, rest)
  {
    assert ([f] + fs)[1..] == fs;
  }

  lemma CutAt(s: string, i: nat)
    requires BreakAt(s, i)
    ensures s == s[..i] + "\n\n" + s[i + 2..]
    ensures s[..i + 2] == s[..i] + "\n\n"
  {
  }

  lemma SameBreaks(s: string, t: string, k: nat)
    requires k + 2 <= |s| && k + 2 <= |t| && s[..k + 2] == t[..k + 2]
    ensures forall j :: 0 <= j <= k ==> BreakAt(s, j) == BreakAt(t, j)
  {
    forall j | 0 <= j <= k ensures BreakAt(s, j) == BreakAt(t, j) {
      assert s[..k + 2][j] == s[j] && t[..k + 2][j] == t[j];
      assert s[..k + 2][j + 1] == s[j + 1] && t[..k + 2][j + 1] == t[j + 1];
    }
  }

  /** Two texts that agree past the first break of one have the same first break. */
  lemma SameBreak(s: string, t: string)
    requires Break(s) < |s| && Break(s) + 2 <= |t|
    requires s[..Break(s) + 2] == t[..Break(s) + 2]
    ensures Break(t) == Break(s)
  {
    var k := Break(s);
    SameBreaks(s, t, k);
    assert BreakAt(s, k) && BreakAt(t, k);
    forall j | 0 <= j < k ensures !BreakAt(t, j) {
      assert !BreakAt(s, j);
    }
  }

  lemma BreakOfFrame(s: string, i: nat)
    requires i == Break(s) < |s|
    ensures IsFrame(s[..i])
  {
    var t := s[..i] + "\n\n";
    CutAt(s, i);
    assert t[..i + 2] == t;
    SameBreak(s, t);
  }

  lemma BreakAfterFrame(f: string, tail: string)
    requires IsFrame(f)
    ensures Break(f + "\n\n" + tail) == |f|
  {
    var s := f + "\n\n";
    assert s[..|f| + 2] == s && (s + tail)[..|f| + 2] == s;
    SameBreak(s, s + tail);
  }

  /** There is no other such split. */
  lemma {:induction false} SplitUnique(frames: seq<string>, rest: string)
    requires AllFrames(frames) && Break(rest) == |rest|
    ensures Frames(Unsplit(frames, rest)) == frames && Rest(Unsplit(frames, rest)) == rest
  {
    if frames != [] {
      var f, tail := frames[0], Unsplit(frames[1..], rest);
      var s := Unsplit(frames, rest);
      SplitUnique(frames[1..], rest);
      BreakAfterFrame(f, tail);
      assert s[..|f|] == f && s[|f| + 2..] == tail;
    }
  }

  // ---- streaming equals batch ----------------------------------------------

  lemma BreakPrefix(a: string, b: string)
    requires Break(a) < |a|
    ensures Break(a + b) == Break(a)
  {
    assert a[..Break(a) + 2] == (a + b)[..Break(a) + 2];
    SameBreak(a, a + b);
  }

  /** Cutting the text anywhere and going on from what is left gives the same frames. */
  lemma {:induction false} FramesSplitAnywhere(a: string, b: string)
    ensures Frames(a + b) == Frames(a) + Frames(Rest(a) + b)
    ensures Rest(a + b) == Rest(Rest(a) + b)
    decreases |a|
  {
    var i := Break(a);
    if i < |a| {
      BreakPrefix(a, b);
      assert (a + b)[..i] == a[..i];
      assert (a + b)[i + 2..] == a[i + 2..] + b;
      FramesSplitAnywhere(a[i + 2..], b);
    }
  }

  // ---- events --------------------------------------------------------------

  const EVENT_FIELD := "event:"

  predicate IsEventLine(l: string) { EVENT_FIELD <= l }

  function EventValue(l: string): string
    requires IsEventLine(l)
  {
    Trim(l[|EVENT_FIELD|..])
  }

  /** The value of the last event line. */
  function LastEvent(lines: seq<string>): Option<string> {
    if lines == [] then None
    else
      var n := |lines| - 1;
      if IsEventLine(lines[n]) then Some(EventValue(lines[n])) else LastEvent(lines[..n])
  }

  /** Line `i` is the last event line. */
  predicate LastEventAt(lines: seq<string>, i: int) {
    0 <= i < |lines| && IsEventLine(lines[i]) && forall j :: i < j < |lines| ==> !IsEventLine(lines[j])
  }

  lemma {:induction false} LastEventMeans(lines: seq<string>)
    ensures LastEvent(lines).None? <==> forall i :: 0 <= i < |lines| ==> !IsEventLine(lines[i])
    ensures forall i :: LastEventAt(lines, i) ==> LastEvent(lines) == Some(EventValue(lines[i]))
  {
    if lines != [] {
      var n := |lines| - 1;
      LastEventMeans(lines[..n]);
      if !IsEventLine(lines[n]) {
        forall i | LastEventAt(lines, i) ensures LastEvent(lines) == Some(EventValue(lines[i])) {
          assert LastEventAt(lines[..n], i);
        }
        assert forall i :: 0 <= i < n ==> lines[..n][i] == lines[i];
      }
    }
  }

  /** `parse_sse_event`. */
  method ParseSseEvent(frame: string) returns (event: Option<string>)
    ensures event == LastEvent(Lines(frame))
  {
    event := None;
    var lines := Lines(frame);
    for i := 0 to |lines|
      invariant event == LastEvent(lines[..i])
    {
      var line := lines[i];
      assert lines[..i + 1][..i] == lines[..i] && lines[..i + 1][i] == line;
      if line != "" && line[0] == ':' {
        assert !IsEventLine(line) by { assert EVENT_FIELD[0] == 'e'; }
        continue;
      }
      if EVENT_FIELD <= line {
        event := Some(Trim(line[|EVENT_FIELD|..]));
      }
    }
    assert lines[..|lines|] == lines;
  }

  predicate IsForce(frame: string) { LastEvent(Lines(frame)) == Some("check-in") }

  function ForceCount(frames: seq<string>): nat {
    if frames == [] then 0
    else ForceCount(frames[..|frames| - 1]) + if IsForce(frames[|frames| - 1]) then 1 else 0
  }

  lemma ForceCountSnoc(frames: seq<string>, f: string)
    ensures ForceCount(frames + [f]) == ForceCount(frames) + if IsForce(f) then 1 else 0
  {
    assert (frames + [f])[..|frames|] == frames;
  }

  function Flatten(chunks: seq<string>): string {
    if chunks == [] then "" else Flatten(chunks[..|chunks| - 1]) + chunks[|chunks| - 1]
  }

  type Decoder = Bytes -> string

  function Decoded(decode: Decoder, chunks: seq<Bytes>): seq<string> {
    seq(|chunks|, i requires 0 <= i < |chunks| => decode(chunks[i]))
  }

  /** `run_events_stream`, each chunk decoded by itself: the frames seen are those of the decoded text split at once,
      and the wake-ups are the forced check-ins plus one when the stream ends without an error. */
  method RunEventsStream(decode: Decoder, chunks: seq<Bytes>, endsCleanly: bool)
    returns (frames: seq<string>, wakeups: nat)
    ensures frames == Frames(Flatten(Decoded(decode, chunks)))
    ensures wakeups == ForceCount(frames) + if endsCleanly then 1 else 0
  {
    frames, wakeups := [], 0;
    var buf := "";
    ghost var texts := Decoded(decode, chunks);
    for i := 0 to |chunks|
      invariant frames == Frames(Flatten(texts[..i])) && buf == Rest(Flatten(texts[..i]))
      invariant wakeups == ForceCount(frames)
    {
      assert texts[..i + 1][..i] == texts[..i];
      FramesSplitAnywhere(Flatten(texts[..i]), texts[i]);
      buf := buf + decode(chunks[i]);
      frames, buf, wakeups := Drain(frames, buf, wakeups);
    }
    assert texts[..|chunks|] == texts;
    if endsCleanly {
      wakeups := wakeups + 1;
    }
  }

  /** The inner loop: process every complete frame in the buffer. */
  method Drain(before: seq<string>, buffer: string, count: nat)
    returns (frames: seq<string>, buf: string, wakeups: nat)
    requires count == ForceCount(before)
    ensures frames == before + Frames(buffer) && buf == Rest(buffer)
    ensures wakeups == ForceCount(frames)
  {
    frames, buf, wakeups := before, buffer, count;
    ghost var total := before + Frames(buffer);
    while Break(buf) < |buf|
      invariant frames + Frames(buf) == total && Rest(buf) == Rest(buffer)
      invariant wakeups == ForceCount(frames)
      decreases |buf|
    {
      var frame, tail := TakeFrame(buf);
      Regroup(frames, [frame], Frames(tail));
      ForceCountSnoc(frames, frame);
      frames, buf := frames + [frame], tail;
      wakeups := Wake(frame, wakeups);
    }
    assert frames + [] == frames;
  }

  /** Cuts the first complete frame off the buffer. */
  method TakeFrame(buf: string) returns (frame: string, tail: string)
    requires Break(buf) < |buf|
    ensures Frames(buf) == [frame] + Frames(tail) && Rest(buf) == Rest(tail) && |tail| < |buf|
  {
    var idx := Break(buf);
    frame, tail := buf[..idx], buf[idx + 2..];
  }

  /** Wakes the pull loop on a forced check-in. */
  method Wake(frame: string, count: nat) returns (wakeups: nat)
    ensures wakeups == count + if IsForce(frame) then 1 else 0
  {
    wakeups := count;
    var event := ParseSseEvent(frame);
    if event == Some("check-in") {
      wakeups := wakeups + 1;
    }
  }
}
