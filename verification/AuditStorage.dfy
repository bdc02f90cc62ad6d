/** How the database keeps the hashed columns, and which rows of the audit log verify later because of it. */
module AuditStorage {
  import opened Text
  import opened Encoding
  import opened Audit
  import opened AuditColumns

  // ---- timestamps ----------------------------------------------------------

  const SECOND: nat := 1_000_000_000

  /** A number in decimal, cut or padded to a width. */
  function Padded(n: nat, width: nat): (t: string)
    ensures |t| == width && AllDigits(t)
    decreases width
  {
    if width == 0 then "" else Padded(n / 10, width - 1) + [DigitChar(n % 10)]
  }

  /** The fraction of a second in an RFC 3339 text: as many groups of three digits as it needs. */
  function Fraction(ns: nat): string {
    if ns == 0 then ""
    else if ns % 1_000_000 == 0 then "." + Padded(ns / 1_000_000, 3)
    else if ns % 1_000 == 0 then "." + Padded(ns / 1_000, 6)
    else "." + Padded(ns, 9)
  }

  /** `to_rfc3339`; `clock` prints the date and time of a second. */
  function Rfc3339(clock: nat -> string, at: nat): string {
    clock(at / SECOND) + Fraction(at % SECOND) + "+00:00"
  }

  function Pow10(n: nat): (p: nat)
    ensures p > 0
  {
    if n == 0 then 1 else 10 * Pow10(n - 1)
  }

  lemma {:induction false} PaddedValue(n: nat, width: nat)
    requires n < Pow10(width)
    ensures DigitsValue(Padded(n, width)) == n
  {
    if width > 0 {
      var t := Padded(n, width);
      assert t[..width - 1] == Padded(n / 10, width - 1);
      PaddedValue(n / 10, width - 1);
    }
  }

  /** The fraction is the nanoseconds in decimal, in the fewest groups of three digits that hold them. */
  lemma FractionMeans(ns: nat)
    requires ns < SECOND
    ensures
      var t := Fraction(ns);
      && |t| == (if ns == 0 then 0 else if ns % 1_000_000 == 0 then 4 else if ns % 1_000 == 0 then 7 else 10)
      && (t != "" ==> t[0] == '.' && AllDigits(t[1..]) && DigitsValue(t[1..]) * Pow10(10 - |t|) == ns)
  {
    assert Pow10(3) == 1_000 && Pow10(6) == 1_000 * Pow10(3) && Pow10(9) == 1_000 * Pow10(6) && Pow10(0) == 1;
    if ns > 0 {
      var t := Fraction(ns);
      var (n, width) := if ns % 1_000_000 == 0 then (ns / 1_000_000, 3)
                        else if ns % 1_000 == 0 then (ns / 1_000, 6) else (ns, 9);
      PaddedValue(n, width);
      assert t[1..] == Padded(n, width);
    }
  }

  /** The text of a time is that of no other: every rewrite of a time is a rewrite of its text. */
  lemma SameStampSameTime(clock: nat -> string, a: nat, b: nat)
    requires |clock(a / SECOND)| == |clock(b / SECOND)|
    requires clock(a / SECOND) == clock(b / SECOND) ==> a / SECOND == b / SECOND
    requires Rfc3339(clock, a) == Rfc3339(clock, b)
    ensures a == b
  {
    var x, y := clock(a / SECOND), clock(b / SECOND);
    var s, t := Fraction(a % SECOND), Fraction(b % SECOND);
    PrefixEqual(x + s, y + t, "+00:00");
    assert x == (x + s)[..|x|] && y == (y + t)[..|y|] && s == (x + s)[|x|..] && t == (y + t)[|y|..];
    FractionMeans(a % SECOND);
    FractionMeans(b % SECOND);
  }

  /** A `TIMESTAMPTZ` column keeps whole microseconds. */
  function Micros(at: nat): nat { at - at % 1_000 }

  lemma SameSecond(at: nat)
    ensures Micros(at) / SECOND == at / SECOND
    ensures Micros(at) % SECOND == at % SECOND - at % SECOND % 1_000 && at % SECOND % 1_000 == at % 1_000
  {
    var q, r := at / SECOND, at % SECOND;
    assert at == q * SECOND + r;
    assert at % 1_000 == r % 1_000;
  }

  /** Whole microseconds never take nine digits. */
  lemma FractionLength(ns: nat)
    ensures |Fraction(ns)| == 10 <==> ns % 1_000 != 0
  {
    MillisAreMicros(ns);
  }

  lemma MillisAreMicros(ns: nat)
    ensures ns % 1_000_000 == 0 ==> ns % 1_000 == 0
  {
    if ns % 1_000_000 == 0 {
      var q := ns / 1_000_000;
      assert ns == 1_000_000 * q;
      Thousands(1_000 * q);
    }
  }

  lemma Thousands(x: nat)
    ensures 1_000 * x % 1_000 == 0
  {
  }

  lemma StampLength(clock: nat -> string, at: nat)
    ensures |Rfc3339(clock, at)| == |clock(at / SECOND)| + |Fraction(at % SECOND)| + 6
  {
  }

  lemma WholeMicros(r: nat)
    ensures (r - r % 1_000) % 1_000 == 0
  {
  }

  lemma FractionsDiffer(at: nat)
    requires at % 1_000 != 0
    ensures Micros(at) / SECOND == at / SECOND && |Fraction(Micros(at) % SECOND)| != |Fraction(at % SECOND)|
  {
    SameSecond(at);
    WholeMicros(at % SECOND);
    FractionLength(at % SECOND);
    FractionLength(Micros(at) % SECOND);
  }

  lemma StampReadsBack(clock: nat -> string, at: nat)
    ensures Rfc3339(clock, Micros(at)) == Rfc3339(clock, at) <==> at % 1_000 == 0
  {
    if at % 1_000 != 0 {
      FractionsDiffer(at);
      StampLength(clock, at);
      StampLength(clock, Micros(at));
    }
  }

  // ---- the timestamp column decides ----------------------------------------

  /** An event, with the time it was logged at. */
  datatype Entry = Entry(id: int, fields: Fields, at: nat)

  /** The row hashes the time it has, and holds the time the column keeps; the other columns read back. */
  function Logged(clock: nat -> string, e: Entry): Event {
    Event(e.id, e.fields.(createdAt := Rfc3339(clock, e.at)), e.fields.(createdAt := Rfc3339(clock, Micros(e.at))))
  }

  function LoggedAll(clock: nat -> string, es: seq<Entry>): (events: seq<Event>)
    ensures |events| == |es| && forall i :: 0 <= i < |es| ==> events[i] == Logged(clock, es[i])
  {
    seq(|es|, i requires 0 <= i < |es| => Logged(clock, es[i]))
  }

  lemma EntryReadsBack(clock: nat -> string, e: Entry)
    ensures Payload(Logged(clock, e).stored) == Payload(Logged(clock, e).written) <==> e.at % 1_000 == 0
  {
    var v := Logged(clock, e);
    ColumnDecides(v.stored, v.written, TimeCol);
    StampReadsBack(clock, e.at);
  }

  /** The ids of the events whose time the column cuts short, in order. */
  function CutShort(es: seq<Entry>): seq<int> {
    if es == [] then []
    else
      var n := |es| - 1;
      CutShort(es[..n]) + if es[n].at % 1_000 == 0 then [] else [es[n].id]
  }

  lemma {:induction false} UnreadIsCutShort(clock: nat -> string, es: seq<Entry>)
    ensures UnreadIds(LoggedAll(clock, es)) == CutShort(es)
  {
    if es != [] {
      var n := |es| - 1;
      UnreadIsCutShort(clock, es[..n]);
      assert LoggedAll(clock, es)[..n] == LoggedAll(clock, es[..n]);
      EntryReadsBack(clock, es[n]);
    }
  }

  /** A log whose other columns read back verifies iff every event was logged at a whole microsecond, short of a
      collision between the two readings of one row. */
  lemma VerifiesIffMicroseconds(d: Digest, clock: nat -> string, es: seq<Entry>)
    requires NoLogCollision(d, LoggedAll(clock, es))
    ensures Verified(d, Build(d, LoggedAll(clock, es))) <==> forall i :: 0 <= i < |es| ==> es[i].at % 1_000 == 0
  {
    var events := LoggedAll(clock, es);
    VerifiesIffReadBack(d, events);
    forall i | 0 <= i < |es|
      ensures Payload(events[i].stored) == Payload(events[i].written) <==> es[i].at % 1_000 == 0
    {
      EntryReadsBack(clock, es[i]);
    }
  }

  /** And the checker names exactly the others. */
  lemma MismatchesAreCutShort(d: Digest, clock: nat -> string, es: seq<Entry>)
    requires NoLogCollision(d, LoggedAll(clock, es))
    ensures Mismatches(d, Build(d, LoggedAll(clock, es))) == CutShort(es)
  {
    MismatchesAreUnread(d, LoggedAll(clock, es));
    UnreadIsCutShort(clock, es);
  }

  // ---- deleting a user -----------------------------------------------------

  predicate ActedIn(r: Row, user: string) { r.fields.actorUserId == Some(user) }

  /** `ON DELETE SET NULL` on the actor column. */
  function SetNull(rows: seq<Row>, user: string): (out: seq<Row>)
    ensures |out| == |rows| && forall i :: 0 <= i < |rows| ==> out[i] == NullActor(rows[i], user)
  {
    seq(|rows|, i requires 0 <= i < |rows| => NullActor(rows[i], user))
  }

  function NullActor(r: Row, user: string): Row {
    if ActedIn(r, user) then r.(fields := r.fields.(actorUserId := None)) else r
  }

  /** The ids of the rows the user acted in, in order. */
  function ActedIds(rows: seq<Row>, user: string): seq<int> {
    if rows == [] then []
    else
      var n := |rows| - 1;
      ActedIds(rows[..n], user) + if ActedIn(rows[n], user) then [rows[n].id] else []
  }

  /** Emptying the column takes the user's id out of the hashed bytes. */
  lemma NullShortens(f: Fields)
    requires f.actorUserId.Some? && f.actorUserId.value != ""
    ensures Payload(f.(actorUserId := None)) != Payload(f)
  {
    ColumnDecides(f, f.(actorUserId := None), ActorIdCol);
  }

  lemma RowAfterDeletion(d: Digest, rows: seq<Row>, user: string, i: nat)
    requires Verified(d, rows) && user != "" && i < |rows|
    requires NoCollision(d, Inputs(rows) + Inputs(SetNull(rows, user)))
    ensures RowVerifies(d, SetNull(rows, user), i) <==> !ActedIn(rows[i], user)
  {
    var cut := SetNull(rows, user);
    var prev := PrevHash(rows, i);
    assert RowVerifies(d, rows, i) && PrevHash(cut, i) == prev;
    assert Input(rows, i) in Inputs(rows) && Input(cut, i) in Inputs(cut);
    if ActedIn(rows[i], user) {
      NullShortens(rows[i].fields);
      SuffixEqual(Utf8(prev), Payload(cut[i].fields), Payload(rows[i].fields));
    }
  }

  lemma ActedIdsNext(rows: seq<Row>, user: string, i: nat)
    requires i < |rows|
    ensures ActedIds(rows[..i + 1], user)
         == ActedIds(rows[..i], user) + if ActedIn(rows[i], user) then [rows[i].id] else []
  {
    assert rows[..i + 1][..i] == rows[..i];
  }

  lemma {:induction false} MismatchesAre(d: Digest, rows: seq<Row>, user: string, n: nat)
    requires Verified(d, rows) && user != "" && n <= |rows|
    requires NoCollision(d, Inputs(rows) + Inputs(SetNull(rows, user)))
    ensures Mismatches(d, SetNull(rows, user)[..n]) == ActedIds(rows[..n], user)
  {
    if n > 0 {
      MismatchesAre(d, rows, user, n - 1);
      MismatchesNext(d, SetNull(rows, user), n - 1);
      ActedIdsNext(rows, user, n - 1);
      RowAfterDeletion(d, rows, user, n - 1);
    }
  }

  /** After a user is deleted exactly the rows they acted in mismatch, short of a collision. */
  lemma UserDeletionMismatches(d: Digest, rows: seq<Row>, user: string)
    requires Verified(d, rows) && user != ""
    requires NoCollision(d, Inputs(rows) + Inputs(SetNull(rows, user)))
    ensures Mismatches(d, SetNull(rows, user)) == ActedIds(rows, user)
  {
    var cut := SetNull(rows, user);
    MismatchesAre(d, rows, user, |rows|);
    assert cut[..|rows|] == cut && rows[..|rows|] == rows;
  }
}
