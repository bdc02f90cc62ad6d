/** The hash-chained audit log: appending, checking, and what the chain proves about its contents. */
module Audit {
  import opened Text
  import opened Encoding

  /** The hashed columns of a row, as text. */
  datatype Fields = Fields(
    action: string, actorUserId: Option<string>, actorUsername: Option<string>,
    targetType: Option<string>, targetId: Option<string>, details: string,
    ipAddress: Option<string>, requestId: Option<string>, createdAt: string)

  datatype Row = Row(id: int, fields: Fields, rowHash: string, prevHash: string)

  /** The hashed columns in the order they are fed. */
  function Part(f: Fields, k: nat): Bytes {
    if k == 0 then Utf8(f.action)
    else if k == 1 then OptBytes(f.actorUserId)
    else if k == 2 then OptBytes(f.actorUsername)
    else if k == 3 then OptBytes(f.targetType)
    else if k == 4 then OptBytes(f.targetId)
    else if k == 5 then Utf8(f.details)
    else if k == 6 then OptBytes(f.ipAddress)
    else if k == 7 then OptBytes(f.requestId)
    else if k == 8 then Utf8(f.createdAt)
    else []
  }

  function PartsFrom(f: Fields, k: nat): Bytes
    decreases 9 - k, f
  {
    if k >= 9 then [] else Part(f, k) + PartsFrom(f, k + 1)
  }

  /** The bytes a row contributes after the previous hash; there are no separators. */
  function Payload(f: Fields): Bytes { PartsFrom(f, 0) }

  function ChainInput(prev: string, f: Fields): Bytes { Utf8(prev) + Payload(f) }

  function PrevHash(rows: seq<Row>, i: nat): string
    requires i <= |rows|
  {
    if i == 0 then "" else rows[i - 1].rowHash
  }

  /** What the checker hashes for row `i`. */
  function Input(rows: seq<Row>, i: nat): Bytes
    requires i < |rows|
  {
    ChainInput(PrevHash(rows, i), rows[i].fields)
  }

  predicate RowVerifies(d: Digest, rows: seq<Row>, i: nat)
    requires i < |rows|
  {
    rows[i].rowHash == d(Input(rows, i))
  }

  predicate Verified(d: Digest, rows: seq<Row>) {
    forall i :: 0 <= i < |rows| ==> RowVerifies(d, rows, i)
  }

  // ---- the two operations --------------------------------------------------

  /** The ids of the rows that do not verify, in order. */
  function Mismatches(d: Digest, rows: seq<Row>): seq<int> {
    if rows == [] then []
    else
      var n := |rows| - 1;
      Mismatches(d, rows[..n]) + if RowVerifies(d, rows, n) then [] else [rows[n].id]
  }

  /** `fed` holds everything up to column `k` of the message `total`. */
  ghost predicate Fed(fed: Bytes, f: Fields, k: nat, total: Bytes) {
    fed + PartsFrom(f, k) == total
  }

  /** One update of the hasher; an absent column feeds nothing. */
  method Update(fed: Bytes, column: Option<string>, f: Fields, ghost k: nat, ghost total: Bytes) returns (out: Bytes)
    requires k < 9 && Part(f, k) == OptBytes(column) && Fed(fed, f, k, total)
    ensures Fed(out, f, k + 1, total)
  {
    out := fed;
    if column.Some? {
      out := out + Utf8(column.value);
    }
    assert out == fed + OptBytes(column);
    Regroup(fed, OptBytes(column), PartsFrom(f, k + 1));
  }

  /** The column by column feed of a row, the same in both operations. */
  method Feed(fed: Bytes, f: Fields) returns (out: Bytes)
    ensures out == fed + Payload(f)
  {
    ghost var total := fed + Payload(f);
    out := Update(fed, Some(f.action), f, 0, total);
    out := Update(out, f.actorUserId, f, 1, total);
    out := Update(out, f.actorUsername, f, 2, total);
    out := Update(out, f.targetType, f, 3, total);
    out := Update(out, f.targetId, f, 4, total);
    out := Update(out, Some(f.details), f, 5, total);
    out := Update(out, f.ipAddress, f, 6, total);
    out := Update(out, f.requestId, f, 7, total);
    out := Update(out, Some(f.createdAt), f, 8, total);
    assert out + [] == out;
  }

  /** `verify_integrity`. */
  method VerifyIntegrity(d: Digest, rows: seq<Row>) returns (verified: bool, mismatched: seq<int>, total: nat)
    ensures mismatched == Mismatches(d, rows) && total == |rows|
    ensures verified <==> Verified(d, rows)
  {
    mismatched := [];
    var prev := "";
    for i := 0 to |rows|
      invariant prev == PrevHash(rows, i)
      invariant mismatched == Mismatches(d, rows[..i])
    {
      var row := rows[i];
      var hasher := Feed(Utf8(prev), row.fields);
      var expected := d(hasher);
      MismatchesNext(d, rows, i);
      if expected != row.rowHash {
        mismatched := mismatched + [row.id];
      }
      prev := row.rowHash;
    }
    assert rows[..|rows|] == rows;
    MismatchesEmpty(d, rows);
    verified := mismatched == [];
    total := |rows|;
  }

  lemma SameInput(rows: seq<Row>, n: nat, i: nat)
    requires i < n <= |rows|
    ensures Input(rows[..n], i) == Input(rows, i)
  {
  }

  lemma MismatchesNext(d: Digest, rows: seq<Row>, i: nat)
    requires i < |rows|
    ensures Mismatches(d, rows[..i + 1])
         == Mismatches(d, rows[..i]) + if RowVerifies(d, rows, i) then [] else [rows[i].id]
  {
    assert rows[..i + 1][..i] == rows[..i];
    SameInput(rows, i + 1, i);
  }

  lemma VerifiedInit(d: Digest, rows: seq<Row>, n: nat)
    requires n + 1 == |rows|
    ensures Verified(d, rows) <==> Verified(d, rows[..n]) && RowVerifies(d, rows, n)
  {
    forall i | 0 <= i < n ensures RowVerifies(d, rows[..n], i) <==> RowVerifies(d, rows, i) {
      SameInput(rows, n, i);
    }
  }

  lemma OneMore(ids: seq<int>, id: int, ok: bool)
    ensures ids + (if ok then [] else [id]) == [] <==> ids == [] && ok
  {
  }

  lemma {:induction false} MismatchesEmpty(d: Digest, rows: seq<Row>)
    ensures Mismatches(d, rows) == [] <==> Verified(d, rows)
  {
    if rows != [] {
      var n := |rows| - 1;
      MismatchesEmpty(d, rows[..n]);
      VerifiedInit(d, rows, n);
      OneMore(Mismatches(d, rows[..n]), rows[n].id, RowVerifies(d, rows, n));
    }
  }

  /** An event as logged, and its fields as they read back from the table later. */
  datatype Event = Event(id: int, written: Fields, stored: Fields)

  function Append(d: Digest, rows: seq<Row>, e: Event): seq<Row> {
    var prev := PrevHash(rows, |rows|);
    rows + [Row(e.id, e.stored, d(ChainInput(prev, e.written)), prev)]
  }

  function Build(d: Digest, events: seq<Event>): (rows: seq<Row>)
    ensures |rows| == |events|
  {
    if events == [] then [] else Append(d, Build(d, events[..|events| - 1]), events[|events| - 1])
  }

  /** The audit table. */
  class AuditLog {
    var rows: seq<Row>

    constructor ()
      ensures rows == []
    {
      rows := [];
    }

    /** `log_event`, one at a time: earlier rows stay, and a log that verifies goes on verifying if the new row
        reads back as written. */
    method LogEvent(d: Digest, e: Event)
      modifies this
      ensures rows == Append(d, old(rows), e) && old(rows) <= rows && |rows| == |old(rows)| + 1
      ensures
        var r := rows[|old(rows)|];
        && r.id == e.id && r.fields == e.stored
        && r.prevHash == (if old(rows) == [] then "" else old(rows)[|old(rows)| - 1].rowHash)
        && r.rowHash == d(Utf8(r.prevHash) + Payload(e.written))
      ensures Verified(d, old(rows)) && Payload(e.stored) == Payload(e.written) ==> Verified(d, rows)
    {
      var prev := "";
      if rows != [] {
        prev := rows[|rows| - 1].rowHash;
      }
      var hasher := Feed(Utf8(prev), e.written);
      var rowHash := d(hasher);
      AppendKeepsVerified(d, rows, e);
      rows := rows + [Row(e.id, e.stored, rowHash, prev)];
    }
  }

  lemma AppendKeepsVerified(d: Digest, rows: seq<Row>, e: Event)
    ensures Verified(d, rows) && Payload(e.stored) == Payload(e.written) ==> Verified(d, Append(d, rows, e))
  {
    var all := Append(d, rows, e);
    assert all[..|rows|] == rows;
    VerifiedInit(d, all, |rows|);
  }

  // ---- completeness --------------------------------------------------------

  /** The bytes hashed when row `i` was written. */
  function WrittenInput(d: Digest, events: seq<Event>, i: nat): Bytes
    requires i < |events|
  {
    ChainInput(PrevHash(Build(d, events), i), events[i].written)
  }

  lemma {:induction false} BuildPrefix(d: Digest, events: seq<Event>, n: nat)
    requires n <= |events|
    ensures Build(d, events)[..n] == Build(d, events[..n])
  {
    var m := |events| - 1;
    if n == |events| {
      assert events[..n] == events;
      assert Build(d, events)[..n] == Build(d, events);
    } else {
      BuildPrefix(d, events[..m], n);
      assert events[..m][..n] == events[..n];
      assert Build(d, events)[..n] == Build(d, events[..m])[..n];
    }
  }

  lemma BuildAt(d: Digest, events: seq<Event>, i: nat)
    requires i < |events|
    ensures Build(d, events)[i].fields == events[i].stored && Build(d, events)[i].id == events[i].id
    ensures Build(d, events)[i].rowHash == d(WrittenInput(d, events, i))
  {
    BuildPrefix(d, events, i + 1);
    BuildPrefix(d, events, i);
    var rows, init, part := Build(d, events), Build(d, events[..i]), events[..i + 1];
    assert part[..i] == events[..i] && part[i] == events[i];
    assert rows[i] == rows[..i + 1][i];
    assert PrevHash(init, i) == PrevHash(rows, i) by {
      if i > 0 { assert init[i - 1] == rows[i - 1]; }
    }
    LastAppended(d, init, events[i]);
  }

  lemma LastAppended(d: Digest, rows: seq<Row>, e: Event)
    ensures
      var r := Append(d, rows, e)[|rows|];
      r.fields == e.stored && r.id == e.id && r.rowHash == d(ChainInput(PrevHash(rows, |rows|), e.written))
  {
  }

  ghost predicate NoLogCollision(d: Digest, events: seq<Event>) {
    forall i :: 0 <= i < |events| ==>
      NoCollision(d, {WrittenInput(d, events, i), Input(Build(d, events), i)})
  }

  /** A log written one event at a time verifies exactly when every row reads back as it was written, short
      of a collision between the two readings of one row. */
  lemma VerifiesIffReadBack(d: Digest, events: seq<Event>)
    requires NoLogCollision(d, events)
    ensures Verified(d, Build(d, events))
       <==> forall i :: 0 <= i < |events| ==> Payload(events[i].stored) == Payload(events[i].written)
  {
    forall i | 0 <= i < |events| ensures RowVerifies(d, Build(d, events), i) <==> ReadsBack(events[i]) {
      RowReadsBack(d, events, i);
    }
  }

  predicate ReadsBack(e: Event) { Payload(e.stored) == Payload(e.written) }

  lemma RowReadsBack(d: Digest, events: seq<Event>, i: nat)
    requires NoLogCollision(d, events) && i < |events|
    ensures RowVerifies(d, Build(d, events), i) <==> ReadsBack(events[i])
  {
    var rows := Build(d, events);
    BuildAt(d, events, i);
    var prev := Utf8(PrevHash(rows, i));
    var a, b := WrittenInput(d, events, i), Input(rows, i);
    assert a in {a, b} && b in {a, b};
    SuffixEqual(prev, Payload(events[i].stored), Payload(events[i].written));
  }

  /** The ids of the events that do not read back, in order. */
  function UnreadIds(events: seq<Event>): seq<int> {
    if events == [] then []
    else
      var n := |events| - 1;
      UnreadIds(events[..n]) + if ReadsBack(events[n]) then [] else [events[n].id]
  }

  lemma {:induction false} MismatchesUpTo(d: Digest, events: seq<Event>, n: nat)
    requires NoLogCollision(d, events) && n <= |events|
    ensures Mismatches(d, Build(d, events)[..n]) == UnreadIds(events[..n])
  {
    if n > 0 {
      MismatchesUpTo(d, events, n - 1);
      MismatchesNext(d, Build(d, events), n - 1);
      UnreadNext(events, n - 1);
      RowReadsBack(d, events, n - 1);
      BuildAt(d, events, n - 1);
    }
  }

  lemma UnreadNext(events: seq<Event>, i: nat)
    requires i < |events|
    ensures UnreadIds(events[..i + 1]) == UnreadIds(events[..i]) + if ReadsBack(events[i]) then [] else [events[i].id]
  {
    assert events[..i + 1][..i] == events[..i];
  }

  /** The checker names exactly the rows that do not read back. */
  lemma MismatchesAreUnread(d: Digest, events: seq<Event>)
    requires NoLogCollision(d, events)
    ensures Mismatches(d, Build(d, events)) == UnreadIds(events)
  {
    MismatchesUpTo(d, events, |events|);
    assert events[..|events|] == events && Build(d, events)[..|events|] == Build(d, events);
  }

  // ---- tamper evidence -----------------------------------------------------

  /** Action names are snake-case ASCII words, so within 64 characters they hold a non-hexadecimal one. */
  predicate ActionName(a: string) {
    Ascii(a) && |a| <= 64 && '_' in a
  }

  predicate NamedActions(rows: seq<Row>) {
    forall i :: 0 <= i < |rows| ==> ActionName(rows[i].fields.action)
  }

  /** The chain head, which is exported for anchoring. */
  function Head(rows: seq<Row>): Option<string> {
    if rows == [] then None else Some(rows[|rows| - 1].rowHash)
  }

  ghost function Inputs(rows: seq<Row>): set<Bytes> {
    set i | 0 <= i < |rows| :: Input(rows, i)
  }

  lemma InputsPrefix(rows: seq<Row>, n: nat)
    requires n <= |rows|
    ensures Inputs(rows[..n]) <= Inputs(rows)
  {
    forall b | b in Inputs(rows[..n]) ensures b in Inputs(rows) {
      var i :| 0 <= i < n && b == Input(rows[..n], i);
      SameInput(rows, n, i);
    }
  }

  lemma VerifiedPrefix(d: Digest, rows: seq<Row>, n: nat)
    requires n <= |rows| && Verified(d, rows)
    ensures Verified(d, rows[..n])
  {
    forall i | 0 <= i < n ensures RowVerifies(d, rows[..n], i) {
      SameInput(rows, n, i);
      assert RowVerifies(d, rows, i);
    }
  }

  lemma HexBytes(s: string)
    requires IsHex64(s)
    ensures |Utf8(s)| == 64
    ensures forall k :: 0 <= k < 64 ==> Utf8(s)[k] != 95
  {
    assert Ascii(s);
    Utf8Ascii(s);
    forall k | 0 <= k < 64 ensures Utf8(s)[k] != 95 {
      assert IsHexDigit(s[k]);
    }
  }

  /** A payload is never a hexadecimal hash followed by something. */
  lemma PayloadNotHash(f: Fields, prev: string, rest: Bytes)
    requires ActionName(f.action) && IsHex64(prev)
    ensures Payload(f) != Utf8(prev) + rest
  {
    HexBytes(prev);
    Utf8Ascii(f.action);
    var k :| 0 <= k < |f.action| && f.action[k] == '_';
    assert Payload(f)[k] == Utf8(f.action)[k] == 95;
    assert (Utf8(prev) + rest)[k] == Utf8(prev)[k];
  }

  /** Equal hash inputs of two rows: same position at the start of the chain, same previous hash, same bytes. */
  lemma SameInputs(p: string, q: string, f: Fields, g: Fields)
    requires p == "" || IsHex64(p)
    requires q == "" || IsHex64(q)
    requires ActionName(f.action) && ActionName(g.action)
    requires ChainInput(p, f) == ChainInput(q, g)
    ensures p == q && Payload(f) == Payload(g)
  {
    assert Utf8("") == [];
    assert p == "" ==> ChainInput(p, f) == Payload(f);
    assert q == "" ==> ChainInput(q, g) == Payload(g);
    if p == "" && q != "" {
      PayloadNotHash(f, q, Payload(g));
    } else if p != "" && q == "" {
      PayloadNotHash(g, p, Payload(f));
    } else if p != "" {
      HexBytes(p);
      HexBytes(q);
      assert Utf8(p) == ChainInput(p, f)[..64] == ChainInput(q, g)[..64] == Utf8(q);
      assert Payload(f) == ChainInput(p, f)[64..] == ChainInput(q, g)[64..] == Payload(g);
      Utf8Injective(p, q);
    }
  }

  predicate SameContents(a: seq<Row>, b: seq<Row>) {
    |a| == |b|
    && forall i :: 0 <= i < |a| ==> Payload(a[i].fields) == Payload(b[i].fields) && a[i].rowHash == b[i].rowHash
  }

  lemma PrevIsHash(d: Digest, rows: seq<Row>, i: nat)
    requires HexDigest(d) && Verified(d, rows) && i < |rows|
    ensures PrevHash(rows, i) == "" || IsHex64(PrevHash(rows, i))
    ensures PrevHash(rows, i) == "" <==> i == 0
  {
    if i > 0 {
      assert RowVerifies(d, rows, i - 1);
    }
  }

  /** Tamper evidence: two logs, of whatever lengths, that both verify and share their chain head hold the same
      bytes and hashes row by row, short of a collision among the messages the two logs hash. */
  lemma {:induction false} SameHeadSameLog(d: Digest, a: seq<Row>, b: seq<Row>)
    requires HexDigest(d) && Verified(d, a) && Verified(d, b) && NamedActions(a) && NamedActions(b)
    requires Head(a) == Head(b)
    requires NoCollision(d, Inputs(a) + Inputs(b))
    ensures SameContents(a, b)
    decreases |a|
  {
    if a != [] {
      var m, n := |a| - 1, |b| - 1;
      SameTail(d, a, b);
      PrefixHolds(d, a, m);
      PrefixHolds(d, b, n);
      FewerInputs(d, Inputs(a[..m]), Inputs(b[..n]), Inputs(a) + Inputs(b));
      SameHeadSameLog(d, a[..m], b[..n]);
      ExtendContents(a, b);
    }
  }

  lemma ExtendContents(a: seq<Row>, b: seq<Row>)
    requires a != [] && b != [] && SameContents(a[..|a| - 1], b[..|b| - 1])
    requires Payload(a[|a| - 1].fields) == Payload(b[|b| - 1].fields)
    requires a[|a| - 1].rowHash == b[|b| - 1].rowHash
    ensures SameContents(a, b)
  {
    var n := |a| - 1;
    forall i | 0 <= i < |a| ensures Payload(a[i].fields) == Payload(b[i].fields) && a[i].rowHash == b[i].rowHash {
      if i < n {
        assert a[..n][i] == a[i] && b[..n][i] == b[i];
      }
    }
  }

  /** The last rows of two logs with one head agree, and so do the heads before them. */
  lemma SameTail(d: Digest, a: seq<Row>, b: seq<Row>)
    requires HexDigest(d) && Verified(d, a) && Verified(d, b) && NamedActions(a) && NamedActions(b)
    requires a != [] && Head(a) == Head(b)
    requires NoCollision(d, Inputs(a) + Inputs(b))
    ensures Head(a[..|a| - 1]) == Head(b[..|b| - 1])
    ensures Payload(a[|a| - 1].fields) == Payload(b[|b| - 1].fields)
  {
    var m, n := |a| - 1, |b| - 1;
    EqualInputs(d, a, b);
    PrevIsHash(d, a, m);
    PrevIsHash(d, b, n);
    SameInputs(PrevHash(a, m), PrevHash(b, n), a[m].fields, b[n].fields);
    HeadBefore(a);
    HeadBefore(b);
  }

  lemma EqualInputs(d: Digest, a: seq<Row>, b: seq<Row>)
    requires Verified(d, a) && Verified(d, b)
    requires a != [] && Head(a) == Head(b)
    requires NoCollision(d, Inputs(a) + Inputs(b))
    ensures Input(a, |a| - 1) == Input(b, |b| - 1)
  {
    var m, n := |a| - 1, |b| - 1;
    assert RowVerifies(d, a, m) && RowVerifies(d, b, n);
    assert Input(a, m) in Inputs(a) && Input(b, n) in Inputs(b);
  }

  lemma HeadBefore(rows: seq<Row>)
    requires rows != []
    ensures Head(rows[..|rows| - 1]) == if |rows| == 1 then None else Some(PrevHash(rows, |rows| - 1))
  {
  }

  /** In a log that verifies all chain hashes differ. */
  lemma HashesDistinct(d: Digest, rows: seq<Row>, i: nat, j: nat)
    requires HexDigest(d) && Verified(d, rows) && NamedActions(rows) && NoCollision(d, Inputs(rows))
    requires i < j < |rows|
    ensures rows[i].rowHash != rows[j].rowHash
  {
    var a, b := rows[..i + 1], rows[..j + 1];
    PrefixHolds(d, rows, i + 1);
    PrefixHolds(d, rows, j + 1);
    FewerInputs(d, Inputs(a), Inputs(b), Inputs(rows));
    DifferentLengths(d, a, b);
    PrefixHead(rows, i);
    PrefixHead(rows, j);
  }

  lemma PrefixHead(rows: seq<Row>, i: nat)
    requires i < |rows|
    ensures Head(rows[..i + 1]) == Some(rows[i].rowHash)
  {
  }

  lemma PrefixHolds(d: Digest, rows: seq<Row>, n: nat)
    requires n <= |rows| && Verified(d, rows) && NamedActions(rows)
    ensures Verified(d, rows[..n]) && NamedActions(rows[..n]) && Inputs(rows[..n]) <= Inputs(rows)
  {
    VerifiedPrefix(d, rows, n);
    InputsPrefix(rows, n);
    NamedPrefix(rows, n);
  }

  lemma FewerInputs(d: Digest, a: set<Bytes>, b: set<Bytes>, all: set<Bytes>)
    requires a <= all && b <= all && NoCollision(d, all)
    ensures NoCollision(d, a + b)
  {
  }

  lemma NamedPrefix(rows: seq<Row>, n: nat)
    requires n <= |rows| && NamedActions(rows)
    ensures NamedActions(rows[..n])
  {
  }

  lemma DifferentLengths(d: Digest, a: seq<Row>, b: seq<Row>)
    requires HexDigest(d) && Verified(d, a) && Verified(d, b) && NamedActions(a) && NamedActions(b)
    requires NoCollision(d, Inputs(a) + Inputs(b)) && |a| != |b|
    ensures Head(a) != Head(b)
  {
    if Head(a) == Head(b) {
      SameHeadSameLog(d, a, b);
    }
  }

  function Delete(rows: seq<Row>, k: nat): seq<Row>
    requires k < |rows|
  {
    rows[..k] + rows[k + 1..]
  }

  /** The row after a deleted one is checked against the hash before that one. */
  lemma CutInput(rows: seq<Row>, k: nat)
    requires k + 1 < |rows|
    ensures
      var cut := Delete(rows, k);
      cut[k] == rows[k + 1] && Input(cut, k) == ChainInput(PrevHash(rows, k), rows[k + 1].fields)
  {
    var cut := Delete(rows, k);
    assert cut[k] == rows[k + 1];
    assert PrevHash(cut, k) == PrevHash(rows, k);
  }

  lemma NeighbourHashesDiffer(d: Digest, rows: seq<Row>, k: nat)
    requires HexDigest(d) && Verified(d, rows) && NamedActions(rows) && NoCollision(d, Inputs(rows))
    requires k + 1 < |rows|
    ensures PrevHash(rows, k) != PrevHash(rows, k + 1)
  {
    PrevIsHash(d, rows, k);
    PrevIsHash(d, rows, k + 1);
    if k > 0 {
      HashesDistinct(d, rows, k - 1, k);
    }
  }

  lemma CutInputDiffers(d: Digest, rows: seq<Row>, k: nat)
    requires HexDigest(d) && Verified(d, rows) && NamedActions(rows) && NoCollision(d, Inputs(rows))
    requires k + 1 < |rows|
    ensures Input(Delete(rows, k), k) != Input(rows, k + 1)
  {
    var f := rows[k + 1].fields;
    CutInput(rows, k);
    NeighbourHashesDiffer(d, rows, k);
    PrevIsHash(d, rows, k);
    PrevIsHash(d, rows, k + 1);
    if ChainInput(PrevHash(rows, k), f) == ChainInput(PrevHash(rows, k + 1), f) {
      SameInputs(PrevHash(rows, k), PrevHash(rows, k + 1), f, f);
    }
  }

  lemma DeletedRowBreaks(d: Digest, rows: seq<Row>, k: nat)
    requires HexDigest(d) && Verified(d, rows) && NamedActions(rows) && k + 1 < |rows|
    requires NoCollision(d, Inputs(rows) + Inputs(Delete(rows, k)))
    ensures !RowVerifies(d, Delete(rows, k), k)
  {
    var cut := Delete(rows, k);
    FewerInputs(d, Inputs(rows), Inputs(rows), Inputs(rows) + Inputs(cut));
    assert Inputs(rows) + Inputs(rows) == Inputs(rows);
    CutInputDiffers(d, rows, k);
    CutInput(rows, k);
    assert RowVerifies(d, rows, k + 1);
    assert Input(rows, k + 1) in Inputs(rows) && Input(cut, k) in Inputs(cut);
  }

  lemma OthersVerify(d: Digest, rows: seq<Row>, k: nat, i: nat)
    requires Verified(d, rows) && k < |rows| && i < |Delete(rows, k)| && i != k
    ensures RowVerifies(d, Delete(rows, k), i)
  {
    var cut := Delete(rows, k);
    if i < k {
      assert RowVerifies(d, rows, i);
    } else {
      assert cut[i] == rows[i + 1] && cut[i - 1] == rows[i];
      assert RowVerifies(d, rows, i + 1);
    }
  }

  lemma {:induction false} OneMismatch(d: Digest, rows: seq<Row>, k: nat)
    requires k < |rows| && !RowVerifies(d, rows, k)
    requires forall i :: 0 <= i < |rows| && i != k ==> RowVerifies(d, rows, i)
    ensures Mismatches(d, rows) == [rows[k].id]
  {
    var n := |rows| - 1;
    forall i | 0 <= i < n ensures RowVerifies(d, rows[..n], i) <==> RowVerifies(d, rows, i) {
      SameInput(rows, n, i);
    }
    if k == n {
      MismatchesEmpty(d, rows[..n]);
    } else {
      OneMismatch(d, rows[..n], k);
    }
  }

  /** Deleting any row but the last makes exactly the following row mismatch; deleting the last one is not
      seen by the checker, only by comparing heads with an anchor. */
  lemma DeletionDetected(d: Digest, rows: seq<Row>, k: nat)
    requires HexDigest(d) && Verified(d, rows) && NamedActions(rows) && k < |rows|
    requires NoCollision(d, Inputs(rows) + Inputs(Delete(rows, k)))
    ensures Mismatches(d, Delete(rows, k)) == if k + 1 < |rows| then [rows[k + 1].id] else []
  {
    var cut := Delete(rows, k);
    forall i | 0 <= i < |cut| && i != k ensures RowVerifies(d, cut, i) {
      OthersVerify(d, rows, k, i);
    }
    if k + 1 < |rows| {
      DeletedRowBreaks(d, rows, k);
      OneMismatch(d, cut, k);
      assert cut[k] == rows[k + 1];
    } else {
      MismatchesEmpty(d, cut);
    }
  }

  /** A truncated log no longer has the anchored head. */
  lemma TruncationChangesHead(d: Digest, rows: seq<Row>, n: nat)
    requires HexDigest(d) && Verified(d, rows) && NamedActions(rows) && NoCollision(d, Inputs(rows))
    requires n < |rows|
    ensures Head(rows[..n]) != Head(rows)
  {
    if n > 0 {
      HashesDistinct(d, rows, n - 1, |rows| - 1);
    }
  }
}
