/** What the chain says about single columns: every hashed column counts, and a rewritten one is found. */
module AuditColumns {
  import opened Text
  import opened Encoding
  import opened Audit

  datatype Column = ActionCol | ActorIdCol | ActorNameCol | TargetTypeCol | TargetIdCol | DetailsCol | AddressCol
                  | RequestCol | TimeCol

  /** The text of a column; an absent one reads as empty. */
  function TextOf(f: Fields, c: Column): string {
    match c
    case ActionCol => f.action
    case ActorIdCol => OrElse(f.actorUserId, "")
    case ActorNameCol => OrElse(f.actorUsername, "")
    case TargetTypeCol => OrElse(f.targetType, "")
    case TargetIdCol => OrElse(f.targetId, "")
    case DetailsCol => f.details
    case AddressCol => OrElse(f.ipAddress, "")
    case RequestCol => OrElse(f.requestId, "")
    case TimeCol => f.createdAt
  }

  /** The two rows agree on all columns but one. */
  predicate SameBut(f: Fields, g: Fields, c: Column) {
    && (c != ActionCol ==> f.action == g.action)
    && (c != ActorIdCol ==> f.actorUserId == g.actorUserId)
    && (c != ActorNameCol ==> f.actorUsername == g.actorUsername)
    && (c != TargetTypeCol ==> f.targetType == g.targetType)
    && (c != TargetIdCol ==> f.targetId == g.targetId)
    && (c != DetailsCol ==> f.details == g.details)
    && (c != AddressCol ==> f.ipAddress == g.ipAddress)
    && (c != RequestCol ==> f.requestId == g.requestId)
    && (c != TimeCol ==> f.createdAt == g.createdAt)
  }

  /** Where a column comes in the feed. */
  function Index(c: Column): (k: nat)
    ensures k < 9
  {
    match c
    case ActionCol => 0
    case ActorIdCol => 1
    case ActorNameCol => 2
    case TargetTypeCol => 3
    case TargetIdCol => 4
    case DetailsCol => 5
    case AddressCol => 6
    case RequestCol => 7
    case TimeCol => 8
  }

  lemma PartIsText(f: Fields, c: Column)
    ensures Part(f, Index(c)) == Utf8(TextOf(f, c))
  {
    assert Utf8("") == [];
  }

  lemma OtherPart(f: Fields, g: Fields, c: Column, k: nat)
    requires SameBut(f, g, c) && k != Index(c)
    ensures Part(f, k) == Part(g, k)
  {
  }

  lemma {:induction false} LaterParts(f: Fields, g: Fields, c: Column, k: nat)
    requires SameBut(f, g, c) && k > Index(c)
    ensures PartsFrom(f, k) == PartsFrom(g, k)
    decreases 9 - k
  {
    if k < 9 {
      OtherPart(f, g, c, k);
      LaterParts(f, g, c, k + 1);
    }
  }

  lemma {:induction false} PartsDecide(f: Fields, g: Fields, c: Column, k: nat)
    requires SameBut(f, g, c) && k <= Index(c)
    ensures PartsFrom(f, k) == PartsFrom(g, k) <==> Part(f, Index(c)) == Part(g, Index(c))
    decreases Index(c) - k
  {
    if k < Index(c) {
      OtherPart(f, g, c, k);
      PartsDecide(f, g, c, k + 1);
      SuffixEqual(Part(f, k), PartsFrom(f, k + 1), PartsFrom(g, k + 1));
    } else {
      LaterParts(f, g, c, k + 1);
      PrefixEqual(Part(f, k), Part(g, k), PartsFrom(f, k + 1));
    }
  }

  /** Every column counts: rows that agree on the other eight feed the hash the same bytes iff they agree on it. */
  lemma ColumnDecides(f: Fields, g: Fields, c: Column)
    requires SameBut(f, g, c)
    ensures Payload(f) == Payload(g) <==> TextOf(f, c) == TextOf(g, c)
  {
    PartsDecide(f, g, c, 0);
    PartIsText(f, c);
    PartIsText(g, c);
    Utf8Injective(TextOf(f, c), TextOf(g, c));
  }

  // ---- rewriting a row -----------------------------------------------------

  /** The columns of a row replaced in the table, its hash left as it was. */
  function Rewritten(rows: seq<Row>, k: nat, g: Fields): seq<Row>
    requires k < |rows|
  {
    rows[k := rows[k].(fields := g)]
  }

  lemma RewriteKeepsOthers(d: Digest, rows: seq<Row>, k: nat, g: Fields, i: nat)
    requires Verified(d, rows) && k < |rows| && i < |rows| && i != k
    ensures RowVerifies(d, Rewritten(rows, k, g), i)
  {
    assert RowVerifies(d, rows, i);
    assert PrevHash(Rewritten(rows, k, g), i) == PrevHash(rows, i);
  }

  /** The checker names exactly the rewritten row, or none if its bytes are the same, short of a collision of the
      two readings. */
  lemma RewriteDetected(d: Digest, rows: seq<Row>, k: nat, g: Fields)
    requires Verified(d, rows) && k < |rows|
    requires NoCollision(d, {Input(rows, k), Input(Rewritten(rows, k, g), k)})
    ensures Mismatches(d, Rewritten(rows, k, g))
         == if Payload(g) == Payload(rows[k].fields) then [] else [rows[k].id]
  {
    var after := Rewritten(rows, k, g);
    forall i | 0 <= i < |after| && i != k ensures RowVerifies(d, after, i) {
      RewriteKeepsOthers(d, rows, k, g, i);
    }
    assert RowVerifies(d, rows, k) && PrevHash(after, k) == PrevHash(rows, k);
    SuffixEqual(Utf8(PrevHash(rows, k)), Payload(g), Payload(rows[k].fields));
    if Payload(g) == Payload(rows[k].fields) {
      assert RowVerifies(d, after, k);
      MismatchesEmpty(d, after);
    } else {
      assert Input(rows, k) != Input(after, k);
      OneMismatch(d, after, k);
    }
  }

  /** In particular for one column: details, actor, target, address, request, action or time. */
  lemma ColumnRewriteDetected(d: Digest, rows: seq<Row>, k: nat, g: Fields, c: Column)
    requires Verified(d, rows) && k < |rows| && SameBut(rows[k].fields, g, c)
    requires NoCollision(d, {Input(rows, k), Input(Rewritten(rows, k, g), k)})
    ensures Mismatches(d, Rewritten(rows, k, g))
         == if TextOf(g, c) == TextOf(rows[k].fields, c) then [] else [rows[k].id]
  {
    RewriteDetected(d, rows, k, g);
    ColumnDecides(rows[k].fields, g, c);
  }

  /** Two verifying logs with one head that agree on the other columns agree on this one, in every row. */
  lemma SameHeadSameColumn(d: Digest, a: seq<Row>, b: seq<Row>, c: Column)
    requires HexDigest(d) && Verified(d, a) && Verified(d, b) && NamedActions(a) && NamedActions(b)
    requires Head(a) == Head(b) && NoCollision(d, Inputs(a) + Inputs(b))
    requires forall i :: 0 <= i < |a| && i < |b| ==> SameBut(a[i].fields, b[i].fields, c)
    ensures |a| == |b| && forall i :: 0 <= i < |a| ==> TextOf(a[i].fields, c) == TextOf(b[i].fields, c)
  {
    SameHeadSameLog(d, a, b);
    forall i | 0 <= i < |a| ensures TextOf(a[i].fields, c) == TextOf(b[i].fields, c) {
      ColumnDecides(a[i].fields, b[i].fields, c);
    }
  }

  // ---- rewriting a row and its hash ----------------------------------------

  /** The columns of a row replaced and its hash computed anew. */
  function Forged(d: Digest, rows: seq<Row>, k: nat, g: Fields): seq<Row>
    requires k < |rows|
  {
    rows[k := rows[k].(fields := g, rowHash := d(ChainInput(PrevHash(rows, k), g)))]
  }

  lemma ForgedOthers(d: Digest, rows: seq<Row>, k: nat, g: Fields, i: nat)
    requires Verified(d, rows) && k < |rows| && i < |rows| && i != k + 1
    ensures RowVerifies(d, Forged(d, rows, k, g), i)
  {
    var after := Forged(d, rows, k, g);
    assert RowVerifies(d, rows, i) && PrevHash(after, i) == PrevHash(rows, i);
  }

  lemma ForgedHashDiffers(d: Digest, rows: seq<Row>, k: nat, g: Fields)
    requires Verified(d, rows) && k < |rows| && Payload(g) != Payload(rows[k].fields)
    requires NoCollision(d, Inputs(rows) + Inputs(Forged(d, rows, k, g)))
    ensures Forged(d, rows, k, g)[k].rowHash != rows[k].rowHash
  {
    var after := Forged(d, rows, k, g);
    assert RowVerifies(d, rows, k) && PrevHash(after, k) == PrevHash(rows, k);
    SuffixEqual(Utf8(PrevHash(rows, k)), Payload(g), Payload(rows[k].fields));
    assert Input(rows, k) in Inputs(rows) && Input(after, k) in Inputs(after);
  }

  lemma NextRowBreaks(d: Digest, rows: seq<Row>, k: nat, g: Fields)
    requires HexDigest(d) && Verified(d, rows) && NamedActions(rows) && k + 1 < |rows|
    requires Payload(g) != Payload(rows[k].fields)
    requires NoCollision(d, Inputs(rows) + Inputs(Forged(d, rows, k, g)))
    ensures !RowVerifies(d, Forged(d, rows, k, g), k + 1)
  {
    var after, f := Forged(d, rows, k, g), rows[k + 1].fields;
    ForgedHashDiffers(d, rows, k, g);
    assert RowVerifies(d, rows, k) && RowVerifies(d, rows, k + 1);
    assert Input(rows, k + 1) in Inputs(rows) && Input(after, k + 1) in Inputs(after);
    if Input(after, k + 1) == Input(rows, k + 1) {
      SameInputs(after[k].rowHash, rows[k].rowHash, f, f);
    }
  }

  /** A row rewritten together with its hash gives itself away in the row after it. */
  lemma ForgeryDetected(d: Digest, rows: seq<Row>, k: nat, g: Fields)
    requires HexDigest(d) && Verified(d, rows) && NamedActions(rows) && k + 1 < |rows|
    requires Payload(g) != Payload(rows[k].fields)
    requires NoCollision(d, Inputs(rows) + Inputs(Forged(d, rows, k, g)))
    ensures Mismatches(d, Forged(d, rows, k, g)) == [rows[k + 1].id]
  {
    var after := Forged(d, rows, k, g);
    forall i | 0 <= i < |after| && i != k + 1 ensures RowVerifies(d, after, i) {
      ForgedOthers(d, rows, k, g, i);
    }
    NextRowBreaks(d, rows, k, g);
    OneMismatch(d, after, k + 1);
  }

  /** As the last row it does so only in the head. */
  lemma LastForgeryChangesHead(d: Digest, rows: seq<Row>, g: Fields)
    requires Verified(d, rows) && rows != [] && Payload(g) != Payload(rows[|rows| - 1].fields)
    requires NoCollision(d, Inputs(rows) + Inputs(Forged(d, rows, |rows| - 1, g)))
    ensures Mismatches(d, Forged(d, rows, |rows| - 1, g)) == []
    ensures Head(Forged(d, rows, |rows| - 1, g)) != Head(rows)
  {
    var k := |rows| - 1;
    var after := Forged(d, rows, k, g);
    forall i | 0 <= i < |after| ensures RowVerifies(d, after, i) {
      ForgedOthers(d, rows, k, g, i);
    }
    MismatchesEmpty(d, after);
    ForgedHashDiffers(d, rows, k, g);
  }
}
