/** Certificate revocation lists: grouping by issuing CA, numbering, and what the verifier knows over a run. */
module Revocation {
  import opened Text
  import opened Encoding
  import opened Ordering

  /** A certificate authority: the self-generated root, or an imported sub-CA known by its serial. */
  datatype Ca = RootCa | SubCa(serial: string)

  /** A certificate row. `signedBy` is the CA that really signed it, which the table does not hold. */
  datatype Cert = Cert(
    id: nat, serial: string, issuerSerial: Option<string>, revokedAt: Option<nat>, expires: nat, signedBy: Ca)

  datatype Crl = Crl(signer: Ca, number: nat, serials: seq<string>)

  /** The persisted counters, one per issuer key. */
  datatype Numbers = Numbers(root: nat, issuing: nat)

  /** A hexadecimal digit of either case. */
  predicate IsHex(c: char) { IsHexDigit(c) || 'A' <= c <= 'F' }

  /** `hex::decode` accepts the text. */
  predicate Decodes(t: string) {
    |t| % 2 == 0 && forall i :: 0 <= i < |t| ==> IsHex(t[i])
  }

  /** Revoked and not yet expired by itself. */
  predicate Selected(c: Cert, now: nat) { c.revokedAt.Some? && c.expires > now }

  function IsSelected(now: nat): Cert -> bool { c => Selected(c, now) }

  function RevocationKey(c: Cert): Key { (OrElse(c.revokedAt, 0), 0) }

  /** The rows a list can name, the earliest revocation first. */
  function RevokedRows(rows: seq<Cert>, now: nat): seq<Cert> { Pick(rows, IsSelected(now), RevocationKey) }

  predicate AllDecode(rows: seq<Cert>, now: nat) {
    forall i :: 0 <= i < |rows| && Selected(rows[i], now) ==> Decodes(Trim(rows[i].serial))
  }

  predicate InIssuingGroup(issuing: Option<string>, c: Cert) {
    issuing.Some? && c.issuerSerial == issuing
  }

  /** The serials of the selected rows of one group, in the order of the rows. */
  function GroupSerials(rows: seq<Cert>, issuing: Option<string>, now: nat, inIssuing: bool): seq<string> {
    if rows == [] then []
    else
      var n := |rows| - 1;
      GroupSerials(rows[..n], issuing, now, inIssuing)
      + if Selected(rows[n], now) && InIssuingGroup(issuing, rows[n]) == inIssuing then [Trim(rows[n].serial)] else []
  }

  function Bump(ns: Numbers, root: bool, issuing: bool): Numbers {
    Numbers(if root then ns.root + 1 else ns.root, if issuing then ns.issuing + 1 else ns.issuing)
  }

  datatype Generated = Refused | Done(crls: seq<Crl>, numbers: Numbers)

  /** One list per group that is not empty, each with the next number of its counter. */
  function Generate(rows: seq<Cert>, issuing: Option<string>, now: nat, ns: Numbers): Generated {
    if !AllDecode(rows, now) then Refused
    else
      var revoked := RevokedRows(rows, now);
      var r, s := GroupSerials(revoked, issuing, now, false), GroupSerials(revoked, issuing, now, true);
      Done((if r != [] then [Crl(RootCa, ns.root + 1, r)] else [])
           + (if s != [] && issuing.Some? then [Crl(SubCa(issuing.value), ns.issuing + 1, s)] else []),
           Bump(ns, r != [], s != [] && issuing.Some?))
  }

  /** The CA with its table and counters. */
  class CertAuthority {
    var rows: seq<Cert>
    var numbers: Numbers
    const issuing: Option<string>

    constructor (rs: seq<Cert>, ns: Numbers, sub: Option<string>)
      ensures rows == rs && numbers == ns && issuing == sub
    {
      rows, numbers, issuing := rs, ns, sub;
    }

    /** Sorts the revoked rows into two lists, stopping at a serial that is not hexadecimal. */
    method SortRevoked(now: nat) returns (ok: bool, rootRevoked: seq<string>, issuingRevoked: seq<string>)
      ensures ok <==> AllDecode(rows, now)
      ensures ok ==> rootRevoked == GroupSerials(RevokedRows(rows, now), issuing, now, false)
      ensures ok ==> issuingRevoked == GroupSerials(RevokedRows(rows, now), issuing, now, true)
    {
      rootRevoked, issuingRevoked := [], [];
      var revoked := RevokedRows(rows, now);
      DecodeAlike(rows, now);
      AllSelected(rows, now);
      for i := 0 to |revoked|
        invariant rootRevoked == GroupSerials(revoked[..i], issuing, now, false)
        invariant issuingRevoked == GroupSerials(revoked[..i], issuing, now, true)
        invariant AllDecode(revoked[..i], now)
      {
        var row := revoked[i];
        GroupNext(revoked, issuing, now, i);
        var serial := Trim(row.serial);
        if !Decodes(serial) {
          return false, [], [];
        }
        if issuing.Some? && row.issuerSerial == issuing {
          issuingRevoked := issuingRevoked + [serial];
        } else {
          rootRevoked := rootRevoked + [serial];
        }
        DecodeNext(revoked, i, now);
      }
      assert revoked[..|revoked|] == revoked;
      ok := true;
    }

    /** `generate_crls`: sort the revoked rows, then draw a number and sign per list. */
    method GenerateCrls(now: nat) returns (result: Generated)
      modifies this`numbers
      ensures result == Generate(rows, issuing, now, old(numbers))
      ensures numbers == if result.Done? then result.numbers else old(numbers)
    {
      var ok, rootRevoked, issuingRevoked := SortRevoked(now);
      if !ok {
        return Refused;
      }
      var crls: seq<Crl> := [];
      var ns := numbers;
      if rootRevoked != [] {
        ns := ns.(root := ns.root + 1);
        crls := crls + [Crl(RootCa, ns.root, rootRevoked)];
      }
      if issuingRevoked != [] && issuing.Some? {
        ns := ns.(issuing := ns.issuing + 1);
        crls := crls + [Crl(SubCa(issuing.value), ns.issuing, issuingRevoked)];
      }
      numbers := ns;
      result := Done(crls, ns);
    }
  }

  lemma DecodeAlike(rows: seq<Cert>, now: nat)
    ensures AllDecode(RevokedRows(rows, now), now) <==> AllDecode(rows, now)
  {
    var revoked := RevokedRows(rows, now);
    forall c ensures c in revoked <==> c in rows && Selected(c, now) {
      PickedIff(rows, IsSelected(now), RevocationKey, c);
    }
    if AllDecode(revoked, now) {
      forall i | 0 <= i < |rows| && Selected(rows[i], now) ensures Decodes(Trim(rows[i].serial)) {
        assert rows[i] in revoked;
      }
    }
    if AllDecode(rows, now) {
      forall i | 0 <= i < |revoked| && Selected(revoked[i], now) ensures Decodes(Trim(revoked[i].serial)) {
        assert revoked[i] in rows;
      }
    }
  }

  lemma AllSelected(rows: seq<Cert>, now: nat)
    ensures
      var revoked := RevokedRows(rows, now);
      forall i :: 0 <= i < |revoked| ==> Selected(revoked[i], now)
  {
    var revoked := RevokedRows(rows, now);
    forall i | 0 <= i < |revoked| ensures Selected(revoked[i], now) {
      PickedIff(rows, IsSelected(now), RevocationKey, revoked[i]);
    }
  }

  lemma GroupNext(rows: seq<Cert>, issuing: Option<string>, now: nat, i: nat)
    requires i < |rows| && Selected(rows[i], now)
    ensures forall g ::
              GroupSerials(rows[..i + 1], issuing, now, g)
              == GroupSerials(rows[..i], issuing, now, g)
                 + if InIssuingGroup(issuing, rows[i]) == g then [Trim(rows[i].serial)] else []
  {
    assert rows[..i + 1][..i] == rows[..i] && rows[..i + 1][i] == rows[i];
  }

  lemma DecodeNext(rows: seq<Cert>, i: nat, now: nat)
    requires i < |rows| && AllDecode(rows[..i], now) && (Selected(rows[i], now) ==> Decodes(Trim(rows[i].serial)))
    ensures AllDecode(rows[..i + 1], now)
  {
    var init, next := rows[..i], rows[..i + 1];
    assert forall j :: 0 <= j < i ==> next[j] == init[j];
  }

  // ---- hexadecimal serials -------------------------------------------------

  function HexChar(n: nat): char
    requires n < 16
  {
    if n < 10 then ('0' as int + n) as char else ('a' as int + (n - 10)) as char
  }

  /** `hex::encode`, which writes the serial of every certificate signed here. */
  function HexText(b: Bytes): string {
    if b == [] then "" else [HexChar(b[0] as nat / 16), HexChar(b[0] as nat % 16)] + HexText(b[1..])
  }

  function HexValue(c: char): Option<nat> {
    if '0' <= c <= '9' then Some(c as nat - '0' as nat)
    else if 'a' <= c <= 'f' then Some(c as nat - 'a' as nat + 10)
    else if 'A' <= c <= 'F' then Some(c as nat - 'A' as nat + 10)
    else None
  }

  /** The bytes a text stands for, two digits of either case each. */
  function FromHex(t: string): Option<Bytes> {
    if t == "" then Some([])
    else if |t| == 1 || HexValue(t[0]).None? || HexValue(t[1]).None? then None
    else match FromHex(t[2..])
      case None => None
      case Some(b) => Some([(16 * HexValue(t[0]).value + HexValue(t[1]).value) as byte] + b)
  }

  /** A serial decodes iff it stands for bytes. */
  lemma {:induction false} DecodesIff(t: string)
    ensures Decodes(t) <==> FromHex(t).Some?
  {
    if |t| == 1 {
      assert |t| % 2 == 1;
    } else if t != "" {
      DecodesIff(t[2..]);
      assert forall i :: 2 <= i < |t| ==> t[i] == t[2..][i - 2];
      assert IsHex(t[0]) <==> HexValue(t[0]).Some?;
      assert IsHex(t[1]) <==> HexValue(t[1]).Some?;
    }
  }

  lemma {:induction false} HexReadsBack(b: Bytes)
    ensures FromHex(HexText(b)) == Some(b)
  {
    if b != [] {
      HexReadsBack(b[1..]);
      var t := HexText(b);
      assert t[2..] == HexText(b[1..]);
      var hi, lo := b[0] as nat / 16, b[0] as nat % 16;
      assert HexValue(t[0]) == Some(hi) && HexValue(t[1]) == Some(lo) && 16 * hi + lo == b[0] as nat;
      assert FromHex(t) == Some([b[0]] + b[1..]) && b == [b[0]] + b[1..];
    }
  }

  lemma {:induction false} HexSpaceFree(b: Bytes)
    ensures SpaceFree(HexText(b))
  {
    if b != [] {
      HexSpaceFree(b[1..]);
      var t, rest := HexText(b), HexText(b[1..]);
      assert !IsSpace(t[0]) && !IsSpace(t[1]);
      assert forall i :: 2 <= i < |t| ==> t[i] == rest[i - 2];
    }
  }

  /** The serial of a certificate signed here never stops the lists. */
  lemma SignedSerialDecodes(b: Bytes)
    ensures Decodes(Trim(HexText(b)))
  {
    HexReadsBack(b);
    HexSpaceFree(b);
    TrimSpaceFree(HexText(b));
    DecodesIff(HexText(b));
  }

  // ---- where a revoked certificate is listed -------------------------------

  /** The table records faithfully which CA signed a row; a sub-CA has a serial. */
  predicate Faithful(c: Cert) {
    match c.signedBy
    case RootCa => c.issuerSerial.None?
    case SubCa(s) => s != "" && c.issuerSerial == Some(s)
  }

  /** The CA whose list a row goes to. */
  function ListedUnder(issuing: Option<string>, c: Cert): Ca {
    if InIssuingGroup(issuing, c) then SubCa(issuing.value) else RootCa
  }

  /** The CAs the verifier trusts that can sign lists: the root always, the sub-CA while it is imported. */
  predicate Anchored(issuing: Option<string>, ca: Ca) {
    ca == RootCa || (issuing.Some? && ca == SubCa(issuing.value))
  }

  /** A row is listed under its own signer exactly when that signer is an anchor. */
  lemma ListedUnderSigner(issuing: Option<string>, c: Cert)
    requires Faithful(c) && issuing != Some("")
    ensures ListedUnder(issuing, c) == c.signedBy <==> Anchored(issuing, c.signedBy)
  {
  }

  /** The row puts this serial into the list of this group. */
  predicate Lists(c: Cert, issuing: Option<string>, now: nat, inIssuing: bool, t: string) {
    Selected(c, now) && InIssuingGroup(issuing, c) == inIssuing && Trim(c.serial) == t
  }

  predicate SomeLists(rows: seq<Cert>, issuing: Option<string>, now: nat, inIssuing: bool, t: string) {
    exists i :: 0 <= i < |rows| && Lists(rows[i], issuing, now, inIssuing, t)
  }

  lemma SomeListsNext(rows: seq<Cert>, c: Cert, issuing: Option<string>, now: nat, inIssuing: bool, t: string)
    ensures SomeLists(rows + [c], issuing, now, inIssuing, t)
       <==> SomeLists(rows, issuing, now, inIssuing, t) || Lists(c, issuing, now, inIssuing, t)
  {
    var all := rows + [c];
    assert all[|rows|] == c;
    if i :| 0 <= i < |rows| && Lists(rows[i], issuing, now, inIssuing, t) {
      assert all[i] == rows[i];
    }
    if i :| 0 <= i < |all| && Lists(all[i], issuing, now, inIssuing, t) {
      assert i < |rows| ==> rows[i] == all[i];
    }
  }

  lemma {:induction false} SerialsMean(rows: seq<Cert>, issuing: Option<string>, now: nat, inIssuing: bool, t: string)
    ensures t in GroupSerials(rows, issuing, now, inIssuing) <==> SomeLists(rows, issuing, now, inIssuing, t)
  {
    if rows != [] {
      var n := |rows| - 1;
      SerialsMean(rows[..n], issuing, now, inIssuing, t);
      assert rows == rows[..n] + [rows[n]];
      SomeListsNext(rows[..n], rows[n], issuing, now, inIssuing, t);
    }
  }

  /** Selecting and ordering the rows changes nothing about what is listed. */
  lemma ListedAlike(rows: seq<Cert>, issuing: Option<string>, now: nat, inIssuing: bool, t: string)
    ensures SomeLists(RevokedRows(rows, now), issuing, now, inIssuing, t)
       <==> SomeLists(rows, issuing, now, inIssuing, t)
  {
    var revoked := RevokedRows(rows, now);
    if i :| 0 <= i < |rows| && Lists(rows[i], issuing, now, inIssuing, t) {
      PickedIff(rows, IsSelected(now), RevocationKey, rows[i]);
      var j :| 0 <= j < |revoked| && revoked[j] == rows[i];
      assert Lists(revoked[j], issuing, now, inIssuing, t);
    }
    if i :| 0 <= i < |revoked| && Lists(revoked[i], issuing, now, inIssuing, t) {
      PickedIff(rows, IsSelected(now), RevocationKey, revoked[i]);
      var j :| 0 <= j < |rows| && rows[j] == revoked[i];
      assert Lists(rows[j], issuing, now, inIssuing, t);
    }
  }

  predicate ListsSerial(crls: seq<Crl>, ca: Ca, t: string) {
    exists k :: 0 <= k < |crls| && crls[k].signer == ca && t in crls[k].serials
  }

  predicate DistinctSerials(rows: seq<Cert>) {
    forall i, j :: 0 <= i < j < |rows| ==> Trim(rows[i].serial) != Trim(rows[j].serial)
  }

  /** Every revoked, unexpired row is in the list of the CA it is grouped under, and in no other list. */
  lemma ListedExactlyOnce(rows: seq<Cert>, issuing: Option<string>, now: nat, ns: Numbers, i: nat, ca: Ca)
    requires DistinctSerials(rows) && AllDecode(rows, now) && i < |rows| && Selected(rows[i], now)
    ensures ListsSerial(Generate(rows, issuing, now, ns).crls, ca, Trim(rows[i].serial))
       <==> ca == ListedUnder(issuing, rows[i])
  {
    var t := Trim(rows[i].serial);
    var revoked := RevokedRows(rows, now);
    var r, s := GroupSerials(revoked, issuing, now, false), GroupSerials(revoked, issuing, now, true);
    SerialsMean(revoked, issuing, now, false, t);
    SerialsMean(revoked, issuing, now, true, t);
    ListedAlike(rows, issuing, now, false, t);
    ListedAlike(rows, issuing, now, true, t);
    OnlyOne(rows, issuing, now, i);
    ListsOf(r, s, issuing, ns, ca, t);
  }

  /** A list names only rows of its CA's group that are revoked and have not expired. */
  lemma OnlyRevokedListed(rows: seq<Cert>, issuing: Option<string>, now: nat, ns: Numbers, ca: Ca, t: string)
    requires AllDecode(rows, now) && ListsSerial(Generate(rows, issuing, now, ns).crls, ca, t)
    ensures exists i :: 0 <= i < |rows| && Trim(rows[i].serial) == t && rows[i].revokedAt.Some?
                        && rows[i].expires > now && ca == ListedUnder(issuing, rows[i])
  {
    var revoked := RevokedRows(rows, now);
    var r, s := GroupSerials(revoked, issuing, now, false), GroupSerials(revoked, issuing, now, true);
    ListsOf(r, s, issuing, ns, ca, t);
    var inIssuing := ca != RootCa;
    SerialsMean(revoked, issuing, now, inIssuing, t);
    ListedAlike(rows, issuing, now, inIssuing, t);
    var i :| 0 <= i < |rows| && Lists(rows[i], issuing, now, inIssuing, t);
    assert rows[i].revokedAt.Some? && rows[i].expires > now;
  }

  /** The rows behind the serials of one group, in the order of the rows. */
  lemma {:induction false} SerialRows(rows: seq<Cert>, issuing: Option<string>, now: nat, g: bool)
    returns (cs: seq<Cert>)
    requires InOrder(rows, RevocationKey)
    ensures
      var ts := GroupSerials(rows, issuing, now, g);
      && |cs| == |ts| && InOrder(cs, RevocationKey)
      && forall k :: 0 <= k < |cs| ==> cs[k] in rows && Lists(cs[k], issuing, now, g, ts[k])
  {
    cs := [];
    if rows != [] {
      var n := |rows| - 1;
      var init := SerialRows(rows[..n], issuing, now, g);
      cs := init + if Selected(rows[n], now) && InIssuingGroup(issuing, rows[n]) == g then [rows[n]] else [];
      LaterRow(rows, init);
    }
  }

  lemma LaterRow(rows: seq<Cert>, init: seq<Cert>)
    requires rows != [] && InOrder(rows, RevocationKey) && InOrder(init, RevocationKey)
    requires forall k :: 0 <= k < |init| ==> init[k] in rows[..|rows| - 1]
    ensures InOrder(init + [rows[|rows| - 1]], RevocationKey)
  {
    var n := |rows| - 1;
    forall k | 0 <= k < |init| ensures Leq(RevocationKey(init[k]), RevocationKey(rows[n])) {
      var j :| 0 <= j < n && rows[j] == init[k];
    }
  }

  /** A list names its rows in the order of their revocation. */
  lemma ListedInOrder(rows: seq<Cert>, issuing: Option<string>, now: nat, ns: Numbers, c: Crl) returns (cs: seq<Cert>)
    requires AllDecode(rows, now) && c in Generate(rows, issuing, now, ns).crls
    ensures |cs| == |c.serials| && forall k :: 0 <= k < |cs| ==>
              && cs[k] in rows && Trim(cs[k].serial) == c.serials[k] && ListedUnder(issuing, cs[k]) == c.signer
              && cs[k].revokedAt.Some? && cs[k].expires > now
    ensures forall i, j :: 0 <= i < j < |cs| ==> cs[i].revokedAt.value <= cs[j].revokedAt.value
  {
    var g, revoked := c.signer != RootCa, RevokedRows(rows, now);
    PickMeans(rows, IsSelected(now), RevocationKey);
    cs := SerialRows(revoked, issuing, now, g);
    forall k | 0 <= k < |cs| ensures cs[k] in rows {
      PickedIff(rows, IsSelected(now), RevocationKey, cs[k]);
    }
    assert forall i, j :: 0 <= i < j < |cs| ==> Leq(RevocationKey(cs[i]), RevocationKey(cs[j]));
  }

  /** With distinct serials only the row itself lists its serial. */
  lemma OnlyOne(rows: seq<Cert>, issuing: Option<string>, now: nat, i: nat)
    requires DistinctSerials(rows) && i < |rows| && Selected(rows[i], now)
    ensures
      var t := Trim(rows[i].serial);
      forall g :: SomeLists(rows, issuing, now, g, t) <==> InIssuingGroup(issuing, rows[i]) == g
  {
    var t := Trim(rows[i].serial);
    forall g ensures SomeLists(rows, issuing, now, g, t) <==> InIssuingGroup(issuing, rows[i]) == g {
      assert Lists(rows[i], issuing, now, InIssuingGroup(issuing, rows[i]), t);
    }
  }

  lemma ListsOf(r: seq<string>, s: seq<string>, issuing: Option<string>, ns: Numbers, ca: Ca, t: string)
    ensures
      var crls := (if r != [] then [Crl(RootCa, ns.root + 1, r)] else [])
                  + (if s != [] && issuing.Some? then [Crl(SubCa(issuing.value), ns.issuing + 1, s)] else []);
      ListsSerial(crls, ca, t) <==>
        (ca == RootCa && t in r) || (issuing.Some? && ca == SubCa(issuing.value) && t in s)
  {
    var a: seq<Crl> := if r != [] then [Crl(RootCa, ns.root + 1, r)] else [];
    var b: seq<Crl> := if s != [] && issuing.Some? then [Crl(SubCa(issuing.value), ns.issuing + 1, s)] else [];
    var crls := a + b;
    if ca == RootCa && t in r {
      assert crls[0] == a[0];
    }
    if issuing.Some? && ca == SubCa(issuing.value) && t in s {
      assert crls[|a|] == b[0];
    }
  }

  // ---- runs ----------------------------------------------------------------

  /** `published` is what the verifier holds, generated at `since`; `signed` is every list ever signed. */
  datatype Pki = Pki(
    rows: seq<Cert>, issuing: Option<string>, numbers: Numbers, published: seq<Crl>, since: nat, signed: seq<Crl>)

  datatype PkiEvent =
    | Enroll(id: nat, serial: string, expires: nat)
    | Revoke(id: nat, now: nat)
    | Start(issuing: Option<string>, now: nat)
    | FetchCrl(now: nat)
    | DropRow(id: nat)

  function RecordedIssuer(issuing: Option<string>): Option<string> {
    if issuing == Some("") then None else issuing
  }

  /** `approve_enrollment`: the leaf row, with the serial of the issuing CA. */
  function EnrolledRow(issuing: Option<string>, id: nat, serial: string, expires: nat): Cert {
    Cert(id, serial, RecordedIssuer(issuing), None, expires,
         if issuing.Some? then SubCa(issuing.value) else RootCa)
  }

  /** The row records the CA that signed it, unless that CA has no serial; an empty serial is never recorded. */
  lemma EnrolledFaithful(issuing: Option<string>, id: nat, serial: string, expires: nat)
    ensures
      var c := EnrolledRow(issuing, id, serial, expires);
      && (Faithful(c) <==> issuing != Some("")) && c.issuerSerial != Some("") && c.revokedAt.None?
      && Anchored(issuing, c.signedBy)
  {
  }

  function MarkRevoked(rows: seq<Cert>, id: nat, now: nat): (out: seq<Cert>)
    ensures |out| == |rows|
    ensures forall i :: 0 <= i < |rows| ==>
              out[i] == if rows[i].id == id then rows[i].(revokedAt := Some(now)) else rows[i]
  {
    seq(|rows|, i requires 0 <= i < |rows| => if rows[i].id == id then rows[i].(revokedAt := Some(now)) else rows[i])
  }

  function Without(rows: seq<Cert>, id: nat): (out: seq<Cert>)
    ensures forall c :: c in out ==> c in rows
  {
    if rows == [] then []
    else Without(rows[..|rows| - 1], id) + if rows[|rows| - 1].id == id then [] else [rows[|rows| - 1]]
  }

  /** Generates lists and hands them to the verifier; a refusal leaves the verifier as it was. */
  function Publish(p: Pki, now: nat): Pki {
    match Generate(p.rows, p.issuing, now, p.numbers)
    case Refused => p
    case Done(crls, ns) => p.(numbers := ns, published := crls, since := now, signed := p.signed + crls)
  }

  function NextPki(p: Pki, e: PkiEvent): Pki {
    match e
    case Enroll(id, serial, expires) => p.(rows := p.rows + [EnrolledRow(p.issuing, id, serial, expires)])
    case Revoke(id, now) => Publish(p.(rows := MarkRevoked(p.rows, id, now)), now)
    case Start(issuing, now) => Publish(p.(issuing := issuing), now)
    case FetchCrl(now) =>
      (match Generate(p.rows, p.issuing, now, p.numbers)
       case Refused => p
       case Done(crls, ns) => p.(numbers := ns, signed := p.signed + crls))
    case DropRow(id) => p.(rows := Without(p.rows, id))
  }

  function RunPki(p: Pki, es: seq<PkiEvent>): Pki {
    if es == [] then p else NextPki(RunPki(p, es[..|es| - 1]), es[|es| - 1])
  }

  // ---- numbering -----------------------------------------------------------

  function LastNumber(ns: Numbers, ca: Ca): nat { if ca == RootCa then ns.root else ns.issuing }

  /** Per issuer the numbers of the lists signed strictly increase, and the counter is the highest. */
  predicate Numbered(p: Pki) {
    && (forall i, j :: 0 <= i < j < |p.signed| && p.signed[i].signer == p.signed[j].signer ==>
          p.signed[i].number < p.signed[j].number)
    && (forall i :: 0 <= i < |p.signed| ==> p.signed[i].number <= LastNumber(p.numbers, p.signed[i].signer))
  }

  /** The numbers of freshly signed lists: each the next of its issuer, no issuer twice. */
  predicate NextNumbers(before: Numbers, crls: seq<Crl>, after: Numbers) {
    && (forall k :: 0 <= k < |crls| ==>
          LastNumber(before, crls[k].signer) < crls[k].number == LastNumber(after, crls[k].signer))
    && (forall i, j :: 0 <= i < j < |crls| ==> crls[i].signer != crls[j].signer)
    && before.root <= after.root && before.issuing <= after.issuing
  }

  lemma GeneratedNext(p: Pki, now: nat, crls: seq<Crl>, ns: Numbers)
    requires Generate(p.rows, p.issuing, now, p.numbers) == Done(crls, ns)
    ensures NextNumbers(p.numbers, crls, ns)
  {
  }

  lemma NextNumbered(p: Pki, crls: seq<Crl>, ns: Numbers)
    requires Numbered(p) && NextNumbers(p.numbers, crls, ns)
    ensures Numbered(p.(numbers := ns, signed := p.signed + crls))
  {
    var q := p.(numbers := ns, signed := p.signed + crls);
    var m := |p.signed|;
    assert forall i :: 0 <= i < m ==> q.signed[i] == p.signed[i];
    assert forall i :: m <= i < |q.signed| ==> q.signed[i] == crls[i - m];
  }

  lemma GeneratedNumbered(p: Pki, now: nat, crls: seq<Crl>, ns: Numbers)
    requires Numbered(p) && Generate(p.rows, p.issuing, now, p.numbers) == Done(crls, ns)
    ensures Numbered(p.(numbers := ns, signed := p.signed + crls))
  {
    GeneratedNext(p, now, crls, ns);
    NextNumbered(p, crls, ns);
  }

  /** CRL numbers strictly increase per issuer over every run, as section 5.2.3 of RFC 5280 asks. */
  lemma {:induction false} NumbersIncrease(p: Pki, es: seq<PkiEvent>)
    requires Numbered(p)
    ensures Numbered(RunPki(p, es))
  {
    if es != [] {
      var n := |es| - 1;
      NumbersIncrease(p, es[..n]);
      EventNumbered(RunPki(p, es[..n]), es[n]);
    }
  }

  lemma EventNumbered(q: Pki, e: PkiEvent)
    requires Numbered(q)
    ensures Numbered(NextPki(q, e))
  {
    match e
    case Revoke(id, now) => PublishNumbered(q.(rows := MarkRevoked(q.rows, id, now)), now);
    case Start(issuing, now) => PublishNumbered(q.(issuing := issuing), now);
    case FetchCrl(now) =>
      var g := Generate(q.rows, q.issuing, now, q.numbers);
      if g.Done? {
        GeneratedNumbered(q, now, g.crls, g.numbers);
      }
    case _ =>
  }

  lemma PublishNumbered(q: Pki, now: nat)
    requires Numbered(q)
    ensures Numbered(Publish(q, now))
  {
    var g := Generate(q.rows, q.issuing, now, q.numbers);
    if g.Done? {
      GeneratedNumbered(q, now, g.crls, g.numbers);
    }
  }

  // ---- revoked certificates stay listed ------------------------------------

  /** The certificate is known as revoked to a verifier that checks it against its signer's list. */
  predicate Known(p: Pki, c: Cert) { ListsSerial(p.published, c.signedBy, Trim(c.serial)) }

  /** Every revoked row of an anchor is known until it expires. */
  ghost predicate Covered(p: Pki) {
    forall c :: c in p.rows && c.revokedAt.Some? && Anchored(p.issuing, c.signedBy) ==>
      c.expires <= p.since || Known(p, c)
  }

  predicate DistinctIds(rows: seq<Cert>) {
    forall i, j :: 0 <= i < j < |rows| ==> rows[i].id != rows[j].id
  }

  /** What the table and the verifier keep: keys are distinct, issuers are recorded faithfully, only the root's own
      row may have a serial that is not hexadecimal, and the lists hold only hexadecimal serials. */
  predicate GoodPki(p: Pki) {
    && DistinctSerials(p.rows) && DistinctIds(p.rows) && p.issuing != Some("")
    && (forall i :: 0 <= i < |p.rows| ==> Faithful(p.rows[i]))
    && (forall i :: 0 <= i < |p.rows| && !Decodes(Trim(p.rows[i].serial)) ==> p.rows[i].signedBy == RootCa)
    && HexLists(p.published)
  }

  predicate HexLists(crls: seq<Crl>) {
    forall k, j :: 0 <= k < |crls| && 0 <= j < |crls[k].serials| ==> Decodes(crls[k].serials[j])
  }

  /** No revoked row that a list could still name stops the generation. */
  predicate Listable(p: Pki) {
    forall i :: 0 <= i < |p.rows| && p.rows[i].revokedAt.Some? && p.rows[i].expires > p.since ==>
      Decodes(Trim(p.rows[i].serial))
  }

  /** Events as the handlers and the clock allow them: a new key and a hexadecimal serial for a new row, a sub-CA
      with a serial, and time that does not run backwards. */
  predicate Regular(p: Pki, e: PkiEvent) {
    match e
    case Enroll(id, serial, _) =>
      Decodes(Trim(serial))
      && forall i :: 0 <= i < |p.rows| ==> Trim(p.rows[i].serial) != Trim(serial) && p.rows[i].id != id
    case Revoke(_, now) => p.since <= now
    case Start(issuing, now) => issuing != Some("") && p.since <= now
    case _ => true
  }

  /** The event revokes an unexpired row whose serial is not hexadecimal. */
  predicate Unlistable(p: Pki, e: PkiEvent) {
    e.Revoke? && exists i :: 0 <= i < |p.rows| && p.rows[i].id == e.id && p.rows[i].expires > e.now
                             && !Decodes(Trim(p.rows[i].serial))
  }

  lemma {:induction false} GroupSerialsHex(rows: seq<Cert>, issuing: Option<string>, now: nat, inIssuing: bool)
    requires AllDecode(rows, now)
    ensures forall j :: 0 <= j < |GroupSerials(rows, issuing, now, inIssuing)| ==>
              Decodes(GroupSerials(rows, issuing, now, inIssuing)[j])
  {
    if rows != [] {
      GroupSerialsHex(rows[..|rows| - 1], issuing, now, inIssuing);
    }
  }

  lemma GeneratedHex(p: Pki, now: nat)
    requires AllDecode(p.rows, now)
    ensures HexLists(Generate(p.rows, p.issuing, now, p.numbers).crls)
  {
    DecodeAlike(p.rows, now);
    GroupSerialsHex(RevokedRows(p.rows, now), p.issuing, now, false);
    GroupSerialsHex(RevokedRows(p.rows, now), p.issuing, now, true);
  }

  lemma PublishCovers(p: Pki, now: nat)
    requires GoodPki(p) && AllDecode(p.rows, now)
    ensures Covered(Publish(p, now)) && GoodPki(Publish(p, now)) && Listable(Publish(p, now))
  {
    GeneratedHex(p, now);
    var q := Publish(p, now);
    assert forall i :: 0 <= i < |p.rows| && Selected(p.rows[i], now) ==> Decodes(Trim(p.rows[i].serial));
    forall c | c in p.rows && c.revokedAt.Some? && Anchored(p.issuing, c.signedBy)
      ensures c.expires <= now || Known(q, c)
    {
      var i :| 0 <= i < |p.rows| && p.rows[i] == c;
      if c.expires > now {
        ListedExactlyOnce(p.rows, p.issuing, now, p.numbers, i, c.signedBy);
        ListedUnderSigner(p.issuing, c);
      }
    }
  }

  lemma NotKnown(p: Pki, c: Cert)
    requires HexLists(p.published) && !Decodes(Trim(c.serial))
    ensures !Known(p, c)
  {
  }

  lemma MarkKeepsGood(p: Pki, id: nat, now: nat)
    requires GoodPki(p)
    ensures GoodPki(p.(rows := MarkRevoked(p.rows, id, now)))
  {
    var rows := MarkRevoked(p.rows, id, now);
    assert forall i :: 0 <= i < |rows| ==> rows[i].serial == p.rows[i].serial && rows[i].id == p.rows[i].id
                                           && rows[i].signedBy == p.rows[i].signedBy
                                           && rows[i].issuerSerial == p.rows[i].issuerSerial;
  }

  lemma RevokedDecode(p: Pki, id: nat, now: nat)
    requires Listable(p) && p.since <= now && !Unlistable(p, Revoke(id, now))
    ensures AllDecode(MarkRevoked(p.rows, id, now), now)
  {
    var rows := MarkRevoked(p.rows, id, now);
    forall i | 0 <= i < |rows| && Selected(rows[i], now) ensures Decodes(Trim(rows[i].serial)) {
      assert rows[i].serial == p.rows[i].serial && rows[i].expires == p.rows[i].expires;
      if p.rows[i].id != id {
        assert rows[i] == p.rows[i];
      }
    }
  }

  /** Revoking keeps every revoked certificate of an anchor listed iff no unexpired row is revoked whose serial is
      not hexadecimal. */
  lemma RevokeCoversIff(p: Pki, id: nat, now: nat)
    requires GoodPki(p) && Listable(p) && Covered(p) && p.since <= now
    ensures
      var q := NextPki(p, Revoke(id, now));
      (Covered(q) <==> !Unlistable(p, Revoke(id, now))) && (Covered(q) ==> GoodPki(q) && Listable(q))
  {
    var marked := p.(rows := MarkRevoked(p.rows, id, now));
    MarkKeepsGood(p, id, now);
    if Unlistable(p, Revoke(id, now)) {
      UnlistedAfter(p, id, now);
    } else {
      RevokedDecode(p, id, now);
      PublishCovers(marked, now);
    }
  }

  /** A revocation takes hold at once: a row with a hexadecimal serial, signed by an anchor and not expired, is marked
      and known to the verifier when the handler is done. */
  lemma RevokedIsKnown(p: Pki, i: nat, now: nat)
    requires GoodPki(p) && Listable(p) && Covered(p) && p.since <= now && i < |p.rows|
    requires Decodes(Trim(p.rows[i].serial)) && p.rows[i].expires > now && Anchored(p.issuing, p.rows[i].signedBy)
    ensures
      var q := NextPki(p, Revoke(p.rows[i].id, now));
      |q.rows| == |p.rows| && q.rows[i] == p.rows[i].(revokedAt := Some(now)) && Known(q, q.rows[i])
  {
    var id := p.rows[i].id;
    var marked, q := p.(rows := MarkRevoked(p.rows, id, now)), NextPki(p, Revoke(id, now));
    OnlyThatRow(p, i, now);
    RevokedDecode(p, id, now);
    MarkKeepsGood(p, id, now);
    PublishCovers(marked, now);
    assert q.since == now && q.rows == marked.rows;
    assert q.rows[i] in q.rows;
  }

  lemma OnlyThatRow(p: Pki, i: nat, now: nat)
    requires DistinctIds(p.rows) && i < |p.rows| && Decodes(Trim(p.rows[i].serial))
    ensures !Unlistable(p, Revoke(p.rows[i].id, now))
  {
  }

  /** Such a row goes unlisted. */
  lemma UnlistedAfter(p: Pki, id: nat, now: nat)
    requires GoodPki(p) && p.since <= now && Unlistable(p, Revoke(id, now))
    ensures !Covered(NextPki(p, Revoke(id, now)))
  {
    var q := NextPki(p, Revoke(id, now));
    var rows := MarkRevoked(p.rows, id, now);
    var i :| 0 <= i < |p.rows| && p.rows[i].id == id && p.rows[i].expires > now && !Decodes(Trim(p.rows[i].serial));
    assert Selected(rows[i], now) && !AllDecode(rows, now);
    assert q.rows == rows && q.published == p.published && q.since == p.since;
    NotKnown(q, rows[i]);
    assert rows[i] in q.rows;
  }

  lemma {:induction false} WithoutDistinctSerials(rows: seq<Cert>, id: nat)
    requires DistinctSerials(rows)
    ensures DistinctSerials(Without(rows, id))
  {
    if rows != [] {
      var n := |rows| - 1;
      assert DistinctSerials(rows[..n]);
      WithoutDistinctSerials(rows[..n], id);
      forall c | c in Without(rows[..n], id) ensures Trim(c.serial) != Trim(rows[n].serial) {
        var i :| 0 <= i < n && rows[i] == c;
      }
    }
  }

  lemma {:induction false} WithoutDistinctIds(rows: seq<Cert>, id: nat)
    requires DistinctIds(rows)
    ensures DistinctIds(Without(rows, id))
  {
    if rows != [] {
      var n := |rows| - 1;
      assert DistinctIds(rows[..n]);
      WithoutDistinctIds(rows[..n], id);
      forall c | c in Without(rows[..n], id) ensures c.id != rows[n].id {
        var i :| 0 <= i < n && rows[i] == c;
      }
    }
  }

  lemma DropKeeps(p: Pki, id: nat)
    requires GoodPki(p) && Listable(p) && Covered(p)
    ensures
      var q := NextPki(p, DropRow(id));
      GoodPki(q) && Listable(q) && Covered(q)
  {
    WithoutDistinctSerials(p.rows, id);
    WithoutDistinctIds(p.rows, id);
    var q := NextPki(p, DropRow(id));
    forall i | 0 <= i < |q.rows| ensures exists j :: 0 <= j < |p.rows| && p.rows[j] == q.rows[i] {
      assert q.rows[i] in q.rows;
    }
  }

  lemma EnrollKeepsKeys(p: Pki, e: PkiEvent)
    requires e.Enroll? && GoodPki(p) && Regular(p, e)
    ensures DistinctSerials(NextPki(p, e).rows) && DistinctIds(NextPki(p, e).rows)
  {
    var q := NextPki(p, e);
    assert forall i :: 0 <= i < |p.rows| ==> q.rows[i] == p.rows[i];
  }

  lemma EnrollKeeps(p: Pki, e: PkiEvent)
    requires e.Enroll? && GoodPki(p) && Listable(p) && Covered(p) && Regular(p, e)
    ensures GoodPki(NextPki(p, e)) && Listable(NextPki(p, e)) && Covered(NextPki(p, e))
  {
    EnrollKeepsKeys(p, e);
    var q, row := NextPki(p, e), EnrolledRow(p.issuing, e.id, e.serial, e.expires);
    assert forall i :: 0 <= i < |q.rows| ==> q.rows[i] == if i < |p.rows| then p.rows[i] else row;
    assert Faithful(row) && row.revokedAt.None?;
  }

  lemma StartKeeps(p: Pki, issuing: Option<string>, now: nat)
    requires GoodPki(p) && Listable(p) && issuing != Some("") && p.since <= now
    ensures
      var q := NextPki(p, Start(issuing, now));
      GoodPki(q) && Listable(q) && Covered(q)
  {
    assert AllDecode(p.rows, now);
    PublishCovers(p.(issuing := issuing), now);
  }

  ghost predicate Sound(p: Pki) { GoodPki(p) && Listable(p) && Covered(p) }

  /** One event keeps every revoked certificate listed iff it is not such a revocation. */
  lemma EventSoundIff(p: Pki, e: PkiEvent)
    requires Sound(p) && Regular(p, e)
    ensures Covered(NextPki(p, e)) <==> !Unlistable(p, e)
    ensures Covered(NextPki(p, e)) ==> Sound(NextPki(p, e))
  {
    match e
    case Revoke(id, now) => RevokeCoversIff(p, id, now);
    case Start(issuing, now) => StartKeeps(p, issuing, now);
    case Enroll(_, _, _) => EnrollKeeps(p, e);
    case DropRow(id) => DropKeeps(p, id);
    case FetchCrl(_) =>
  }

  predicate RegularRun(p: Pki, es: seq<PkiEvent>) {
    es != [] ==>
      var n := |es| - 1;
      RegularRun(p, es[..n]) && Regular(RunPki(p, es[..n]), es[n])
  }

  /** No event of the run revokes an unexpired row whose serial is not hexadecimal. */
  predicate AllListable(p: Pki, es: seq<PkiEvent>) {
    es != [] ==>
      var n := |es| - 1;
      AllListable(p, es[..n]) && !Unlistable(RunPki(p, es[..n]), es[n])
  }

  /** At every moment of the run each revoked row signed by a CA the verifier trusts is in a published list of that
      CA, until the certificate expires or its row is gone. */
  ghost predicate AlwaysCovered(p: Pki, es: seq<PkiEvent>) {
    Covered(RunPki(p, es)) && (es != [] ==> AlwaysCovered(p, es[..|es| - 1]))
  }

  /** Over every run, with any sub-CAs imported and removed, revoked certificates stay listed at every moment iff no
      row is revoked, before it expires, whose serial is not hexadecimal. */
  lemma {:induction false} RevokedStayListed(p: Pki, es: seq<PkiEvent>)
    requires Sound(p) && RegularRun(p, es)
    ensures AlwaysCovered(p, es) <==> AllListable(p, es)
    ensures AllListable(p, es) ==> Sound(RunPki(p, es))
  {
    if es != [] {
      var n := |es| - 1;
      RevokedStayListed(p, es[..n]);
      if AllListable(p, es[..n]) {
        EventSoundIff(RunPki(p, es[..n]), es[n]);
      }
    }
  }

  /** The text of a UUID: dashes after the eighth character and further on. */
  predicate DashedUuid(t: string) { |t| == 36 && SpaceFree(t) && t[8] == '-' }

  lemma UuidIsNotHex(t: string)
    requires DashedUuid(t)
    ensures !Decodes(Trim(t))
  {
    TrimSpaceFree(t);
    assert !IsHex(t[8]);
  }

  /** The instance: the root's own row carries the text of a UUID, so revoking it before it expires leaves it, and
      every certificate revoked later, unlisted. */
  lemma RootRowGoesUnlisted(p: Pki, i: nat, now: nat)
    requires GoodPki(p) && p.since <= now && i < |p.rows|
    requires DashedUuid(p.rows[i].serial) && p.rows[i].expires > now
    ensures !Covered(NextPki(p, Revoke(p.rows[i].id, now)))
  {
    UuidIsNotHex(p.rows[i].serial);
    UnlistedAfter(p, p.rows[i].id, now);
  }

  /** While that row has not expired, a later revocation of any row the lists do not name yet leaves it unlisted. */
  lemma LaterGoUnlisted(p: Pki, i: nat, now: nat, j: nat, later: nat)
    requires i < |p.rows| && j < |p.rows| && !Decodes(Trim(p.rows[i].serial)) && p.rows[i].expires > later >= now
    requires !Known(p, p.rows[j])
    ensures
      var q := NextPki(NextPki(p, Revoke(p.rows[i].id, now)), Revoke(p.rows[j].id, later));
      q.rows[j].revokedAt.Some? && !Known(q, q.rows[j])
  {
    var rows := MarkRevoked(p.rows, p.rows[i].id, now);
    assert Selected(rows[i], now);
    var again := MarkRevoked(rows, p.rows[j].id, later);
    assert rows[j].id == p.rows[j].id && Selected(again[i], later);
  }
}
