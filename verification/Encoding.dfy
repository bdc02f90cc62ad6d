/** UTF-8 bytes and abstract digests. */
module Encoding {
  import opened Text

  newtype byte = x: int | 0 <= x < 256
  type Bytes = seq<byte>

  /** One character in UTF-8. */
  function EncodeChar(c: char): (b: Bytes)
    ensures 1 <= |b| <= 4
    ensures c as int < 0x80 ==> b == [c as byte]
  {
    var n := c as int;
    if n < 0x80 then [n as byte]
    else if n < 0x800 then [(0xC0 + n / 0x40) as byte, (0x80 + n % 0x40) as byte]
    else if n < 0x10000 then
      [(0xE0 + n / 0x1000) as byte, (0x80 + n / 0x40 % 0x40) as byte, (0x80 + n % 0x40) as byte]
    else
      [(0xF0 + n / 0x40000) as byte, (0x80 + n / 0x1000 % 0x40) as byte,
       (0x80 + n / 0x40 % 0x40) as byte, (0x80 + n % 0x40) as byte]
  }

  /** `str::as_bytes`. */
  function Utf8(s: string): Bytes {
    if s == "" then [] else EncodeChar(s[0]) + Utf8(s[1..])
  }

  /** The bytes of a text that may be absent. */
  function OptBytes(o: Option<string>): Bytes {
    match o case Some(t) => Utf8(t) case None => []
  }

  lemma {:induction false} Utf8Append(s: string, t: string)
    ensures Utf8(s + t) == Utf8(s) + Utf8(t)
  {
    if s == "" {
      assert s + t == t;
    } else {
      Utf8Append(s[1..], t);
      assert (s + t)[1..] == s[1..] + t;
      Regroup(EncodeChar(s[0]), Utf8(s[1..]), Utf8(t));
    }
  }

  /** The code point an encoded character stands for. */
  function DecodeValue(b: Bytes): int
    requires 1 <= |b| <= 4
  {
    if |b| == 1 then b[0] as int
    else if |b| == 2 then (b[0] as int - 0xC0) * 0x40 + (b[1] as int - 0x80)
    else if |b| == 3 then
      (b[0] as int - 0xE0) * 0x1000 + (b[1] as int - 0x80) * 0x40 + (b[2] as int - 0x80)
    else
      (b[0] as int - 0xF0) * 0x40000 + (b[1] as int - 0x80) * 0x1000
      + (b[2] as int - 0x80) * 0x40 + (b[3] as int - 0x80)
  }

  lemma DecodeEncode(c: char)
    ensures DecodeValue(EncodeChar(c)) == c as int
  {
    var n := c as int;
    assert n / 0x40 / 0x40 == n / 0x1000;
    assert n / 0x1000 / 0x40 == n / 0x40000;
  }

  /** The first byte fixes the length. */
  lemma EncodeLength(c: char)
    ensures
      var f := EncodeChar(c)[0] as int;
      |EncodeChar(c)| == if f < 0xC0 then 1 else if f < 0xE0 then 2 else if f < 0xF0 then 3 else 4
  {
  }

  lemma EncodePrefixFree(c: char, d: char, x: Bytes, y: Bytes)
    requires EncodeChar(c) + x == EncodeChar(d) + y
    ensures c == d && x == y
  {
    var a, b := EncodeChar(c), EncodeChar(d);
    assert a[0] == (a + x)[0] == (b + y)[0] == b[0];
    EncodeLength(c);
    EncodeLength(d);
    assert a == (a + x)[..|a|] == (b + y)[..|b|] == b;
    assert x == (a + x)[|a|..] == (b + y)[|b|..] == y;
    DecodeEncode(c);
    DecodeEncode(d);
  }

  /** Different texts have different bytes. */
  lemma {:induction false} Utf8Injective(s: string, t: string)
    ensures Utf8(s) == Utf8(t) <==> s == t
  {
    if Utf8(s) == Utf8(t) {
      if s != "" && t != "" {
        EncodePrefixFree(s[0], t[0], Utf8(s[1..]), Utf8(t[1..]));
        Utf8Injective(s[1..], t[1..]);
      }
    }
  }

  predicate Ascii(s: string) {
    forall i :: 0 <= i < |s| ==> s[i] as int < 0x80
  }

  /** ASCII text is its own bytes. */
  lemma {:induction false} Utf8Ascii(s: string)
    requires Ascii(s)
    ensures |Utf8(s)| == |s|
    ensures forall i :: 0 <= i < |s| ==> Utf8(s)[i] == s[i] as byte
  {
    if s != "" {
      Utf8Ascii(s[1..]);
    }
  }

  // ---- digests -------------------------------------------------------------

  /** A hash function followed by hex encoding; every theorem holds for each such function. */
  type Digest = Bytes -> string

  predicate IsHexDigit(c: char) { '0' <= c <= '9' || 'a' <= c <= 'f' }

  predicate IsHex64(s: string) {
    |s| == 64 && forall i :: 0 <= i < |s| ==> IsHexDigit(s[i])
  }

  ghost predicate HexDigest(d: Digest) {
    forall b :: IsHex64(d(b))
  }

  /** No two different byte strings of `inputs` have the same digest. */
  ghost predicate NoCollision(d: Digest, inputs: set<Bytes>) {
    forall a, b :: a in inputs && b in inputs && d(a) == d(b) ==> a == b
  }
}
