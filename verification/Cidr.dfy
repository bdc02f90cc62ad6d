/** IP networks with the operations of the `ipnet` crate, and the overlap test built on them. */
module Cidr {

  datatype Ip = V4(bits: nat) | V6(bits: nat)
  {
    function Width(): nat { if V4? then 32 else 128 }
    predicate Valid() { bits < Pow2(Width()) }
    predicate Unspecified() { bits == 0 }
    predicate SameFamily(other: Ip) { V4? == other.V4? }
    function WithBits(b: nat): Ip { if V4? then V4(b) else V6(b) }
  }

  function Pow2(n: nat): (p: nat)
    ensures p > 0
  {
    if n == 0 then 1 else 2 * Pow2(n - 1)
  }

  lemma {:induction false} Pow2Adds(m: nat, n: nat)
    ensures Pow2(m + n) == Pow2(m) * Pow2(n)
    decreases n
  {
    if n > 0 {
      Pow2Adds(m, n - 1);
      assert Pow2(m + n) == 2 * Pow2(m + (n - 1));
    }
  }

  lemma MulNonNegative(a: int, d: int)
    requires a >= 0 && d >= 0
    ensures a * d >= 0
  {
  }

  /** The largest multiple of `s` that is at most `x`: clears the low bits when `s` is a power of two. */
  function AlignDown(x: nat, s: nat): (r: nat)
    requires s > 0
    ensures r == x - x % s && r <= x < r + s
  {
    assert x - x % s >= 0 by {
      assert x == x / s * s + x % s;
      MulNonNegative(x / s, s);
    }
    x - x % s
  }

  /** An address with a prefix length; host bits may be set. */
  datatype IpNet = IpNet(ip: Ip, prefix: nat)
  {
    predicate Valid() { ip.Valid() && prefix <= ip.Width() }

    /** How many addresses the network holds. */
    function Size(): (n: nat)
      requires Valid()
      ensures n > 0
    {
      Pow2(ip.Width() - prefix)
    }

    /** `network()`: the address with its host bits cleared. */
    function Network(): Ip
      requires Valid()
    {
      ip.WithBits(AlignDown(ip.bits, Size()))
    }

    /** `broadcast()`: the last address of the network. */
    function Broadcast(): Ip
      requires Valid()
    {
      ip.WithBits(AlignDown(ip.bits, Size()) + (Size() - 1))
    }

    /** `contains(&IpAddr)`. */
    predicate Contains(x: Ip)
      requires Valid()
    {
      ip.SameFamily(x) && Network().bits <= x.bits <= Broadcast().bits
    }
  }

  type Net = n: IpNet | n.Valid() witness IpNet(V4(0), 0)

  /** The network of one address, as a bare address is read. */
  function HostNet(ip: Ip): (n: Net)
    requires ip.Valid()
    ensures forall x :: n.Contains(x) <==> x == ip
  {
    var n := IpNet(ip, ip.Width());
    assert n.Size() == 1;
    n
  }

  lemma Pow2Bytes()
    ensures Pow2(8) == 0x100 && Pow2(16) == 0x1_0000 && Pow2(24) == 0x100_0000 && Pow2(32) == 0x1_0000_0000
    ensures Pow2(64) == 0x1_0000_0000_0000_0000
  {
    assert Pow2(4) == 16;
    Pow2Adds(4, 4);
    Pow2Adds(8, 8);
    Pow2Adds(8, 16);
    Pow2Adds(16, 16);
    Pow2Adds(32, 32);
  }

  /** In numbers: `/0` holds every address of its family, `/8`, `/16` and `/24` those with the same leading octets,
      `/32` one address; an IPv6 `/64` those with the same upper half, `/128` one. */
  lemma PrefixesMean(a: Net, x: Ip)
    requires a.ip.SameFamily(x) && x.Valid()
    ensures a.prefix == 0 ==> a.Contains(x)
    ensures a.ip.V4? && a.prefix == 8 ==> (a.Contains(x) <==> x.bits / 0x100_0000 == a.ip.bits / 0x100_0000)
    ensures a.ip.V4? && a.prefix == 16 ==> (a.Contains(x) <==> x.bits / 0x1_0000 == a.ip.bits / 0x1_0000)
    ensures a.ip.V4? && a.prefix == 24 ==> (a.Contains(x) <==> x.bits / 0x100 == a.ip.bits / 0x100)
    ensures a.ip.V6? && a.prefix == 64 ==>
              (a.Contains(x) <==> x.bits / 0x1_0000_0000_0000_0000 == a.ip.bits / 0x1_0000_0000_0000_0000)
    ensures a.prefix == (if a.ip.V4? then 32 else 128) ==> (a.Contains(x) <==> x == a.ip)
  {
    Pow2Bytes();
    ContainsIff(a, x);
    if a.prefix == 0 {
      Below(x.bits, a.Size());
      Below(a.ip.bits, a.Size());
    }
  }

  lemma Below(x: nat, s: nat)
    requires x < s
    ensures x / s == 0
  {
    DivUnique(x, s, 0, x);
  }

  /** The shared test of the agent and the manager: one network contains the other's network address. */
  predicate Overlaps(a: Net, b: Net) {
    a.Network().SameFamily(b.Network()) && (a.Contains(b.Network()) || b.Contains(a.Network()))
  }

  lemma MulAtLeast(a: int, d: int)
    requires a >= 1 && d > 0
    ensures a * d >= d
  {
  }

  lemma DivUnique(x: int, d: int, q: int, r: int)
    requires d > 0 && x == q * d + r && 0 <= r < d
    ensures x / d == q && x % d == r
  {
    var q', r' := x / d, x % d;
    assert (q - q') * d == r' - r;
    assert (q' - q) * d == r - r';
    if q > q' {
      MulAtLeast(q - q', d);
    } else if q < q' {
      MulAtLeast(q' - q, d);
    }
  }

  /** Dividing by a product is dividing twice. */
  lemma DivTwice(x: nat, s: nat, k: nat)
    requires s > 0 && k > 0
    ensures s * k > 0
    ensures x / (s * k) == x / s / k
  {
    var q, r := x / s, x % s;
    var t, u := q / k, q % k;
    MulAtLeast(k, s);
    assert x == q * s + r;
    assert q * s == t * (s * k) + u * s by {
      assert q == t * k + u;
      Distribute(t, k, u, s);
    }
    RemainderBound(u, k, s);
    DivUnique(x, s * k, t, u * s + r);
  }

  lemma Distribute(t: int, k: int, u: int, s: int)
    ensures (t * k + u) * s == t * (s * k) + u * s
  {
    assert (t * k + u) * s == t * k * s + u * s;
    assert t * k * s == t * (k * s);
  }

  lemma RemainderBound(u: int, k: int, s: int)
    requires 0 <= u < k && s > 0
    ensures 0 <= u * s <= s * k - s
  {
    MulNonNegative(u, s);
    MulNonNegative(k - 1 - u, s);
    assert (k - 1 - u) * s == s * k - s - u * s;
  }

  /** What a network means: the addresses of its family that agree with it on the prefix bits. */
  predicate Agrees(n: Net, x: Ip) {
    n.ip.SameFamily(x) && x.bits / n.Size() == n.ip.bits / n.Size()
  }

  /** Lying between the network and the broadcast address is agreement on the prefix bits. */
  lemma ContainsIff(n: Net, x: Ip)
    ensures n.Contains(x) <==> Agrees(n, x)
  {
    SameBlock(n.ip.bits, x.bits, n.Size());
  }

  lemma SameBlock(a: nat, x: nat, s: nat)
    requires s > 0
    ensures AlignDown(a, s) <= x <= AlignDown(a, s) + (s - 1) <==> x / s == a / s
  {
    var q := a / s;
    assert a == q * s + a % s;
    assert x == x / s * s + x % s;
    if AlignDown(a, s) <= x <= AlignDown(a, s) + (s - 1) {
      DivUnique(x, s, q, x - q * s);
    }
  }

  /** When two networks share an address, the wider one contains the narrower one's network address. */
  lemma WiderContains(a: Net, b: Net, x: Ip)
    requires a.Contains(x) && b.Contains(x) && a.prefix >= b.prefix
    ensures b.Contains(a.Network())
  {
    var k := Pow2(a.prefix - b.prefix);
    Pow2Adds(a.ip.Width() - a.prefix, a.prefix - b.prefix);
    ContainsOwnNetwork(a);
    ContainsIff(a, x);
    ContainsIff(a, a.Network());
    SameCoarser(x.bits, a.Network().bits, a.Size(), k);
    ContainsIff(b, x);
    ContainsIff(b, a.Network());
  }

  /** Two numbers in the same small block are in the same larger block. */
  lemma SameCoarser(x: nat, y: nat, s: nat, k: nat)
    requires s > 0 && k > 0 && x / s == y / s
    ensures s * k > 0 && x / (s * k) == y / (s * k)
  {
    DivTwice(x, s, k);
    DivTwice(y, s, k);
  }

  lemma ContainsOwnNetwork(n: Net)
    ensures n.Contains(n.Network()) && n.Network().Valid()
  {
  }

  /** The overlap test is exactly "the two address sets meet". */
  lemma OverlapExact(a: Net, b: Net)
    ensures Overlaps(a, b) <==> exists x: Ip :: x.Valid() && Agrees(a, x) && Agrees(b, x)
  {
    if Overlaps(a, b) {
      var x := if a.Contains(b.Network()) then b.Network() else a.Network();
      ContainsOwnNetwork(a);
      ContainsOwnNetwork(b);
      ContainsIff(a, x);
      ContainsIff(b, x);
    }
    if x: Ip :| x.Valid() && Agrees(a, x) && Agrees(b, x) {
      MeetingOverlap(a, b, x);
    }
  }

  lemma MeetingOverlap(a: Net, b: Net, x: Ip)
    requires Agrees(a, x) && Agrees(b, x)
    ensures Overlaps(a, b)
  {
    ContainsIff(a, x);
    ContainsIff(b, x);
    if a.prefix >= b.prefix {
      WiderContains(a, b, x);
    } else {
      WiderContains(b, a, x);
    }
  }

  /** Networks are nested or disjoint: an overlap means the wider one holds every address of the other. */
  lemma NestedOrDisjoint(a: Net, b: Net)
    requires a.prefix >= b.prefix
    ensures Overlaps(a, b) <==> forall x: Ip :: Agrees(a, x) ==> Agrees(b, x)
  {
    ContainsOwnNetwork(a);
    ContainsIff(a, a.Network());
    if Overlaps(a, b) {
      OverlapExact(a, b);
      var y: Ip :| y.Valid() && Agrees(a, y) && Agrees(b, y);
      forall x: Ip | Agrees(a, x) ensures Agrees(b, x) {
        NarrowerInside(a, b, y, x);
      }
    } else if Agrees(b, a.Network()) {
      MeetingOverlap(a, b, a.Network());
    }
  }

  lemma NarrowerInside(a: Net, b: Net, y: Ip, x: Ip)
    requires a.prefix >= b.prefix && Agrees(a, y) && Agrees(b, y) && Agrees(a, x)
    ensures Agrees(b, x)
  {
    Pow2Adds(a.ip.Width() - a.prefix, a.prefix - b.prefix);
    SameCoarser(x.bits, y.bits, a.Size(), Pow2(a.prefix - b.prefix));
  }
}
