// IP addresses, CIDR containment by bit mask (netra-core/src/network/topology.rs) and the
// scope classifiers (netra-core/src/network/ip.rs).
//
// An address is a list of octets and, by them, a number; the mask test on numbers is compared with
// quotients by powers of two, and each classifier with the registered blocks of its class.
module IpAddress {
  import opened Bytes
  import opened Seqs

  function Zeros(n: nat): seq<u8> { seq(n, i => 0) }

  /** Big-endian value of a run of octets. */
  function FromOctets(o: seq<u8>): nat {
    if o == [] then 0 else FromOctets(Front(o)) * 256 + Last(o) as int
  }

  datatype IpAddr = V4(octets: seq<u8>) | V6(octets: seq<u8>) {
    predicate Valid() { |octets| == if V4? then 4 else 16 }

    function Width(): nat { if V4? then 32 else 128 }

    function Bits(): nat { FromOctets(octets) }

    predicate IsUnspecified() { octets == Zeros(|octets|) }

    predicate IsLoopback()
      requires Valid()
    {
      if V4? then octets[0] == 127 else octets == Zeros(15) + [1]
    }

    /** The i-th 16-bit group of an IPv6 address. */
    function Segment(i: nat): (s: nat)
      requires 2 * i + 1 < |octets|
      ensures s < TWO_16
    {
      octets[2 * i] as int * 256 + octets[2 * i + 1] as int
    }
  }

  type Address = ip: IpAddr | ip.Valid() witness V4([0, 0, 0, 0])

  // ----- Bitwise and, shifts and masks ------------------------------------------

  function Pow2(n: nat): (p: nat)
    ensures p >= 1
  {
    if n == 0 then 1 else 2 * Pow2(n - 1)
  }

  /** The bitwise conjunction of two unsigned numbers. */
  function BitAnd(a: nat, b: nat): nat
    decreases a
  {
    if a == 0 then 0
    else (if a % 2 == 1 && b % 2 == 1 then 1 else 0) + 2 * BitAnd(a / 2, b / 2)
  }

  /** `(!0).wrapping_shl(shift)` on `width` bits. */
  function ShiftedOnes(width: nat, shift: nat): nat {
    (Pow2(width) - 1) * Pow2(shift) % Pow2(width)
  }

  lemma {:induction false} Pow2Add(a: nat, b: nat)
    ensures Pow2(a + b) == Pow2(a) * Pow2(b)
  {
    if a > 0 {
      Pow2Add(a - 1, b);
      assert 2 * (Pow2(a - 1) * Pow2(b)) == (2 * Pow2(a - 1)) * Pow2(b);
    }
  }

  lemma AtLeast(k: int, d: int)
    requires k >= 1 && d > 0
    ensures k * d >= d
  {
  }

  lemma Quotient(x: int, d: int, q: int, r: int)
    requires d > 0 && x == q * d + r && 0 <= r < d
    ensures x / d == q && x % d == r
  {
    var k := x / d - q;
    assert k * d == r - x % d;
    if k >= 1 { AtLeast(k, d); }
    if k <= -1 { AtLeast(-k, d); }
  }

  lemma DivTwice(x: nat, a: nat, b: nat)
    requires a > 0 && b > 0
    ensures x / a / b == x / (a * b)
  {
    var q, r := x / a / b, x % a;
    var s := x / a % b;
    assert x == x / a * a + r && x / a == q * b + s;
    calc {
      x;
      (q * b + s) * a + r;
      q * (a * b) + (s * a + r);
    }
    assert s * a + r < a * b by {
      assert (s + 1) * a <= b * a;
    }
    Quotient(x, a * b, q, s * a + r);
  }

  lemma ShiftedProduct(w: int, s: int)
    ensures (w - 1) * s == (s - 1) * w + (w - s)
  {
  }

  lemma Pow2Monotone(a: nat, b: nat)
    requires a <= b
    ensures Pow2(a) <= Pow2(b)
  {
    Pow2Add(a, b - a);
    var p, q := Pow2(a), Pow2(b - a);
    assert p * q >= p * 1;
  }

  lemma ShiftedOnesIs(width: nat, shift: nat)
    requires shift < width
    ensures ShiftedOnes(width, shift) == Pow2(width) - Pow2(shift) >= 0
  {
    Pow2Monotone(shift, width);
    ShiftedProduct(Pow2(width), Pow2(shift));
    Quotient((Pow2(width) - 1) * Pow2(shift), Pow2(width), Pow2(shift) - 1, Pow2(width) - Pow2(shift));
  }

  lemma {:induction false} AndOnes(a: nat, width: nat)
    requires a < Pow2(width)
    ensures BitAnd(a, Pow2(width) - 1) == a
  {
    if a > 0 {
      assert (Pow2(width) - 1) / 2 == Pow2(width - 1) - 1;
      AndOnes(a / 2, width - 1);
    }
  }

  lemma EvenStep(a: nat, m: nat, n: nat)
    requires n == 2 * m
    ensures BitAnd(a, n) == 2 * BitAnd(a / 2, m)
  {
    assert n % 2 == 0 && n / 2 == m;
  }

  lemma Regroup(q: int, p: int)
    ensures 2 * (q * p) == q * (2 * p)
  {
  }

  lemma MaskStep(a: nat, p: nat, d: nat)
    requires p > 0 && d == 2 * p
    ensures 2 * (a / 2 / p * p) == a / d * d
  {
    DivTwice(a, 2, p);
    Regroup(a / d, p);
  }

  /** Masking keeps the high bits and clears the low ones. */
  lemma {:induction false} AndMask(a: nat, width: nat, shift: nat)
    requires a < Pow2(width) && shift <= width
    ensures Pow2(shift) <= Pow2(width)
    ensures BitAnd(a, Pow2(width) - Pow2(shift)) == a / Pow2(shift) * Pow2(shift)
    decreases width
  {
    hide BitAnd;
    Pow2Monotone(shift, width);
    if shift == 0 {
      AndOnes(a, width);
    } else {
      AndMask(a / 2, width - 1, shift - 1);
      EvenStep(a, Pow2(width - 1) - Pow2(shift - 1), Pow2(width) - Pow2(shift));
      MaskStep(a, Pow2(shift - 1), Pow2(shift));
    }
  }

  lemma {:induction false} OctetsBound(o: seq<u8>)
    ensures FromOctets(o) < Pow2(8 * |o|)
  {
    if o != [] {
      OctetsBound(Front(o));
      Pow2Add(8 * |Front(o)|, 8);
      assert Pow2(8) == 256;
    }
  }

  lemma {:induction false} OctetsInjective(a: seq<u8>, b: seq<u8>)
    requires |a| == |b| && FromOctets(a) == FromOctets(b)
    ensures a == b
  {
    if a != [] {
      OctetsInjective(Front(a), Front(b));
      assert a == Front(a) + [Last(a)] && b == Front(b) + [Last(b)];
    }
  }

  /** The first p bits of an address only depend on its first octets. */
  lemma {:induction false} LeadingBits(o: seq<u8>, m: nat, p: nat)
    requires m <= |o| && p <= 8 * m
    ensures FromOctets(o) / Pow2(8 * |o| - p) == FromOctets(o[..m]) / Pow2(8 * m - p)
  {
    if m == |o| {
      assert o[..m] == o;
    } else {
      var n := |o| - 1;
      LeadingBits(Front(o), m, p);
      assert Front(o)[..m] == o[..m];
      Pow2Add(8, 8 * n - p);
      assert Pow2(8) == 256;
      DivTwice(FromOctets(o), 256, Pow2(8 * n - p));
      assert FromOctets(o) / 256 == FromOctets(Front(o));
    }
  }

  // ----- CIDR containment -------------------------------------------------------

  /**
   * `ip_in_cidr` once its strings are parsed; the prefix comes from a u8. The two arms of the
   * source differ in the width only.
   */
  predicate InCidr(ip: IpAddr, net: IpAddr, prefix: u8)
    requires ip.Valid() && net.Valid()
  {
    var width := ip.Width();
    ip.V4? == net.V4? && prefix <= width && (prefix == 0 ||
      var mask := ShiftedOnes(width, width - prefix);
      BitAnd(ip.Bits(), mask) == BitAnd(net.Bits(), mask))
  }

  lemma MultiplesEqual(q: int, r: int, p: int)
    requires p > 0
    ensures q * p == r * p <==> q == r
  {
    if q * p == r * p {
      assert (q - r) * p == 0;
      if q > r { AtLeast(q - r, p); }
      if q < r { AtLeast(r - q, p); }
    }
  }

  lemma MaskTest(a: nat, b: nat, width: nat, shift: nat)
    requires a < Pow2(width) && b < Pow2(width) && shift < width
    ensures
      var mask := ShiftedOnes(width, shift);
      BitAnd(a, mask) == BitAnd(b, mask) <==> a / Pow2(shift) == b / Pow2(shift)
  {
    ShiftedOnesIs(width, shift);
    AndMask(a, width, shift);
    AndMask(b, width, shift);
    var p := Pow2(shift);
    MultiplesEqual(a / p, b / p, p);
  }

  /** Section 3.1 of RFC 4632: the mask test compares the leading `prefix` bits. */
  lemma MaskTestComparesPrefixes(ip: IpAddr, net: IpAddr, prefix: u8)
    requires ip.Valid() && net.Valid()
    ensures InCidr(ip, net, prefix)
       <==> ip.V4? == net.V4? && prefix <= ip.Width()
            && ip.Bits() / Pow2(ip.Width() - prefix) == net.Bits() / Pow2(ip.Width() - prefix)
  {
    OctetsBound(ip.octets);
    OctetsBound(net.octets);
    var width := ip.Width();
    if ip.V4? == net.V4? && prefix <= width {
      if prefix == 0 {
        Quotient(ip.Bits(), Pow2(width), 0, ip.Bits());
        Quotient(net.Bits(), Pow2(width), 0, net.Bits());
      } else {
        MaskTest(ip.Bits(), net.Bits(), width, width - prefix);
      }
    }
  }

  /** For a fixed prefix length containment is an equivalence of addresses of the family. */
  lemma CidrEquivalence(a: IpAddr, b: IpAddr, c: IpAddr, prefix: u8)
    requires a.Valid() && b.Valid() && c.Valid()
    ensures InCidr(a, a, prefix) <==> prefix <= a.Width()
    ensures InCidr(a, b, prefix) <==> InCidr(b, a, prefix)
    ensures InCidr(a, b, prefix) && InCidr(b, c, prefix) ==> InCidr(a, c, prefix)
  {
    MaskTestComparesPrefixes(a, a, prefix);
    MaskTestComparesPrefixes(a, b, prefix);
    MaskTestComparesPrefixes(b, a, prefix);
    MaskTestComparesPrefixes(b, c, prefix);
    MaskTestComparesPrefixes(a, c, prefix);
  }

  /** A longer prefix selects a smaller block. */
  lemma CidrAntitone(ip: IpAddr, net: IpAddr, short: u8, long: u8)
    requires ip.Valid() && net.Valid() && short <= long
    requires InCidr(ip, net, long)
    ensures InCidr(ip, net, short)
  {
    MaskTestComparesPrefixes(ip, net, long);
    MaskTestComparesPrefixes(ip, net, short);
    var w := ip.Width();
    Pow2Add(w - long, long - short);
    DivTwice(ip.Bits(), Pow2(w - long), Pow2(long - short));
    DivTwice(net.Bits(), Pow2(w - long), Pow2(long - short));
  }

  /** The lowest address of the block of `size` addresses that holds `x`. */
  function BlockStart(x: nat, size: nat): (first: nat)
    requires size > 0
    ensures first <= x < first + size
  {
    x - x % size
  }

  lemma BlockIndex(x: nat, t: nat, size: nat)
    requires size > 0
    ensures x / size == t <==> t * size <= x < t * size + size
  {
    if t * size <= x < t * size + size {
      Quotient(x, size, t, x - t * size);
    }
  }

  lemma SameBlock(x: nat, y: nat, size: nat)
    requires size > 0
    ensures x / size == y / size <==> BlockStart(y, size) <= x < BlockStart(y, size) + size
  {
    var t := y / size;
    assert BlockStart(y, size) == t * size;
    BlockIndex(x, t, size);
  }

  /** A block is an interval of 2^(width - prefix) consecutive addresses. */
  lemma CidrInterval(ip: IpAddr, net: IpAddr, prefix: u8)
    requires ip.Valid() && net.Valid() && ip.V4? == net.V4? && prefix <= ip.Width()
    ensures
      var size := Pow2(ip.Width() - prefix);
      var first := BlockStart(net.Bits(), size);
      InCidr(ip, net, prefix) <==> first <= ip.Bits() < first + size
  {
    MaskTestComparesPrefixes(ip, net, prefix);
    SameBlock(ip.Bits(), net.Bits(), Pow2(ip.Width() - prefix));
  }

  // ----- Classification ---------------------------------------------------------

  datatype Classification =
    | Loopback | Unspecified | Broadcast | Multicast | LinkLocal | Private
    | CarrierGradeNat | Documentation | PublicGlobal
  {
    predicate IsLocalOrPrivate() { Loopback? || Private? || LinkLocal? || CarrierGradeNat? }
    predicate IsPublic() { PublicGlobal? }
  }

  /** The individual test of a class, on octets or segments, as written in the classifier. */
  predicate Test(c: Classification, ip: IpAddr)
    requires ip.Valid()
  {
    var o := ip.octets;
    if ip.V4? then
      match c
      case Loopback => ip.IsLoopback()
      case Unspecified => ip.IsUnspecified()
      case Broadcast => o == [255, 255, 255, 255]
      case Multicast => 224 <= o[0] <= 239
      case LinkLocal => o[0] == 169 && o[1] == 254
      case Private => o[0] == 10 || (o[0] == 172 && 16 <= o[1] <= 31) || (o[0] == 192 && o[1] == 168)
      case CarrierGradeNat => o[0] == 100 && BitAnd(o[1], 0xC0) == 64
      case Documentation =>
        || (o[0] == 192 && o[1] == 0 && o[2] == 2)
        || (o[0] == 198 && o[1] == 51 && o[2] == 100)
        || (o[0] == 203 && o[1] == 0 && o[2] == 113)
      case PublicGlobal => false
    else
      match c
      case Loopback => ip.IsLoopback()
      case Unspecified => ip.IsUnspecified()
      case Multicast => BitAnd(ip.Segment(0), 0xff00) == 0xff00
      case LinkLocal => BitAnd(ip.Segment(0), 0xffc0) == 0xfe80
      case Private => BitAnd(ip.Segment(0), 0xfe00) == 0xfc00
      case Documentation => ip.Segment(0) == 0x2001 && ip.Segment(1) == 0x0db8
      case _ => false
  }

  function Classify(ip: IpAddr): Classification
    requires ip.Valid()
  {
    if Test(Loopback, ip) then Loopback
    else if Test(Unspecified, ip) then Unspecified
    else if Test(Broadcast, ip) then Broadcast
    else if Test(Multicast, ip) then Multicast
    else if Test(LinkLocal, ip) then LinkLocal
    else if Test(Private, ip) then Private
    else if Test(CarrierGradeNat, ip) then CarrierGradeNat
    else if Test(Documentation, ip) then Documentation
    else PublicGlobal
  }

  /** The registered blocks of a class: leading octets (the rest are zero) and prefix length. */
  function Blocks(c: Classification, v4: bool): seq<(seq<u8>, u8)> {
    if v4 then
      match c
      case Loopback => [([127], 8)]
      case Unspecified => [([0, 0, 0, 0], 32)]
      case Broadcast => [([255, 255, 255, 255], 32)]
      case Multicast => [([224], 4)]
      case LinkLocal => [([169, 254], 16)]
      case Private => [([10], 8), ([172, 16], 12), ([192, 168], 16)]
      case CarrierGradeNat => [([100, 64], 10)]
      case Documentation => [([192, 0, 2], 24), ([198, 51, 100], 24), ([203, 0, 113], 24)]
      case PublicGlobal => []
    else
      match c
      case Loopback => [(Zeros(15) + [1], 128)]
      case Unspecified => [(Zeros(16), 128)]
      case Multicast => [([0xff], 8)]
      case LinkLocal => [([0xfe, 0x80], 10)]
      case Private => [([0xfc], 7)]
      case Documentation => [([0x20, 0x01, 0x0d, 0xb8], 32)]
      case _ => []
  }

  function Padded(lead: seq<u8>, v4: bool): (ip: IpAddr)
    requires |lead| <= if v4 then 4 else 16
    ensures ip.Valid() && ip.V4? == v4
  {
    if v4 then V4(lead + Zeros(4 - |lead|)) else V6(lead + Zeros(16 - |lead|))
  }

  ghost predicate InBlock(c: Classification, ip: IpAddr, k: nat)
    requires ip.Valid() && k < |Blocks(c, ip.V4?)|
  {
    var (lead, prefix) := Blocks(c, ip.V4?)[k];
    |lead| <= |ip.octets| && InCidr(ip, Padded(lead, ip.V4?), prefix)
  }

  lemma SameLead(ip: IpAddr, lead: seq<u8>, prefix: u8)
    requires ip.Valid() && |lead| <= |ip.octets| && prefix <= 8 * |lead|
    ensures InCidr(ip, Padded(lead, ip.V4?), prefix)
       <==> FromOctets(ip.octets[..|lead|]) / Pow2(8 * |lead| - prefix) == FromOctets(lead) / Pow2(8 * |lead| - prefix)
  {
    var net := Padded(lead, ip.V4?);
    MaskTestComparesPrefixes(ip, net, prefix);
    LeadingBits(ip.octets, |lead|, prefix);
    LeadingBits(net.octets, |lead|, prefix);
    assert net.octets[..|lead|] == lead;
  }

  lemma WholeLead(ip: IpAddr, lead: seq<u8>)
    requires ip.Valid() && |lead| <= |ip.octets|
    ensures InCidr(ip, Padded(lead, ip.V4?), 8 * |lead|) <==> ip.octets[..|lead|] == lead
  {
    SameLead(ip, lead, 8 * |lead|);
    if FromOctets(ip.octets[..|lead|]) == FromOctets(lead) {
      OctetsInjective(ip.octets[..|lead|], lead);
    }
  }

  lemma SmallOctets(o: seq<u8>)
    ensures |o| == 1 ==> FromOctets(o) == o[0]
    ensures |o| == 2 ==> FromOctets(o) == o[0] as int * 256 + o[1] as int
  {
    if |o| == 2 {
      assert Front(o) == [o[0]];
      assert Front([o[0]]) == [];
    } else if |o| == 1 {
      assert Front(o) == [];
    }
  }

  lemma Powers()
    ensures Pow2(1) == 2 && Pow2(4) == 16 && Pow2(6) == 64 && Pow2(8) == 256 && Pow2(9) == 512 && Pow2(16) == TWO_16
  {
    Pow2Add(8, 8);
    assert Pow2(4) == 16;
  }

  ghost predicate InSomeBlock(c: Classification, ip: IpAddr)
    requires ip.Valid()
  {
    exists k :: 0 <= k < |Blocks(c, ip.V4?)| && InBlock(c, ip, k)
  }

  lemma OneBlock(c: Classification, ip: IpAddr)
    requires ip.Valid() && |Blocks(c, ip.V4?)| == 1
    ensures InSomeBlock(c, ip) <==> InBlock(c, ip, 0)
  {
  }

  lemma ThreeBlocks(c: Classification, ip: IpAddr)
    requires ip.Valid() && |Blocks(c, ip.V4?)| == 3
    ensures InSomeBlock(c, ip) <==> InBlock(c, ip, 0) || InBlock(c, ip, 1) || InBlock(c, ip, 2)
  {
  }

  /** Classes whose only block is given by whole octets. */
  lemma WholeBlock(c: Classification, ip: IpAddr)
    requires ip.Valid() && |Blocks(c, ip.V4?)| == 1
    requires var (lead, prefix) := Blocks(c, ip.V4?)[0]; |lead| <= |ip.octets| && prefix == 8 * |lead|
    ensures
      var lead := Blocks(c, ip.V4?)[0].0;
      InSomeBlock(c, ip) <==> ip.octets[..|lead|] == lead
  {
    OneBlock(c, ip);
    WholeLead(ip, Blocks(c, ip.V4?)[0].0);
  }

  lemma TwoOctets(ip: IpAddr)
    requires ip.Valid()
    ensures FromOctets(ip.octets[..1]) == ip.octets[0]
    ensures FromOctets(ip.octets[..2]) == ip.octets[0] as int * 256 + ip.octets[1] as int
  {
    SmallOctets(ip.octets[..1]);
    SmallOctets(ip.octets[..2]);
  }

  lemma PrivateOctets(a: u8, b: u8)
    ensures (a as int * 256 + b as int) / 16 == (172 * 256 + 16) / 16 <==> a == 172 && 16 <= b <= 31
  {
  }

  lemma Private12(ip: IpAddr)
    requires ip.Valid() && ip.V4?
    ensures InCidr(ip, Padded([172, 16], true), 12) <==> ip.octets[0] == 172 && 16 <= ip.octets[1] <= 31
  {
    hide InCidr, Padded, FromOctets;
    TwoOctets(ip);
    SmallOctets([172, 16]);
    SameLead(ip, [172, 16], 12);
    Powers();
    hide Pow2;
    PrivateOctets(ip.octets[0], ip.octets[1]);
  }

  lemma LeadOfOne(ip: IpAddr, a: u8)
    requires ip.Valid() && ip.V4?
    ensures InCidr(ip, Padded([a], true), 8) <==> ip.octets[0] == a
  {
    hide InCidr, Padded;
    WholeLead(ip, [a]);
    assert ip.octets[..1] == [ip.octets[0]];
  }

  lemma LeadOfTwo(ip: IpAddr, a: u8, b: u8)
    requires ip.Valid() && ip.V4?
    ensures InCidr(ip, Padded([a, b], true), 16) <==> ip.octets[0] == a && ip.octets[1] == b
  {
    hide InCidr, Padded;
    WholeLead(ip, [a, b]);
    assert ip.octets[..2] == [ip.octets[0], ip.octets[1]];
  }

  lemma PrivateBlocks4(ip: IpAddr)
    requires ip.Valid() && ip.V4?
    ensures InSomeBlock(Private, ip) <==> Test(Private, ip)
  {
    ThreeBlocks(Private, ip);
    LeadOfOne(ip, 10);
    LeadOfTwo(ip, 192, 168);
    Private12(ip);
    hide InCidr, Padded, InSomeBlock;
  }

  lemma DocumentationBlocks4(ip: IpAddr)
    requires ip.Valid() && ip.V4?
    ensures InSomeBlock(Documentation, ip) <==> Test(Documentation, ip)
  {
    var o := ip.octets;
    ThreeBlocks(Documentation, ip);
    WholeLead(ip, [192, 0, 2]);
    WholeLead(ip, [198, 51, 100]);
    WholeLead(ip, [203, 0, 113]);
    assert o[..3] == [o[0], o[1], o[2]];
  }

  /** Comparing masked bits with an aligned pattern tests for the interval that starts there. */
  lemma MaskedBy(x: nat, width: nat, shift: nat, mask: nat, t: nat)
    requires x < Pow2(width) && shift <= width && mask == Pow2(width) - Pow2(shift)
    ensures
      var p := Pow2(shift);
      BitAnd(x, mask) == t * p <==> t * p <= x < t * p + p
  {
    var p := Pow2(shift);
    AndMask(x, width, shift);
    BlockIndex(x, t, p);
    MultiplesEqual(x / p, t, p);
  }

  lemma MaskedOctet(x: u8)
    ensures BitAnd(x, 0xC0) == 64 <==> 64 <= x < 128
  {
    Powers();
    MaskedBy(x, 8, 6, 0xC0, 1);
  }

  lemma BitOfByte(x: u8)
    ensures BitAnd(x, 0x80) != 0 <==> x >= 128
  {
    Powers();
    assert Pow2(8) == 2 * Pow2(7);
    MaskedBy(x, 8, 7, 0x80, 0);
  }

  lemma MaskedSegment(s: nat)
    requires s < TWO_16
    ensures BitAnd(s, 0xff00) == 0xff00 <==> 0xff00 <= s
    ensures BitAnd(s, 0xffc0) == 0xfe80 <==> 0xfe80 <= s < 0xfec0
    ensures BitAnd(s, 0xfe00) == 0xfc00 <==> 0xfc00 <= s < 0xfe00
  {
    Powers();
    MaskedBy(s, 16, 8, 0xff00, 0xff);
    MaskedBy(s, 16, 6, 0xffc0, 0x3fa);
    MaskedBy(s, 16, 9, 0xfe00, 0x7e);
  }

  /** A one-octet or two-octet block whose prefix ends inside its last octet. */
  lemma PartialBlock(c: Classification, ip: IpAddr, spare: nat)
    requires ip.Valid() && |Blocks(c, ip.V4?)| == 1
    requires var (lead, prefix) := Blocks(c, ip.V4?)[0]; 1 <= |lead| <= 2 && spare <= 8 && prefix == 8 * |lead| - spare
    ensures
      var lead := Blocks(c, ip.V4?)[0].0;
      var value := if |lead| == 1 then ip.octets[0] as int else ip.octets[0] as int * 256 + ip.octets[1] as int;
      var base := if |lead| == 1 then lead[0] as int else lead[0] as int * 256 + lead[1] as int;
      InSomeBlock(c, ip) <==> value / Pow2(spare) == base / Pow2(spare)
  {
    hide InCidr, Padded, FromOctets, Pow2, InSomeBlock;
    OneBlock(c, ip);
    var (lead, prefix) := Blocks(c, ip.V4?)[0];
    assert InBlock(c, ip, 0) <==> InCidr(ip, Padded(lead, ip.V4?), prefix);
    hide Blocks, InBlock;
    TwoOctets(ip);
    SmallOctets(lead);
    SameLead(ip, lead, prefix);
  }

  lemma MulticastBlock4(ip: IpAddr)
    requires ip.Valid() && ip.V4?
    ensures InSomeBlock(Multicast, ip) <==> Test(Multicast, ip)
  {
    PartialBlock(Multicast, ip, 4);
    Powers();
  }

  lemma CarrierOctets(a: u8, b: u8)
    ensures (a as int * 256 + b as int) / 64 == (100 * 256 + 64) / 64 <==> a == 100 && 64 <= b < 128
  {
  }

  lemma CarrierBlock4(ip: IpAddr)
    requires ip.Valid() && ip.V4?
    ensures InSomeBlock(CarrierGradeNat, ip) <==> Test(CarrierGradeNat, ip)
  {
    PartialBlock(CarrierGradeNat, ip, 6);
    Powers();
    MaskedOctet(ip.octets[1]);
    CarrierOctets(ip.octets[0], ip.octets[1]);
  }

  /** The classes with one block of whole octets. */
  lemma WholeBlocks4(c: Classification, ip: IpAddr)
    requires ip.Valid() && ip.V4? && c in {LinkLocal, Loopback, Unspecified, Broadcast}
    ensures Test(c, ip) <==> InSomeBlock(c, ip)
  {
    hide InSomeBlock, InCidr, Padded;
    var o := ip.octets;
    WholeBlock(c, ip);
    assert o[..1] == [o[0]] && o[..2] == [o[0], o[1]] && o[..4] == o;
  }

  lemma TestIsBlock4(c: Classification, ip: IpAddr)
    requires ip.Valid() && ip.V4?
    ensures Test(c, ip) <==> InSomeBlock(c, ip)
  {
    match c
    case Multicast => MulticastBlock4(ip);
    case CarrierGradeNat => CarrierBlock4(ip);
    case Private => PrivateBlocks4(ip);
    case Documentation => DocumentationBlocks4(ip);
    case PublicGlobal =>
    case _ =>
      WholeBlocks4(c, ip);
  }

  lemma LocalOctets(a: u8, b: u8)
    ensures (a as int * 256 + b as int) / 64 == (0xfe * 256 + 0x80) / 64
      <==> 0xfe80 <= a as int * 256 + b as int < 0xfec0
    ensures a / 2 == 0xfc / 2 <==> 0xfc00 <= a as int * 256 + b as int < 0xfe00
  {
  }

  lemma LinkLocalBlock6(ip: IpAddr)
    requires ip.Valid() && ip.V6?
    ensures Test(LinkLocal, ip) <==> InSomeBlock(LinkLocal, ip)
  {
    PartialBlock(LinkLocal, ip, 6);
    Powers();
    MaskedSegment(ip.Segment(0));
    LocalOctets(ip.octets[0], ip.octets[1]);
  }

  lemma PrivateBlock6(ip: IpAddr)
    requires ip.Valid() && ip.V6?
    ensures Test(Private, ip) <==> InSomeBlock(Private, ip)
  {
    PartialBlock(Private, ip, 1);
    Powers();
    MaskedSegment(ip.Segment(0));
    LocalOctets(ip.octets[0], ip.octets[1]);
  }

  lemma MulticastBlock6(ip: IpAddr)
    requires ip.Valid() && ip.V6?
    ensures Test(Multicast, ip) <==> InSomeBlock(Multicast, ip)
  {
    WholeBlock(Multicast, ip);
    assert ip.octets[..1] == [ip.octets[0]];
    MaskedSegment(ip.Segment(0));
  }

  lemma DocumentationBlock6(ip: IpAddr)
    requires ip.Valid() && ip.V6?
    ensures Test(Documentation, ip) <==> InSomeBlock(Documentation, ip)
  {
    var o := ip.octets;
    WholeBlock(Documentation, ip);
    assert o[..4] == [o[0], o[1], o[2], o[3]];
  }

  lemma SingleAddress6(c: Classification, ip: IpAddr)
    requires ip.Valid() && ip.V6? && (c.Loopback? || c.Unspecified?)
    ensures Test(c, ip) <==> InSomeBlock(c, ip)
  {
    WholeBlock(c, ip);
    assert ip.octets[..16] == ip.octets;
  }

  lemma TestIsBlock6(c: Classification, ip: IpAddr)
    requires ip.Valid() && ip.V6?
    ensures Test(c, ip) <==> InSomeBlock(c, ip)
  {
    match c
    case LinkLocal => LinkLocalBlock6(ip);
    case Private => PrivateBlock6(ip);
    case Multicast => MulticastBlock6(ip);
    case Documentation => DocumentationBlock6(ip);
    case Loopback => SingleAddress6(c, ip);
    case Unspecified => SingleAddress6(c, ip);
    case _ =>
  }

  /** Each bit test selects exactly the registered CIDR blocks of its class. */
  lemma TestIsBlock(c: Classification, ip: IpAddr)
    requires ip.Valid()
    ensures Test(c, ip) <==> InSomeBlock(c, ip)
  {
    if ip.V4? { TestIsBlock4(c, ip); } else { TestIsBlock6(c, ip); }
  }

  /** What a succeeding IPv6 test says about the first segment. */
  lemma FirstSegment(c: Classification, ip: IpAddr)
    requires ip.Valid() && ip.V6? && Test(c, ip)
    ensures c.Loopback? || c.Unspecified? ==> ip.Segment(0) == 0
    ensures c.Multicast? ==> 0xff00 <= ip.Segment(0)
    ensures c.LinkLocal? ==> 0xfe80 <= ip.Segment(0) < 0xfec0
    ensures c.Private? ==> 0xfc00 <= ip.Segment(0) < 0xfe00
  {
    MaskedSegment(ip.Segment(0));
    assert c.Loopback? ==> ip.octets[0] == (Zeros(15) + [1])[0] && ip.octets[1] == (Zeros(15) + [1])[1];
  }

  lemma TestsExclusive(c: Classification, d: Classification, ip: IpAddr)
    requires ip.Valid() && Test(c, ip) && Test(d, ip)
    ensures c == d
  {
    if ip.V6? {
      FirstSegment(c, ip);
      FirstSegment(d, ip);
      assert (Zeros(15) + [1])[15] != Zeros(16)[15];
    }
  }

  lemma ClassifyTests(c: Classification, ip: IpAddr)
    requires ip.Valid()
    ensures Classify(ip) == PublicGlobal || Test(Classify(ip), ip)
    ensures Test(c, ip) ==> Classify(ip) != PublicGlobal
  {
  }

  /** The blocks of different classes do not meet, and the classifier names the block's class. */
  lemma ClassifyNamesBlock(c: Classification, ip: IpAddr)
    requires ip.Valid() && c != PublicGlobal
    ensures Classify(ip) == c <==> InSomeBlock(c, ip)
  {
    TestIsBlock(c, ip);
    ClassifyTests(c, ip);
    if Test(c, ip) {
      TestsExclusive(c, Classify(ip), ip);
    }
  }

  /** The first class of a list whose test succeeds. */
  function FirstMatch(order: seq<Classification>, ip: IpAddr): Classification
    requires ip.Valid()
  {
    if order == [] then PublicGlobal
    else if Test(order[0], ip) then order[0] else FirstMatch(order[1..], ip)
  }

  lemma {:induction false} FirstMatchFinds(order: seq<Classification>, ip: IpAddr)
    requires ip.Valid()
    ensures var m := FirstMatch(order, ip);
      if m.PublicGlobal? then forall c :: c in order ==> !Test(c, ip) else m in order && Test(m, ip)
  {
    if order != [] && !Test(order[0], ip) {
      FirstMatchFinds(order[1..], ip);
      assert order == [order[0]] + order[1..];
    }
  }

  /** Testing the classes in any other order gives the same answer. */
  lemma TestOrderIrrelevant(order: seq<Classification>, ip: IpAddr)
    requires ip.Valid()
    requires forall c: Classification :: c != PublicGlobal ==> c in order
    ensures FirstMatch(order, ip) == Classify(ip)
  {
    FirstMatchFinds(order, ip);
    var m, c := FirstMatch(order, ip), Classify(ip);
    ClassifyTests(m, ip);
    if m != PublicGlobal && c != PublicGlobal { TestsExclusive(m, c, ip); }
  }
}
