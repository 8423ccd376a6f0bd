/**
 * IPv4 networks in CIDR notation, as far as the counting loop looks at
 * them: the network address with the host bits cleared, its dotted-quad
 * text, its length (number of addresses in the block) and the derived
 * host count `len - 2`.
 */
module Network {
  import opened Results
  import opened Decimal
  import opened IpAddress

  /** A 32-bit IPv4 address as an unsigned integer. */
  type U32 = a: nat | a < 0x1_0000_0000

  /** A prefix length: 0 to 32 network bits. */
  type PrefixLength = p: nat | p <= 32

  /** A parsed network: an address and a prefix length, as `a.b.c.d/p`. */
  datatype Cidr = Cidr(address: U32, prefix: PrefixLength)

  function Pow2(n: nat): (r: nat)
    ensures r >= 1
  {
    if n == 0 then 1 else 2 * Pow2(n - 1)
  }

  lemma {:induction false} Pow2Add(m: nat, n: nat)
    ensures Pow2(m + n) == Pow2(m) * Pow2(n)
  {
    if m > 0 {
      Pow2Add(m - 1, n);
      assert Pow2(m + n) == 2 * Pow2(m - 1 + n);
    }
  }

  lemma Pow2Of32()
    ensures Pow2(32) == 0x1_0000_0000
  {
    assert Pow2(1) == 2;
    assert Pow2(2) == 4;
    Pow2Add(2, 2);
    Pow2Add(4, 4);
    Pow2Add(8, 8);
    Pow2Add(16, 16);
  }

  /** Number of addresses in the network: 2 to the number of host bits. */
  function Len(c: Cidr): (n: nat)
    ensures 1 <= n <= 0x1_0000_0000
  {
    LenBlocks(c.prefix);
    Pow2(32 - c.prefix)
  }

  /** The 2^p blocks of a given prefix length together cover the address space. */
  lemma LenBlocks(p: PrefixLength)
    ensures Pow2(32 - p) * Pow2(p) == 0x1_0000_0000
    ensures Pow2(32 - p) <= 0x1_0000_0000
  {
    Pow2Add(32 - p, p);
    Pow2Of32();
    AtMostProduct(Pow2(32 - p), Pow2(p));
  }

  lemma AtMostProduct(a: nat, b: nat)
    requires b >= 1
    ensures a <= a * b
  {
  }

  /** `x` with its `k` lowest bits cleared. */
  function ClearLow(x: nat, k: nat): nat {
    if k == 0 then x else 2 * ClearLow(x / 2, k - 1)
  }

  /** `x` shifted right by `k` bits. */
  function ShiftRight(x: nat, k: nat): nat {
    if k == 0 then x else ShiftRight(x / 2, k - 1)
  }

  /** Clearing the k lowest bits moves x down by less than 2^k */
  lemma {:induction false} ClearLowBounds(x: nat, k: nat)
    ensures ClearLow(x, k) <= x < ClearLow(x, k) + Pow2(k)
  {
    if k > 0 {
      ClearLowBounds(x / 2, k - 1);
    }
  }

  /** Clearing the k lowest bits leaves a multiple of 2^k */
  lemma {:induction false} ClearLowMultiple(x: nat, k: nat)
    ensures ClearLow(x, k) == ShiftRight(x, k) * Pow2(k)
  {
    if k > 0 {
      ClearLowMultiple(x / 2, k - 1);
      assert ClearLow(x, k) == 2 * (ShiftRight(x / 2, k - 1) * Pow2(k - 1));
    }
  }

  /**
   * The first address of the block: the address with its host bits
   * cleared, so that the block starting there holds the address.
   */
  function NetworkAddress(c: Cidr): (a: U32)
    ensures a <= c.address < a + Len(c)
  {
    ClearLowBounds(c.address, 32 - c.prefix);
    ClearLow(c.address, 32 - c.prefix)
  }

  /** The network address is a whole multiple of the block length. */
  lemma NetworkAddressAligned(c: Cidr)
    ensures NetworkAddress(c) == ShiftRight(c.address, 32 - c.prefix) * Len(c)
  {
    ClearLowMultiple(c.address, 32 - c.prefix);
  }

  /** The four bytes of an address, most significant first. */
  function OctetsOf(a: U32): (o: seq<nat>)
    ensures |o| == 4 && o[0] < 256 && o[1] < 256 && o[2] < 256 && o[3] < 256
    ensures a == ((o[0] * 256 + o[1]) * 256 + o[2]) * 256 + o[3]
  {
    var q1 := a / 256;
    var q2 := q1 / 256;
    [q2 / 256, q2 % 256, q1 % 256, a % 256]
  }

  /** The network address rendered as the dotted quad `o0.o1.o2.o3` in decimal. */
  function AddressText(c: Cidr): string {
    var o := OctetsOf(NetworkAddress(c));
    DottedQuad(o[0], o[1], o[2], o[3])
  }

  /** The three RFC 1918 private address blocks, as address ranges. */
  predicate InRfc1918(a: U32) {
    (0x0A00_0000 <= a <= 0x0AFF_FFFF) ||
    (0xAC10_0000 <= a <= 0xAC1F_FFFF) ||
    (0xC0A8_0000 <= a <= 0xC0A8_FFFF)
  }

  /** The octet test of the classifier describes exactly the RFC 1918 ranges. */
  lemma OctetsClassify(a: U32)
    ensures var o := OctetsOf(a); PrivateOctets(o[0], o[1]) <==> InRfc1918(a)
  {
  }

  /**
   * Classifying the text of a network address never fails, with either
   * reading of the pattern, and answers whether the address lies in an
   * RFC 1918 block.
   */
  lemma AddressTextClassified(c: Cidr)
    ensures IsPrivate(AddressText(c)) == Ok(InRfc1918(NetworkAddress(c)))
    ensures IsPrivateIntended(AddressText(c)) == Ok(InRfc1918(NetworkAddress(c)))
  {
    var o := OctetsOf(NetworkAddress(c));
    DottedQuadClassified(o[0], o[1], o[2], o[3]);
    OctetsClassify(NetworkAddress(c));
  }

  /** Whether an address is private depends only on its upper 16 bits. */
  lemma ClassifiedByUpperHalf(a: U32, b: U32)
    requires a / 0x1_0000 == b / 0x1_0000
    ensures InRfc1918(a) == InRfc1918(b)
  {
  }

  /** Host count of a network as the loop computes it: its length minus two. */
  function Size(c: Cidr): int {
    Len(c) - 2
  }

  /**
   * The host count by prefix length: negative for a single address, zero
   * for a point-to-point pair, and at least two otherwise; never more
   * than 2^32 - 2.
   */
  lemma SizeByPrefix(c: Cidr)
    ensures c.prefix == 32 <==> Size(c) == -1
    ensures c.prefix == 31 <==> Size(c) == 0
    ensures c.prefix <= 30 <==> Size(c) >= 2
    ensures Size(c) <= 0xFFFF_FFFE
  {
    assert Pow2(1) == 2;
    if c.prefix <= 30 {
      Pow2Add(2, 30 - c.prefix);
      assert Pow2(2) == 4;
    }
  }

  /** One fewer network bit doubles the length of the block. */
  lemma LenDoubles(a: U32, p: PrefixLength)
    requires p < 32
    ensures Len(Cidr(a, p)) == 2 * Len(Cidr(a, p + 1))
  {
  }
}
