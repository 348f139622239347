/**
 The highest address of a prefix (cidrindex.go), by a word mask for IPv4 and a byte loop for IPv6,
 proved to be the arithmetic end of the prefix in both families.
 */
module LastAddr {
  import opened Bits
  import opened Netip

  type Byte = n: nat | n < 256

  /** The number a big-endian byte string denotes, and its byte string of a given length. */
  function Value(b: seq<Byte>): nat {
    if b == [] then 0 else Value(b[..|b| - 1]) * 256 + b[|b| - 1]
  }

  function ToBytes(n: nat, len: nat): (b: seq<Byte>)
    ensures |b| == len
  {
    if len == 0 then [] else ToBytes(n / 256, len - 1) + [n % 256]
  }

  lemma {:induction false} BytesRoundTrip(n: nat, len: nat)
    requires n < Pow2(8 * len)
    ensures Value(ToBytes(n, len)) == n
  {
    if len > 0 {
      Pow2Add8(8 * (len - 1));
      BytesRoundTrip(n / 256, len - 1);
      assert ToBytes(n, len)[..len - 1] == ToBytes(n / 256, len - 1);
    }
  }

  /** How many of the low `host` bits fall into the byte that has `after` bytes behind it. */
  function HostBitsInByte(host: nat, after: nat): (n: nat)
    ensures n <= 8
  {
    if host <= 8 * after then 0 else if host - 8 * after < 8 then host - 8 * after else 8
  }

  function OrLowBits(x: Byte, n: nat): (y: Byte)
    requires n <= 8
    ensures y == ClearLow(x, n) + Pow2(n) - 1
  {
    OrMask(x, n);
    Pow2Add8(0);
    BlockBelow(x, n, 8 - n);
    BitOr(x, Pow2(n) - 1)
  }

  predicate ByteSet(b: seq<Byte>, c: seq<Byte>, host: nat, j: nat)
    requires j < |b| == |c|
  {
    c[j] == OrLowBits(b[j], HostBitsInByte(host, |b| - 1 - j))
  }

  /** c is b with its low `host` bits set, stated byte by byte. */
  predicate LowBitsSet(b: seq<Byte>, c: seq<Byte>, host: nat) {
    && |c| == |b|
    && forall j :: 0 <= j < |b| ==> ByteSet(b, c, host, j)
  }

  /** Setting the low bits byte by byte is rounding the whole number up within its block. */
  lemma {:induction false} LowBitsSetValue(b: seq<Byte>, c: seq<Byte>, host: nat)
    requires LowBitsSet(b, c, host) && host <= 8 * |b|
    ensures Value(c) == ClearLow(Value(b), host) + Pow2(host) - 1
    decreases |b|
  {
    if |b| > 0 {
      var k := |b| - 1;
      var rest := if host <= 8 then 0 else host - 8;
      LowBitsSetPrefix(b, c, host, rest);
      LowBitsSetValue(b[..k], c[..k], rest);
      var v, w := Value(b[..k]), Value(c[..k]);
      AppendByte(v, b[k], w, c[k], host, rest);
      ValueSnoc(b);
      ValueSnoc(c);
    }
  }

  lemma ValueSnoc(b: seq<Byte>)
    requires |b| > 0
    ensures Value(b) == Value(b[..|b| - 1]) * 256 + b[|b| - 1]
  {
  }

  lemma LowBitsSetPrefix(b: seq<Byte>, c: seq<Byte>, host: nat, rest: nat)
    requires |b| > 0 && LowBitsSet(b, c, host)
    requires rest == if host <= 8 then 0 else host - 8
    ensures LowBitsSet(b[..|b| - 1], c[..|b| - 1], rest)
    ensures c[|b| - 1] == OrLowBits(b[|b| - 1], HostBitsInByte(host, 0))
  {
    var k := |b| - 1;
    assert ByteSet(b, c, host, k);
    forall j | 0 <= j < k ensures ByteSet(b[..k], c[..k], rest, j) {
      assert ByteSet(b, c, host, j);
      assert HostBitsInByte(rest, k - 1 - j) == HostBitsInByte(host, k - j);
    }
  }

  lemma AppendByte(v: nat, x: Byte, w: nat, y: Byte, host: nat, rest: nat)
    requires rest == if host <= 8 then 0 else host - 8
    requires w == ClearLow(v, rest) + Pow2(rest) - 1
    requires y == OrLowBits(x, HostBitsInByte(host, 0))
    ensures w * 256 + y == ClearLow(v * 256 + x, host) + Pow2(host) - 1
  {
    if host <= 8 {
      AppendByteNarrow(v, x, host);
    } else {
      AppendByteWide(v, x, rest);
    }
  }

  lemma AppendByteNarrow(v: nat, x: Byte, host: nat)
    requires host <= 8
    ensures ClearLow(v * 256 + x, host) == v * 256 + ClearLow(x, host)
  {
    ClearLowByByte(v * 256, 0);
    assert v * 256 / 256 == v;
    ClearFewer(v * 256, host, 8);
    ClearLowAdd(v * 256, x, host);
  }

  lemma AppendByteWide(v: nat, x: Byte, rest: nat)
    ensures ClearLow(v * 256 + x, rest + 8) == ClearLow(v, rest) * 256
    ensures Pow2(rest + 8) == Pow2(rest) * 256
    ensures OrLowBits(x, 8) == 255
  {
    Pow2Add8(rest);
    Pow2Add8(0);
    ClearLowByByte(x, 0);
    assert (v * 256 + x) / 256 == v;
    ClearLowByByte(v * 256 + x, rest);
  }

  /** The address of the prefix's family with the given number. */
  function InFamilyOf(p: Prefix, n: nat): Addr
    requires p.IsValid() && n <= p.Last()
  {
    ValueOfFamily(p);
    if p.Prefix4? then V4(n) else V6(n, "")
  }

  function WordMask(host: nat): nat {
    if host >= 32 then 0xFFFF_FFFF else Pow2(host) - 1
  }

  lemma WordMaskReachesTheEnd(p: Prefix)
    requires p.IsValid() && p.Prefix4?
    ensures BitOr(p.First(), WordMask(32 - p.bits)) == p.Last()
  {
    Pow2Of32();
    MaskedKeepsEnds(p);
    OrMask(p.First(), 32 - p.bits);
  }

  lemma ByteLoopReachesTheEnd(p: Prefix, b: seq<Byte>)
    requires p.IsValid() && p.Prefix6? && |b| == 16
    requires LowBitsSet(ToBytes(p.First(), 16), b, 128 - p.bits)
    ensures Value(b) == p.Last()
  {
    ValueOfFamily(p);
    MaskedKeepsEnds(p);
    Pow2Of128();
    BytesRoundTrip(p.First(), 16);
    LowBitsSetValue(ToBytes(p.First(), 16), b, 128 - p.bits);
  }

  method LastAddrOf(prefix: Prefix) returns (last: Addr)
    requires prefix.IsValid()
    ensures last == InFamilyOf(prefix, prefix.Last())
  {
    var p := Masked(prefix);
    MaskedKeepsEnds(prefix);
    ValueOfFamily(prefix);
    if p.Prefix4? {
      WordMaskReachesTheEnd(prefix);
      return V4(BitOr(p.w, WordMask(32 - p.bits)));
    }
    var bytes := ToBytes(p.x, 16);
    var b := new Byte[16](i requires 0 <= i < 16 => bytes[i]);
    assert b[..] == bytes;
    SetLowBits(b, 128 - p.bits);
    ByteLoopReachesTheEnd(prefix, b[..]);
    last := V6(Value(b[..]), "");
  }

  /** The byte loop of the IPv6 branch, from the last byte towards the first. */
  method SetLowBits(b: array<Byte>, bits: nat)
    requires b.Length == 16 && bits <= 128
    modifies b
    ensures LowBitsSet(old(b[..]), b[..], bits)
  {
    var host := bits;
    var i := 15;
    ghost var was := b[..];
    while i >= 0 && host > 0
      invariant -1 <= i <= 15
      invariant host == if bits <= 8 * (15 - i) then 0 else bits - 8 * (15 - i)
      invariant forall j :: 0 <= j <= i ==> b[j] == was[j]
      invariant forall j :: i < j < 16 ==> b[j] == FinalByte(was, bits, j)
    {
      var n := host;
      if n > 8 {
        n := 8;
      }
      b[i] := OrLowBits(b[i], n);
      host := host - n;
      i := i - 1;
    }
    forall j | 0 <= j <= i ensures b[j] == FinalByte(was, bits, j) {
      assert HostBitsInByte(bits, 15 - j) == 0;
    }
    forall j | 0 <= j < 16 ensures ByteSet(was, b[..], bits, j) {
      assert b[..][j] == FinalByte(was, bits, j);
    }
  }

  function FinalByte(was: seq<Byte>, bits: nat, j: nat): Byte
    requires j < |was| == 16
  {
    OrLowBits(was[j], HostBitsInByte(bits, 15 - j))
  }
}
