/** IP networks as the Go library matches them, byte by byte under a mask. */
module Cidr {
  import opened Numbers

  type Byte = b: int | 0 <= b < 256

  type Bytes = seq<Byte>

  /** An address has 4 or 16 bytes; a 16-byte one may carry an IPv4 address. */
  predicate IsAddress(ip: Bytes) {
    |ip| == 4 || |ip| == 16
  }

  const MAPPED: Bytes := [0, 0, 0, 0, 0, 0, 0, 0, 0, 0, 255, 255]

  /** The 4-byte form of an IPv4 address, any other address as it is. */
  function Canonical(ip: Bytes): Bytes {
    if |ip| == 16 && ip[..12] == MAPPED then ip[12..] else ip
  }

  /** Bitwise and. */
  function And(a: nat, m: nat): (r: nat)
    ensures r <= a
  {
    if a == 0 || m == 0 then 0 else (if a % 2 == 1 && m % 2 == 1 then 1 else 0) + 2 * And(a / 2, m / 2)
  }

  /** A byte whose `n` most significant bits are set. */
  function PrefixByte(n: nat): Byte
    requires n <= 8
  {
    SmallPowers();
    256 - Pow2(8 - n)
  }

  /** How many bits of a prefix fall into byte `i`. */
  function BitsIn(ones: nat, i: nat): (k: nat)
    ensures k <= 8
  {
    if ones <= 8 * i then 0 else Min(ones - 8 * i, 8)
  }

  /** `net.CIDRMask`. */
  function Mask(ones: nat, size: nat): (m: Bytes)
    ensures |m| == size
  {
    seq(size, i requires 0 <= i < size => PrefixByte(BitsIn(ones, i)))
  }

  function AndByte(b: Byte, m: Byte): Byte {
    And(b, m)
  }

  function Masked(ip: Bytes, m: Bytes): (r: Bytes)
    requires |ip| == |m|
    ensures |r| == |ip|
  {
    seq(|ip|, i requires 0 <= i < |ip| => AndByte(ip[i], m[i]))
  }

  /** The first `n` bytes agree under the mask. */
  predicate MatchTo(a: Bytes, b: Bytes, m: Bytes, n: nat)
    requires |a| == |b| == |m| && n <= |m|
  {
    forall i :: 0 <= i < n ==> AndByte(a[i], m[i]) == AndByte(b[i], m[i])
  }

  predicate Match(a: Bytes, b: Bytes, m: Bytes)
    requires |a| == |b| == |m|
  {
    MatchTo(a, b, m, |m|)
  }

  datatype Net = Net(ip: Bytes, mask: Bytes)

  /** The network `ParseCIDR` returns for an address and a prefix length. */
  function Network(ip: Bytes, ones: nat): Net {
    Net(Masked(ip, Mask(ones, |ip|)), Mask(ones, |ip|))
  }

  /** `IPNet.Contains`: both sides canonical, same family, equal under the mask. */
  predicate Contains(n: Net, ip: Bytes) {
    var base, x := Canonical(n.ip), Canonical(ip);
    var m := if |base| == 4 && |n.mask| == 16 then n.mask[12..] else n.mask;
    IsAddress(base) && |m| == |base| && |x| == |base| && Match(base, x, m)
  }

  // ------------------------------------------------------------------------------------------
  // Bits

  lemma AndHalves(a: nat, m: nat)
    ensures And(a, m) % 2 == (if a % 2 == 1 && m % 2 == 1 then 1 else 0) && And(a, m) / 2 == And(a / 2, m / 2)
  {
  }

  lemma {:induction false} AndAssociates(a: nat, b: nat, c: nat)
    ensures And(And(a, b), c) == And(a, And(b, c))
  {
    if a > 0 && b > 0 && c > 0 {
      AndAssociates(a / 2, b / 2, c / 2);
      AndHalves(a, b);
      AndHalves(b, c);
      AndHalves(And(a, b), c);
      AndHalves(a, And(b, c));
    }
  }

  lemma {:induction false} AndAllOnes(a: nat, k: nat)
    requires a < Pow2(k)
    ensures And(a, Pow2(k) - 1) == a
  {
    if a > 0 && k > 0 {
      AndAllOnes(a / 2, k - 1);
      assert (Pow2(k) - 1) / 2 == Pow2(k - 1) - 1 && (Pow2(k) - 1) % 2 == 1;
    }
  }

  lemma DoubleModulo(a: nat, p: nat)
    requires p > 0
    ensures a % (2 * p) == 2 * ((a / 2) % p) + a % 2
  {
    var q, r := (a / 2) / p, (a / 2) % p;
    assert a / 2 == p * q + r;
    assert a == (2 * p) * q + (2 * r + a % 2);
    Remainder(a, 2 * p, q, 2 * r + a % 2);
  }

  lemma Remainder(a: nat, d: nat, q: nat, r: nat)
    requires a == d * q + r && r < d
    ensures a % d == r
  {
    var f := a / d;
    assert d * f + a % d == a;
    assert f < q ==> d * (f + 1) <= d * q;
    assert f > q ==> d * (q + 1) <= d * f;
  }

  /** The number the `k` low bits stand for. */
  function Low(a: nat, k: nat): nat {
    if k == 0 then 0 else a % 2 + 2 * Low(a / 2, k - 1)
  }

  lemma {:induction false} LowIsModulo(a: nat, k: nat)
    ensures Low(a, k) == a % Pow2(k)
  {
    if k > 0 {
      LowIsModulo(a / 2, k - 1);
      DoubleModulo(a, Pow2(k - 1));
    }
  }

  /** `j` ones above `k` zeros. */
  function Ones(j: nat, k: nat): nat {
    if k == 0 then Pow2(j) - 1 else 2 * Ones(j, k - 1)
  }

  lemma {:induction false} OnesAre(j: nat, k: nat)
    ensures Ones(j, k) == Pow2(j + k) - Pow2(k)
  {
    if k > 0 {
      OnesAre(j, k - 1);
      DoubledPowers(j, k);
    }
  }

  lemma DoubledPowers(j: nat, k: nat)
    requires k > 0
    ensures Pow2(k) == 2 * Pow2(k - 1) && Pow2(j + k) == 2 * Pow2(j + (k - 1))
  {
    assert j + k == j + (k - 1) + 1;
  }

  /** Such a mask clears the `k` low bits of a number it spans. */
  lemma {:induction false} AndClearsLow(a: nat, j: nat, k: nat)
    requires a < Pow2(j + k)
    ensures And(a, Ones(j, k)) == a - Low(a, k)
  {
    if k == 0 {
      AndAllOnes(a, j);
    } else {
      DoubledPowers(j, k);
      AndClearsLow(a / 2, j, k - 1);
      AndEven(a, Ones(j, k - 1));
    }
  }

  lemma AndEven(a: nat, m: nat)
    ensures And(a, 2 * m) == 2 * And(a / 2, m)
  {
    AndHalves(a, 2 * m);
    assert (2 * m) / 2 == m;
  }

  lemma {:induction false} AndKeepsLow(a: nat, k: nat)
    ensures And(a, Pow2(k) - 1) == Low(a, k)
  {
    if k > 0 {
      AndKeepsLow(a / 2, k - 1);
      AndOdd(a, Pow2(k - 1) - 1);
    }
  }

  lemma AndOdd(a: nat, m: nat)
    ensures And(a, 2 * m + 1) == 2 * And(a / 2, m) + a % 2
  {
    AndHalves(a, 2 * m + 1);
    assert (2 * m + 1) / 2 == m;
  }

  /** Agreeing under a prefix mask is lying in the same aligned window. */
  lemma ByteUnderMask(b: Byte, x: Byte, n: nat)
    requires n <= 8
    ensures
      var low := And(b, PrefixByte(n));
      && (low == And(x, PrefixByte(n)) <==> low <= x < low + Pow2(8 - n))
      && low + Pow2(8 - n) <= 256
  {
    var p := Pow2(8 - n);
    ByteClearsLow(b, n);
    ByteClearsLow(x, n);
    SameWindow(b, x, p);
    SmallPowers();
    Pow2Adds(8 - n, n);
    WindowFits(b, p, Pow2(n));
  }

  lemma PrefixIsOnes(n: nat)
    requires n <= 8
    ensures PrefixByte(n) == Ones(n, 8 - n) && Pow2(n + (8 - n)) == 256
  {
    SmallPowers();
    OnesAre(n, 8 - n);
    assert n + (8 - n) == 8;
  }

  lemma ByteClearsLow(b: Byte, n: nat)
    requires n <= 8
    ensures And(b, PrefixByte(n)) == b - b % Pow2(8 - n)
  {
    PrefixIsOnes(n);
    AndClearsLow(b, n, 8 - n);
    LowIsModulo(b, 8 - n);
  }

  /** The same with the mask written as a number. */
  lemma MaskedByte(b: Byte, n: nat, m: Byte, p: nat)
    requires n <= 8 && p == Pow2(8 - n) && m == 256 - p
    ensures p > 0 && And(b, m) == b - b % p
  {
    ByteClearsLow(b, n);
  }

  lemma SameWindow(b: nat, x: nat, p: nat)
    requires p > 0
    ensures b - b % p == x - x % p <==> b - b % p <= x < b - b % p + p
  {
    var q := b / p;
    assert b == p * q + b % p && x == p * (x / p) + x % p;
    if b - b % p <= x < b - b % p + p {
      Remainder(x, p, q, x - p * q);
    }
  }

  lemma WindowFits(b: nat, p: nat, n: nat)
    requires p > 0 && b < p * n
    ensures b - b % p + p <= p * n
  {
    var q := b / p;
    assert b == p * q + b % p;
    assert q >= n ==> p * q >= p * n;
    assert q + 1 <= n ==> p * (q + 1) <= p * n;
  }

  // ------------------------------------------------------------------------------------------
  // Masks are integer intervals

  /** The number the first `n` bytes stand for, most significant byte first. */
  function Lead(ip: Bytes, n: nat): nat
    requires n <= |ip|
  {
    if n == 0 then 0 else 256 * Lead(ip, n - 1) + ip[n - 1]
  }

  function Value(ip: Bytes): nat {
    Lead(ip, |ip|)
  }

  lemma KeepsByte(b: Byte)
    ensures And(b, 255) == b
  {
    SmallPowers();
    AndAllOnes(b, 8);
  }

  /** How many values the first `n` bytes have, the first `ones` bits given. */
  function FreeSize(ones: nat, n: nat): nat {
    if n == 0 then 1
    else if BitsIn(ones, n - 1) == 0 then 256 * FreeSize(ones, n - 1)
    else Pow2(8 - BitsIn(ones, n - 1))
  }

  lemma {:induction false} NothingFree(ones: nat, n: nat)
    requires 8 * n <= ones
    ensures FreeSize(ones, n) == 1
  {
    if n > 0 {
      NothingFree(ones, n - 1);
    }
  }

  lemma {:induction false} FreeIsPow2(ones: nat, n: nat)
    requires ones <= 8 * n
    ensures FreeSize(ones, n) == Pow2(8 * n - ones)
  {
    if n > 0 && ones <= 8 * (n - 1) {
      FreeIsPow2(ones, n - 1);
      SmallPowers();
      Pow2Adds(8, 8 * (n - 1) - ones);
      assert 8 + (8 * (n - 1) - ones) == 8 * n - ones;
    }
  }

  /** Byte by byte: agreeing so far is lying in one window so far. */
  lemma {:induction false} LeadInWindow(base: Bytes, x: Bytes, ones: nat, n: nat)
    requires |base| == |x| && n <= |base|
    ensures
      var m := Mask(ones, |base|);
      var low := Lead(Masked(base, m), n);
      MatchTo(base, x, m, n) <==> low <= Lead(x, n) < low + FreeSize(ones, n)
  {
    if n > 0 {
      LeadInWindow(base, x, ones, n - 1);
      NextByte(base, x, ones, n - 1);
    }
  }

  lemma NextByte(base: Bytes, x: Bytes, ones: nat, n: nat)
    requires |base| == |x| && n < |base|
    requires
      var m := Mask(ones, |base|);
      var low := Lead(Masked(base, m), n);
      MatchTo(base, x, m, n) <==> low <= Lead(x, n) < low + FreeSize(ones, n)
    ensures
      var m := Mask(ones, |base|);
      var low := Lead(Masked(base, m), n + 1);
      MatchTo(base, x, m, n + 1) <==> low <= Lead(x, n + 1) < low + FreeSize(ones, n + 1)
  {
    var m := Mask(ones, |base|);
    var low, v := ByteWindow(base, x, ones, n);
    MatchOneMore(base, x, m, n);
    Digits(Lead(Masked(base, m), n), low, Lead(x, n), x[n], FreeSize(ones, n), v);
  }

  lemma ByteWindow(base: Bytes, x: Bytes, ones: nat, n: nat) returns (low: nat, v: nat)
    requires |base| == |x| && n < |base|
    ensures
      var m := Mask(ones, |base|);
      && low == Masked(base, m)[n] && low + v <= 256
      && (AndByte(base[n], m[n]) == AndByte(x[n], m[n]) <==> low <= x[n] < low + v)
    ensures v == 256 || FreeSize(ones, n) == 1
    ensures FreeSize(ones, n + 1) == if v == 256 then 256 * FreeSize(ones, n) else v
  {
    var k := BitsIn(ones, n);
    low, v := AndByte(base[n], PrefixByte(k)), Pow2(8 - k);
    ByteUnderMask(base[n], x[n], k);
    SmallPowers();
    if k > 0 {
      NothingFree(ones, n);
      PowersGrow(8 - k, 7);
    }
  }

  lemma MatchOneMore(a: Bytes, b: Bytes, m: Bytes, n: nat)
    requires |a| == |b| == |m| && n < |m|
    ensures MatchTo(a, b, m, n + 1) <==> MatchTo(a, b, m, n) && AndByte(a[n], m[n]) == AndByte(b[n], m[n])
  {
  }

  lemma MatchInWindow(base: Bytes, x: Bytes, ones: nat)
    requires |base| == |x|
    ensures
      var low := Value(Masked(base, Mask(ones, |base|)));
      Match(base, x, Mask(ones, |base|)) <==> low <= Value(x) < low + FreeSize(ones, |base|)
  {
    LeadInWindow(base, x, ones, |base|);
    WholeAddress(base, x, Mask(ones, |base|));
  }

  /** The addresses that agree with `base` in the first `ones` bits: an interval from the masked address. */
  lemma MaskIsInterval(base: Bytes, x: Bytes, ones: nat)
    requires |base| == |x| && ones <= 8 * |base|
    ensures
      var low := Value(Masked(base, Mask(ones, |base|)));
      Match(base, x, Mask(ones, |base|)) <==> low <= Value(x) < low + Pow2(8 * |base| - ones)
  {
    var m := Mask(ones, |base|);
    MatchInWindow(base, x, ones);
    FreeIsPow2(ones, |base|);
    SameWidth(Match(base, x, m), Value(Masked(base, m)), Value(x), FreeSize(ones, |base|), Pow2(8 * |base| - ones));
  }

  lemma SameWidth(matches: bool, low: nat, n: nat, w: nat, w': nat)
    requires (matches <==> low <= n < low + w) && w == w'
    ensures matches <==> low <= n < low + w'
  {
  }

  lemma WholeAddress(base: Bytes, x: Bytes, m: Bytes)
    requires |base| == |x| == |m|
    ensures Match(base, x, m) <==> MatchTo(base, x, m, |base|)
    ensures Value(Masked(base, m)) == Lead(Masked(base, m), |base|) && Value(x) == Lead(x, |base|)
  {
  }

  /** Windows on the leading digits and on the last, as one window on the number to base 256. */
  lemma Digits(high: nat, low: nat, a: nat, y: Byte, w: nat, v: nat)
    requires low + v <= 256 && (v == 256 || w == 1)
    ensures (high <= a < high + w && low <= y < low + v) <==>
      256 * high + low <= 256 * a + y < 256 * high + low + (if v == 256 then 256 * w else v)
  {
  }

  lemma MaskTwice(a: Bytes, x: Bytes, m: Bytes)
    requires |a| == |x| == |m|
    ensures Match(Masked(a, m), x, m) <==> Match(a, x, m)
  {
    forall i | 0 <= i < |m| ensures AndByte(Masked(a, m)[i], m[i]) == AndByte(a[i], m[i]) {
      AndAssociates(a[i], m[i], m[i]);
      AndItself(m[i]);
    }
  }

  lemma {:induction false} AndItself(m: nat)
    ensures And(m, m) == m
  {
    if m > 0 {
      AndItself(m / 2);
    }
  }

  // ------------------------------------------------------------------------------------------
  // Networks of both families

  /** An IPv4-mapped prefix of at least 96 bits: the library matches it as an IPv4 network. */
  predicate IsMapped(ip: Bytes, ones: nat) {
    |ip| == 16 && ip[..12] == MAPPED && ones >= 96
  }

  /** The address and the prefix length that are really matched. */
  function Base(ip: Bytes, ones: nat): Bytes {
    if IsMapped(ip, ones) then ip[12..] else ip
  }

  function Bits(ip: Bytes, ones: nat): nat {
    if IsMapped(ip, ones) then ones - 96 else ones
  }

  lemma {:induction false} AndBelow(a: nat, m: nat)
    ensures And(a, m) <= m
  {
    if a > 0 && m > 0 {
      AndBelow(a / 2, m / 2);
    }
  }

  lemma FullBytesStay(ip: Bytes, ones: nat, n: nat)
    requires n <= |ip| && 8 * n <= ones
    ensures Masked(ip, Mask(ones, |ip|))[..n] == ip[..n]
  {
    forall i | 0 <= i < n ensures Masked(ip, Mask(ones, |ip|))[i] == ip[i] {
      SmallPowers();
      KeepsByte(ip[i]);
    }
  }

  /** The twelfth byte stays 255 only if the prefix reaches its end. */
  lemma MappedBaseIsMapped(ip: Bytes, ones: nat)
    requires |ip| == 16 && Masked(ip, Mask(ones, 16))[..12] == MAPPED
    ensures IsMapped(ip, ones)
  {
    var m := Mask(ones, 16);
    assert Masked(ip, m)[11] == Masked(ip, m)[..12][11] == 255;
    AndBelow(ip[11], m[11]);
    assert PrefixByte(BitsIn(ones, 11)) == 255;
    FullBytesStay(ip, ones, 12);
  }

  lemma MaskTail(ones: nat)
    requires ones >= 96
    ensures Mask(ones, 16)[12..] == Mask(ones - 96, 4)
  {
    forall i | 0 <= i < 4 ensures Mask(ones, 16)[12..][i] == Mask(ones - 96, 4)[i] {
      assert BitsIn(ones, i + 12) == BitsIn(ones - 96, i);
    }
  }

  lemma MaskedTail(ip: Bytes, m: Bytes)
    requires |ip| == |m| == 16
    ensures Masked(ip, m)[12..] == Masked(ip[12..], m[12..])
  {
  }

  /** What the library makes of the two parts of a parsed network. */
  lemma NetworkParts(ip: Bytes, ones: nat)
    requires IsAddress(ip)
    ensures
      var (n, base) := (Network(ip, ones), Base(ip, ones));
      && Canonical(n.ip) == Masked(base, Mask(Bits(ip, ones), |base|))
      && (if |base| == 4 && |n.mask| == 16 then n.mask[12..] else n.mask) == Mask(Bits(ip, ones), |base|)
  {
    if IsMapped(ip, ones) {
      FullBytesStay(ip, ones, 12);
      MaskedTail(ip, Mask(ones, 16));
      MaskTail(ones);
    } else if |ip| == 16 && Masked(ip, Mask(ones, 16))[..12] == MAPPED {
      MappedBaseIsMapped(ip, ones);
    }
  }

  lemma ContainsByPrefix(ip: Bytes, ones: nat, x: Bytes)
    requires IsAddress(ip)
    ensures
      var base := Base(ip, ones);
      Contains(Network(ip, ones), x) <==>
        |Canonical(x)| == |base| && Match(base, Canonical(x), Mask(Bits(ip, ones), |base|))
  {
    NetworkParts(ip, ones);
    var base := Base(ip, ones);
    if |Canonical(x)| == |base| {
      MaskTwice(base, Canonical(x), Mask(Bits(ip, ones), |base|));
    }
  }

  /**
   * Prefix matching of section 3.1 of RFC 4632, on integers and in both families: a parsed
   * network contains an address exactly when the canonical forms of both have the same length
   * and the address lies in the block of 2^(width - prefix) numbers that starts at the network's.
   */
  lemma NetworkIsInterval(ip: Bytes, ones: nat, x: Bytes)
    requires IsAddress(ip) && ones <= 8 * |ip|
    ensures
      var (low, y) := (Canonical(Network(ip, ones).ip), Canonical(x));
      Contains(Network(ip, ones), x) <==>
        |y| == |low| && Value(low) <= Value(y) < Value(low) + Pow2(8 * |ip| - ones)
  {
    ContainsByPrefix(ip, ones, x);
    NetworkParts(ip, ones);
    if |Canonical(x)| == |Base(ip, ones)| {
      BaseInterval(ip, ones, Canonical(x));
    }
  }

  lemma BaseInterval(ip: Bytes, ones: nat, y: Bytes)
    requires IsAddress(ip) && ones <= 8 * |ip| && |y| == |Base(ip, ones)|
    ensures
      var m := Mask(Bits(ip, ones), |y|);
      var low := Value(Masked(Base(ip, ones), m));
      Match(Base(ip, ones), y, m) <==> low <= Value(y) < low + Pow2(8 * |ip| - ones)
  {
    assert 8 * |y| - Bits(ip, ones) == 8 * |ip| - ones;
    MaskIsInterval(Base(ip, ones), y, Bits(ip, ones));
  }

  // ------------------------------------------------------------------------------------------
  // Nested networks

  /** Every bit of `short` is a bit of `long`. */
  predicate Covers(long: Bytes, short: Bytes)
    requires |long| == |short|
  {
    forall i :: 0 <= i < |short| ==> AndByte(long[i], short[i]) == short[i]
  }

  lemma LongerMaskCovers(p: nat, q: nat, size: nat)
    requires p <= q
    ensures Covers(Mask(q, size), Mask(p, size))
  {
    forall i | 0 <= i < size ensures AndByte(Mask(q, size)[i], Mask(p, size)[i]) == Mask(p, size)[i] {
      LongerPrefixByte(BitsIn(p, i), BitsIn(q, i));
    }
  }

  lemma LongerPrefixByte(p: nat, q: nat)
    requires p <= q <= 8
    ensures And(PrefixByte(q), PrefixByte(p)) == PrefixByte(p)
  {
    ByteClearsLow(PrefixByte(q), p);
    PrefixModulo(p, q);
  }

  lemma PrefixModulo(p: nat, q: nat)
    requires p <= q <= 8
    ensures PrefixByte(q) - PrefixByte(q) % Pow2(8 - p) == PrefixByte(p)
  {
    SmallPowers();
    var d := Pow2(8 - p);
    Pow2Adds(8 - p, p);
    PowersGrow(8 - q, 8 - p);
    var n := Pow2(p);
    assert d * n == 256;
    Remainder(PrefixByte(q), d, n - 1, d - Pow2(8 - q)) by {
      assert d * (n - 1) == 256 - d;
    }
  }

  lemma MatchNests(a: Bytes, b: Bytes, y: Bytes, long: Bytes, short: Bytes)
    requires |a| == |b| == |y| == |long| == |short|
    requires Covers(long, short) && Match(b, a, short) && Match(a, y, long)
    ensures Match(b, y, short)
  {
    forall i | 0 <= i < |short| ensures AndByte(b[i], short[i]) == AndByte(y[i], short[i]) {
      assert AndByte(a[i], long[i]) == AndByte(y[i], long[i]) && AndByte(long[i], short[i]) == short[i];
      AndAssociates(a[i], long[i], short[i]);
      AndAssociates(y[i], long[i], short[i]);
    }
  }

  lemma NestedMasks(a: Bytes, q: nat, b: Bytes, p: nat, y: Bytes)
    requires |a| == |b| == |y| && p <= q
    requires Match(b, a, Mask(p, |a|)) && Match(a, y, Mask(q, |a|))
    ensures Match(b, y, Mask(p, |a|))
  {
    LongerMaskCovers(p, q, |a|);
    MatchNests(a, b, y, Mask(q, |a|), Mask(p, |a|));
  }

  lemma MappedTailsMatch(a: Bytes, b: Bytes, ones: nat)
    requires |a| == |b| == 16 && ones >= 96 && Match(b, a, Mask(ones, 16))
    ensures Match(b[12..], a[12..], Mask(ones - 96, 4))
  {
    MaskTail(ones);
    var m := Mask(ones, 16);
    forall i | 0 <= i < 4 ensures AndByte(b[12..][i], m[12..][i]) == AndByte(a[12..][i], m[12..][i]) {
      assert AndByte(b[i + 12], m[i + 12]) == AndByte(a[i + 12], m[i + 12]);
    }
  }

  /** The address of the first network lies in the second one's prefix, which is no longer than its own. */
  predicate Nested(a: Bytes, q: nat, b: Bytes, r: nat) {
    IsAddress(a) && |a| == |b| && r <= q && Match(b, a, Mask(r, |a|))
  }

  /** The library matches both networks against addresses of the same length. */
  predicate SameFamily(n: Net, outer: Net) {
    |Canonical(n.ip)| == |Canonical(outer.ip)|
  }

  lemma NestedByPrefix(a: Bytes, q: nat, b: Bytes, r: nat, x: Bytes)
    requires Nested(a, q, b, r) && SameFamily(Network(a, q), Network(b, r))
    ensures Contains(Network(a, q), x) ==> Contains(Network(b, r), x)
  {
    NetworkParts(a, q);
    NetworkParts(b, r);
    if Contains(Network(a, q), x) {
      ContainsByPrefix(a, q, x);
      ContainsByPrefix(b, r, x);
      if IsMapped(b, r) {
        MappedTailsMatch(a, b, r);
      }
      NestedMasks(Base(a, q), Bits(a, q), Base(b, r), Bits(b, r), Canonical(x));
    }
  }

  lemma BaseIsContained(ip: Bytes, ones: nat)
    requires IsAddress(ip)
    ensures Contains(Network(ip, ones), Canonical(Network(ip, ones).ip))
  {
    NetworkParts(ip, ones);
    var base, m := Base(ip, ones), Mask(Bits(ip, ones), |Base(ip, ones)|);
    ContainsByPrefix(ip, ones, Masked(base, m));
    MaskTwice(base, Masked(base, m), m);
  }

  /** Exactly when a nested network is contained in the outer one: when both are matched in the same family. */
  lemma NestedIsContainedIff(a: Bytes, q: nat, b: Bytes, r: nat)
    requires Nested(a, q, b, r)
    ensures (forall x :: Contains(Network(a, q), x) ==> Contains(Network(b, r), x)) <==> SameFamily(Network(a, q), Network(b, r))
  {
    if SameFamily(Network(a, q), Network(b, r)) {
      forall x ensures Contains(Network(a, q), x) ==> Contains(Network(b, r), x) {
        NestedByPrefix(a, q, b, r, x);
      }
    } else {
      BaseIsContained(a, q);
      assert !Contains(Network(b, r), Canonical(Network(a, q).ip));
    }
  }
}
