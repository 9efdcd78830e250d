/** The egress policy: which resolved addresses may be dialed. */
module Egress {
  import opened Numbers
  import opened Text
  import opened Cidr

  datatype Policy = Policy(allowPrivate: bool, allow: seq<Net>, block: seq<Net>)

  datatype Verdict = Allowed | AlwaysBlocked(n: Net) | InBlockList(n: Net) | PrivateAddress

  const ZEROS: Bytes := [0, 0, 0, 0, 0, 0, 0, 0, 0, 0, 0, 0, 0, 0, 0, 0]
  const LOOPBACK: Bytes := [0, 0, 0, 0, 0, 0, 0, 0, 0, 0, 0, 0, 0, 0, 0, 1]
  const IMDS_V6: Bytes := [0xfd, 0x00, 0x0e, 0xc2, 0, 0, 0, 0, 0, 0, 0, 0, 0, 0, 0x02, 0x54]
  const FE80: Bytes := [0xfe, 0x80, 0, 0, 0, 0, 0, 0, 0, 0, 0, 0, 0, 0, 0, 0]

  /** Metadata services, link-local and the unspecified addresses. */
  const METADATA := Network([169, 254, 169, 254], 32)
  const METADATA_V6 := Network(IMDS_V6, 128)
  const LINK_LOCAL := Network([169, 254, 0, 0], 16)
  const LINK_LOCAL_V6 := Network(FE80, 10)
  const UNSPECIFIED_V6 := Network(ZEROS, 128)
  const UNSPECIFIED := Network([0, 0, 0, 0], 32)

  const ALWAYS_BLOCKED: seq<Net> := [METADATA, METADATA_V6, LINK_LOCAL, LINK_LOCAL_V6, UNSPECIFIED_V6, UNSPECIFIED]

  function FirstMatch(list: seq<Net>, ip: Bytes): Option<Net> {
    if list == [] then None
    else if Contains(list[0], ip) then Some(list[0])
    else FirstMatch(list[1..], ip)
  }

  /** `isPrivate`, with the library's address classes spelt out. */
  predicate IsPrivate(ip: Bytes) {
    var x := Canonical(ip);
    if |x| == 4 then
      || x[0] == 127
      || x[0] == 10 || (x[0] == 172 && And(x[1], 0xf0) == 16) || (x[0] == 192 && x[1] == 168)
      || (x[0] == 169 && x[1] == 254)
      || (x[0] == 224 && x[1] == 0 && x[2] == 0)
      || x == [0, 0, 0, 0]
    else
      |x| == 16 &&
      (|| x == LOOPBACK
       || And(x[0], 0xfe) == 0xfc
       || (x[0] == 0xfe && And(x[1], 0xc0) == 0x80)
       || (x[0] == 0xff && (And(x[1], 0x0f) == 2 || And(x[1], 0x0f) == 1))
       || x == ZEROS)
  }

  /** `Allowed`: the lists in order, then the private addresses. */
  function Judge(p: Policy, ip: Bytes): Verdict {
    match FirstMatch(ALWAYS_BLOCKED, ip)
    case Some(n) => AlwaysBlocked(n)
    case None =>
      match FirstMatch(p.block, ip)
      case Some(n) => InBlockList(n)
      case None =>
        if FirstMatch(p.allow, ip).Some? then Allowed
        else if p.allowPrivate then Allowed
        else if IsPrivate(ip) then PrivateAddress
        else Allowed
  }

  predicate Permits(p: Policy, ip: Bytes) {
    Judge(p, ip).Allowed?
  }

  // ------------------------------------------------------------------------------------------
  // Policy algebra

  predicate Hits(list: seq<Net>, ip: Bytes) {
    exists n :: n in list && Contains(n, ip)
  }

  lemma {:induction false} FirstMatchIsHit(list: seq<Net>, ip: Bytes)
    ensures FirstMatch(list, ip).Some? <==> Hits(list, ip)
    ensures FirstMatch(list, ip).Some? ==> FirstMatch(list, ip).value in list && Contains(FirstMatch(list, ip).value, ip)
  {
    if list != [] {
      FirstMatchIsHit(list[1..], ip);
      if Contains(list[0], ip) {
        assert Hits(list, ip);
      } else if Hits(list, ip) {
        var n :| n in list && Contains(n, ip);
        assert n in list[1..];
      }
    }
  }

  /** The verdict as one formula, whatever the order of the lists; a denial names a network that matched. */
  lemma VerdictFormula(p: Policy, ip: Bytes)
    ensures Permits(p, ip) <==>
      !Hits(ALWAYS_BLOCKED, ip) && !Hits(p.block, ip) && (Hits(p.allow, ip) || p.allowPrivate || !IsPrivate(ip))
    ensures Judge(p, ip).AlwaysBlocked? ==> Judge(p, ip).n in ALWAYS_BLOCKED && Contains(Judge(p, ip).n, ip)
    ensures Judge(p, ip).InBlockList? ==> Judge(p, ip).n in p.block && Contains(Judge(p, ip).n, ip)
  {
    FirstMatchIsHit(ALWAYS_BLOCKED, ip);
    FirstMatchIsHit(p.block, ip);
    FirstMatchIsHit(p.allow, ip);
  }

  /** Reordering or repeating list entries changes no decision. */
  lemma OrderIsIrrelevant(p: Policy, q: Policy, ip: Bytes)
    requires p.allowPrivate == q.allowPrivate
    requires (forall n :: n in p.allow <==> n in q.allow) && (forall n :: n in p.block <==> n in q.block)
    ensures Permits(p, ip) <==> Permits(q, ip)
  {
    VerdictFormula(p, ip);
    VerdictFormula(q, ip);
  }

  /** Permission grows with the allow list and `allowPrivate` and shrinks with the block list. */
  lemma PermissionIsMonotone(p: Policy, q: Policy, ip: Bytes)
    requires p.allowPrivate ==> q.allowPrivate
    requires (forall n :: n in p.allow ==> n in q.allow) && (forall n :: n in q.block ==> n in p.block)
    requires Permits(p, ip)
    ensures Permits(q, ip)
  {
    VerdictFormula(p, ip);
    VerdictFormula(q, ip);
  }

  function Without(list: seq<Net>, i: nat): seq<Net>
    requires i < |list|
  {
    list[..i] + list[i + 1..]
  }

  lemma NestedHitIsRedundant(list: seq<Net>, i: nat, j: nat, ip: Bytes)
    requires i < |list| && j < |list| && i != j
    requires Contains(list[i], ip) ==> Contains(list[j], ip)
    ensures Hits(Without(list, i), ip) <==> Hits(list, ip)
  {
    var rest := Without(list, i);
    if Hits(list, ip) {
      var n :| n in list && Contains(n, ip);
      var k :| 0 <= k < |list| && list[k] == n;
      StaysListed(list, i, if k == i then j else k);
    }
  }

  lemma StaysListed(list: seq<Net>, i: nat, k: nat)
    requires i < |list| && k < |list| && k != i
    ensures list[k] in Without(list, i)
  {
    assert list[k] == Without(list, i)[if k < i then k else k - 1];
  }

  /** Dropping entry `i`, the network `n`, from a list that has `outer` as entry `j` changes no decision on `ip`. */
  predicate DropsQuietly(p: Policy, i: nat, j: nat, n: Net, outer: Net, ip: Bytes) {
    && (i < |p.allow| && j < |p.allow| && i != j && p.allow[i] == n && p.allow[j] == outer ==>
          (Permits(p.(allow := Without(p.allow, i)), ip) <==> Permits(p, ip)))
    && (i < |p.block| && j < |p.block| && i != j && p.block[i] == n && p.block[j] == outer ==>
          (Permits(p.(block := Without(p.block, i)), ip) <==> Permits(p, ip)))
  }

  /** No policy permits any address of the network. */
  ghost predicate AlwaysDenied(n: Net) {
    forall x :: Contains(n, x) ==> Hits(ALWAYS_BLOCKED, x)
  }

  lemma ContainedDropsQuietly(p: Policy, i: nat, j: nat, n: Net, outer: Net, ip: Bytes)
    requires Contains(n, ip) ==> Contains(outer, ip) || Hits(ALWAYS_BLOCKED, ip)
    ensures DropsQuietly(p, i, j, n, outer, ip)
  {
    VerdictFormula(p, ip);
    if i < |p.allow| && j < |p.allow| && i != j && p.allow[i] == n && p.allow[j] == outer {
      DropFromList(p.allow, i, j, ip);
      VerdictFormula(p.(allow := Without(p.allow, i)), ip);
    }
    if i < |p.block| && j < |p.block| && i != j && p.block[i] == n && p.block[j] == outer {
      DropFromList(p.block, i, j, ip);
      VerdictFormula(p.(block := Without(p.block, i)), ip);
    }
  }

  lemma DropFromList(list: seq<Net>, i: nat, j: nat, ip: Bytes)
    requires i < |list| && j < |list| && i != j
    requires Contains(list[i], ip) ==> Contains(list[j], ip) || Hits(ALWAYS_BLOCKED, ip)
    ensures Hits(ALWAYS_BLOCKED, ip) || (Hits(Without(list, i), ip) <==> Hits(list, ip))
  {
    if !Hits(ALWAYS_BLOCKED, ip) {
      NestedHitIsRedundant(list, i, j, ip);
    }
  }

  /** Dropping from a list a network nested in another one of that list changes no decision, within one family. */
  lemma NestedEntryIsRedundant(p: Policy, a: Bytes, q: nat, b: Bytes, r: nat, i: nat, j: nat, ip: Bytes)
    requires Nested(a, q, b, r)
    requires SameFamily(Network(a, q), Network(b, r)) || AlwaysDenied(Network(a, q))
    ensures DropsQuietly(p, i, j, Network(a, q), Network(b, r), ip)
  {
    if SameFamily(Network(a, q), Network(b, r)) {
      NestedByPrefix(a, q, b, r, ip);
    }
    ContainedDropsQuietly(p, i, j, Network(a, q), Network(b, r), ip);
  }

  /** The entry matters: with everything else allowed, blocking only the outer network lets `x` through. */
  lemma OtherFamilyMatters(n: Net, outer: Net, x: Bytes)
    requires Contains(n, x) && !Contains(outer, x) && !Hits(ALWAYS_BLOCKED, x)
    ensures !DropsQuietly(Policy(true, [], [outer, n]), 1, 0, n, outer, x)
  {
    var p := Policy(true, [], [outer, n]);
    assert p.block[1] == n && Without(p.block, 1) == [outer];
    assert n in p.block;
    VerdictFormula(p, x);
    VerdictFormula(p.(block := [outer]), x);
  }

  /**
   * Exactly when a nested entry can be dropped from every list that has the outer one, for every
   * address: when both are matched in the same family, or no policy permits the entry's addresses
   * anyway.
   */
  lemma NestedEntryIsRedundantIff(a: Bytes, q: nat, b: Bytes, r: nat)
    requires Nested(a, q, b, r)
    ensures
      var (n, outer) := (Network(a, q), Network(b, r));
      (forall p, i, j, ip :: DropsQuietly(p, i, j, n, outer, ip)) <==> SameFamily(n, outer) || AlwaysDenied(n)
  {
    var n, outer := Network(a, q), Network(b, r);
    if SameFamily(n, outer) || AlwaysDenied(n) {
      forall p, i: nat, j: nat, ip ensures DropsQuietly(p, i, j, n, outer, ip) {
        NestedEntryIsRedundant(p, a, q, b, r, i, j, ip);
      }
    } else {
      var x :| Contains(n, x) && !Hits(ALWAYS_BLOCKED, x);
      NetworkParts(a, q);
      NetworkParts(b, r);
      ContainsByPrefix(a, q, x);
      ContainsByPrefix(b, r, x);
      OtherFamilyMatters(n, outer, x);
    }
  }

  const ANY_V6 := Network(ZEROS, 0)
  const MAPPED_TEN := Network(MAPPED + [10, 0, 0, 0], 104)

  /**
   * In the list "::/0,::ffff:10.0.0.0/104" the second network is nested in the first, and yet
   * 10.0.0.0/8 can be reached only as long as it stays in the list.
   */
  lemma MappedEntryMatters(x: Bytes)
    requires |x| == 4 && x[0] == 10
    ensures Nested(MAPPED + [10, 0, 0, 0], 104, ZEROS, 0)
    ensures !DropsQuietly(Policy(false, [ANY_V6, MAPPED_TEN], []), 1, 0, MAPPED_TEN, ANY_V6, x)
  {
    TenNetwork(MAPPED + [10, 0, 0, 0], x);
    assert ZEROS[10] != MAPPED[10];
    TellsApart(ZEROS, 10, 0);
    OtherLengthMisses(ZEROS, 0, x);
    ZeroPrefixMatches(ZEROS, MAPPED + [10, 0, 0, 0]);
    TenIsPrivate(x);
    OnlyAllowedByEntry(MAPPED_TEN, ANY_V6, x);
  }

  lemma TenNetwork(ten: Bytes, x: Bytes)
    requires ten == MAPPED + [10, 0, 0, 0] && |x| == 4
    ensures Contains(Network(ten, 104), x) <==> x[0] == 10
  {
    var tail: Bytes := [10, 0, 0, 0];
    assert ten[..12] == MAPPED && ten[12..] == tail;
    ContainsByPrefix(ten, 104, x);
    WholeBytes(tail, x, 1);
    assert tail[..1] == [10] && x[..1] == [x[0]];
  }

  lemma OnlyAllowedByEntry(n: Net, outer: Net, x: Bytes)
    requires Contains(n, x) && !Contains(outer, x) && IsPrivate(x) && !Hits(ALWAYS_BLOCKED, x)
    ensures !DropsQuietly(Policy(false, [outer, n], []), 1, 0, n, outer, x)
  {
    var p := Policy(false, [outer, n], []);
    assert p.allow[1] == n && Without(p.allow, 1) == [outer];
    assert n in p.allow;
    VerdictFormula(p, x);
    VerdictFormula(p.(allow := [outer]), x);
  }

  lemma ZeroPrefixMatches(a: Bytes, b: Bytes)
    requires |a| == |b|
    ensures Match(a, b, Mask(0, |a|))
  {
    SmallPowers();
  }

  lemma TenIsPrivate(x: Bytes)
    requires |x| == 4 && x[0] == 10
    ensures IsPrivate(x) && !Hits(ALWAYS_BLOCKED, x)
  {
    BlockedFourBytes(x);
  }

  // ------------------------------------------------------------------------------------------
  // Networks of whole bytes

  /** A prefix of `k` whole bytes compares those and zeroes the others. */
  lemma WholeBytes(a: Bytes, x: Bytes, k: nat)
    requires |a| == |x| && k <= |a|
    ensures Match(a, x, Mask(8 * k, |a|)) <==> a[..k] == x[..k]
    ensures forall i :: 0 <= i < |a| ==> Masked(a, Mask(8 * k, |a|))[i] == if i < k then a[i] else 0
  {
    forall i | 0 <= i < |a|
      ensures AndByte(a[i], Mask(8 * k, |a|)[i]) == if i < k then a[i] else 0
      ensures AndByte(x[i], Mask(8 * k, |a|)[i]) == if i < k then x[i] else 0
    {
      SmallPowers();
      KeepsByte(a[i]);
      KeepsByte(x[i]);
    }
    if a[..k] == x[..k] {
      assert forall i :: 0 <= i < k ==> a[i] == a[..k][i] == x[..k][i] == x[i];
    }
  }

  lemma WholeByteNet(a: Bytes, k: nat, x: Bytes)
    requires IsAddress(a) && !IsMapped(a, 8 * k) && |x| == |a| && k <= |a| && Canonical(x) == x
    ensures Contains(Network(a, 8 * k), x) <==> a[..k] == x[..k]
  {
    ContainsByPrefix(a, 8 * k, x);
    WholeBytes(a, x, k);
  }

  lemma OtherLengthMisses(a: Bytes, ones: nat, x: Bytes)
    requires IsAddress(a) && |Base(a, ones)| != |Canonical(x)|
    ensures !Contains(Network(a, ones), x)
  {
    ContainsByPrefix(a, ones, x);
  }

  lemma HitsOfSix(a: Net, b: Net, c: Net, d: Net, e: Net, f: Net, x: Bytes)
    ensures Hits([a, b, c, d, e, f], x) <==>
      Contains(a, x) || Contains(b, x) || Contains(c, x) || Contains(d, x) || Contains(e, x) || Contains(f, x)
  {
    var list := [a, b, c, d, e, f];
    assert list[0] in list && list[1] in list && list[2] in list && list[3] in list && list[4] in list && list[5] in list;
  }

  /** Not mapped: one of the first twelve bytes tells. */
  lemma TellsApart(a: Bytes, k: nat, ones: nat)
    requires |a| == 16 && k < 12 && a[k] != MAPPED[k]
    ensures !IsMapped(a, ones)
  {
    assert a[..12][k] == a[k];
  }

  // ------------------------------------------------------------------------------------------
  // Both spellings of an address

  lemma CanonicalTwice(ip: Bytes)
    ensures Canonical(Canonical(ip)) == Canonical(ip)
  {
  }

  lemma {:induction false} SameFirstMatch(list: seq<Net>, ip: Bytes)
    ensures FirstMatch(list, ip) == FirstMatch(list, Canonical(ip))
  {
    CanonicalTwice(ip);
    if list != [] {
      SameFirstMatch(list[1..], ip);
    }
  }

  /** The verdict is about the address, not its spelling: 4 bytes or the 16 bytes the library parses. */
  lemma SpellingIsIrrelevant(p: Policy, ip: Bytes)
    ensures Judge(p, ip) == Judge(p, Canonical(ip))
  {
    CanonicalTwice(ip);
    SameFirstMatch(ALWAYS_BLOCKED, ip);
    SameFirstMatch(p.block, ip);
    SameFirstMatch(p.allow, ip);
  }

  /** The 16 bytes the library parses "a.b.c.d" to. */
  function LongForm(a: Byte, b: Byte, c: Byte, d: Byte): Bytes {
    [0, 0, 0, 0, 0, 0, 0, 0, 0, 0, 255, 255, a, b, c, d]
  }

  lemma LongFormIsV4(a: Byte, b: Byte, c: Byte, d: Byte)
    ensures Canonical(LongForm(a, b, c, d)) == [a, b, c, d]
  {
    var long := LongForm(a, b, c, d);
    assert long[..12] == MAPPED && long[12..] == [a, b, c, d];
  }

  /** The same, byte for byte. */
  lemma LongFormIsIrrelevant(p: Policy, a: Byte, b: Byte, c: Byte, d: Byte)
    ensures Judge(p, [0, 0, 0, 0, 0, 0, 0, 0, 0, 0, 255, 255, a, b, c, d]) == Judge(p, [a, b, c, d])
  {
    LongFormIsV4(a, b, c, d);
    SpellingIsIrrelevant(p, LongForm(a, b, c, d));
  }

  /** Sixteen bytes that are not the long form of an IPv4 address. */
  predicate IsV6(x: Bytes) {
    |x| == 16 && x[..12] != [0, 0, 0, 0, 0, 0, 0, 0, 0, 0, 255, 255]
  }

  lemma V6IsCanonical(x: Bytes)
    requires IsV6(x)
    ensures Canonical(x) == x
  {
    assert MAPPED == [0, 0, 0, 0, 0, 0, 0, 0, 0, 0, 255, 255];
  }

  lemma SameHits(list: seq<Net>, ip: Bytes)
    ensures Hits(list, ip) <==> Hits(list, Canonical(ip))
  {
    FirstMatchIsHit(list, ip);
    FirstMatchIsHit(list, Canonical(ip));
    SameFirstMatch(list, ip);
  }

  // ------------------------------------------------------------------------------------------
  // The always-blocked addresses

  predicate AlwaysBlockedBytes(x: Bytes)
    requires |x| == 4
  {
    (x[0] == 169 && x[1] == 254) || x == [0, 0, 0, 0]
  }

  lemma MetadataV4(x: Bytes)
    requires |x| == 4
    ensures Contains(METADATA, x) <==> x == [169, 254, 169, 254]
  {
    WholeByteNet([169, 254, 169, 254], 4, x);
    assert x[..4] == x;
  }

  lemma LinkLocalV4(x: Bytes)
    requires |x| == 4
    ensures Contains(LINK_LOCAL, x) <==> x[0] == 169 && x[1] == 254
  {
    TwoByteNet([169, 254, 0, 0], x);
  }

  lemma TwoByteNet(a: Bytes, x: Bytes)
    requires |a| == |x| == 4
    ensures Contains(Network(a, 16), x) <==> x[0] == a[0] && x[1] == a[1]
  {
    WholeByteNet(a, 2, x);
    assert a[..2] == [a[0], a[1]] && x[..2] == [x[0], x[1]];
  }

  lemma UnspecifiedV4(x: Bytes)
    requires |x| == 4
    ensures Contains(UNSPECIFIED, x) <==> x == [0, 0, 0, 0]
  {
    WholeByteNet([0, 0, 0, 0], 4, x);
    assert x[..4] == x;
  }

  lemma V6NetsMissV4(x: Bytes)
    requires |x| == 4
    ensures !Contains(METADATA_V6, x) && !Contains(LINK_LOCAL_V6, x) && !Contains(UNSPECIFIED_V6, x)
  {
    TellsApart(IMDS_V6, 0, 128);
    TellsApart(FE80, 0, 10);
    TellsApart(ZEROS, 10, 128);
    OtherLengthMisses(IMDS_V6, 128, x);
    OtherLengthMisses(FE80, 10, x);
    OtherLengthMisses(ZEROS, 128, x);
  }

  lemma BlockedFourBytes(x: Bytes)
    requires |x| == 4
    ensures Hits(ALWAYS_BLOCKED, x) <==> AlwaysBlockedBytes(x)
  {
    MetadataV4(x);
    LinkLocalV4(x);
    UnspecifiedV4(x);
    V6NetsMissV4(x);
    HitsOfSix(METADATA, METADATA_V6, LINK_LOCAL, LINK_LOCAL_V6, UNSPECIFIED_V6, UNSPECIFIED, x);
  }

  /** The IPv4 addresses no policy permits, in either spelling: 169.254.0.0/16 and 0.0.0.0. */
  lemma AlwaysBlockedV4(p: Policy, a: Byte, b: Byte, c: Byte, d: Byte)
    ensures
      (a == 169 && b == 254) || a == b == c == d == 0 ==>
        !Permits(p, [a, b, c, d]) && !Permits(p, [0, 0, 0, 0, 0, 0, 0, 0, 0, 0, 255, 255, a, b, c, d])
    ensures Judge(p, [a, b, c, d]).AlwaysBlocked? <==> (a == 169 && b == 254) || a == b == c == d == 0
  {
    BlockedVerdict(p, [a, b, c, d]);
    LongFormIsIrrelevant(p, a, b, c, d);
  }

  lemma BlockedVerdict(p: Policy, x: Bytes)
    requires |x| == 4
    ensures Judge(p, x).AlwaysBlocked? <==> AlwaysBlockedBytes(x)
  {
    BlockedFourBytes(x);
    FirstMatchIsHit(ALWAYS_BLOCKED, x);
  }

  lemma V4NetsMissV6(x: Bytes)
    requires |x| == 16 && Canonical(x) == x
    ensures !Contains(METADATA, x) && !Contains(LINK_LOCAL, x) && !Contains(UNSPECIFIED, x)
  {
    OtherLengthMisses([169, 254, 169, 254], 32, x);
    OtherLengthMisses([169, 254, 0, 0], 16, x);
    OtherLengthMisses([0, 0, 0, 0], 32, x);
  }

  lemma WholeV6(a: Bytes, x: Bytes)
    requires |a| == |x| == 16 && !IsMapped(a, 128) && Canonical(x) == x
    ensures Contains(Network(a, 128), x) <==> x == a
  {
    WholeByteNet(a, 16, x);
    assert a[..16] == a && x[..16] == x;
  }

  /** One whole byte and the two top bits of the next. */
  lemma TenBits(a: Bytes, x: Bytes)
    requires |a| == |x| == 16
    ensures Match(a, x, Mask(10, 16)) <==> a[0] == x[0] && AndByte(a[1], 0xc0) == AndByte(x[1], 0xc0)
  {
    var m := Mask(10, 16);
    SmallPowers();
    KeepsByte(a[0]);
    KeepsByte(x[0]);
    assert m[0] == 255 && m[1] == 0xc0;
    assert forall i :: 2 <= i < 16 ==> m[i] == 0;
  }

  lemma TenBitNet(a: Bytes, x: Bytes)
    requires |a| == |x| == 16 && !IsMapped(a, 10) && Canonical(x) == x && a[1] == 0x80
    ensures Contains(Network(a, 10), x) <==> a[0] == x[0] && 0x80 <= x[1] < 0xc0
  {
    ContainsByPrefix(a, 10, x);
    TenBits(a, x);
    TopTwoAre(a[1], x[1]);
  }

  lemma TopTwoAre(a: Byte, b: Byte)
    requires a == 0x80
    ensures AndByte(a, 0xc0) == AndByte(b, 0xc0) <==> 0x80 <= b < 0xc0
    ensures And(b, 0xc0) == 0x80 <==> 0x80 <= b < 0xc0
  {
    SmallPowers();
    MaskedByte(a, 2, 0xc0, 64);
    MaskedByte(b, 2, 0xc0, 64);
  }

  lemma LinkLocalV6(x: Bytes)
    requires |x| == 16 && Canonical(x) == x
    ensures Contains(LINK_LOCAL_V6, x) <==> x[0] == 0xfe && 0x80 <= x[1] < 0xc0
  {
    TellsApart(FE80, 0, 10);
    TenBitNet(FE80, x);
  }

  predicate AlwaysBlockedSixteen(x: Bytes)
    requires |x| == 16
  {
    || x == [0, 0, 0, 0, 0, 0, 0, 0, 0, 0, 0, 0, 0, 0, 0, 0]
    || x == [0xfd, 0x00, 0x0e, 0xc2, 0, 0, 0, 0, 0, 0, 0, 0, 0, 0, 0x02, 0x54]
    || (x[0] == 0xfe && 0x80 <= x[1] < 0xc0)
  }

  /** The IPv6 addresses no policy permits. */
  lemma AlwaysBlockedV6(x: Bytes)
    requires IsV6(x)
    ensures Hits(ALWAYS_BLOCKED, x) <==> AlwaysBlockedSixteen(x)
  {
    V6IsCanonical(x);
    V4NetsMissV6(x);
    TellsApart(IMDS_V6, 0, 128);
    TellsApart(ZEROS, 10, 128);
    WholeV6(IMDS_V6, x);
    WholeV6(ZEROS, x);
    LinkLocalV6(x);
    HitsOfSix(METADATA, METADATA_V6, LINK_LOCAL, LINK_LOCAL_V6, UNSPECIFIED_V6, UNSPECIFIED, x);
  }

  // ------------------------------------------------------------------------------------------
  // The default policy

  const DEFAULT := Policy(false, [], [])

  predicate InBlock(n: nat, start: nat, size: nat) {
    start <= n < start + size
  }

  /**
   * With no operator lists, the IPv4 addresses an agent may dial, in either spelling, are those
   * outside seven blocks: 0.0.0.0/32, 10.0.0.0/8, 127.0.0.0/8, 169.254.0.0/16, 172.16.0.0/12,
   * 192.168.0.0/16 and 224.0.0.0/24.
   */
  lemma DefaultPolicyV4(a: Byte, b: Byte, c: Byte, d: Byte)
    ensures
      var n := a as int * 0x1000000 + b as int * 0x10000 + c as int * 0x100 + d as int;
      Permits(Policy(false, [], []), [a, b, c, d]) <==>
        !(|| n == 0
          || InBlock(n, 10 * 0x1000000, 0x1000000)
          || InBlock(n, 127 * 0x1000000, 0x1000000)
          || InBlock(n, 169 * 0x1000000 + 254 * 0x10000, 0x10000)
          || InBlock(n, 172 * 0x1000000 + 16 * 0x10000, 0x100000)
          || InBlock(n, 192 * 0x1000000 + 168 * 0x10000, 0x10000)
          || InBlock(n, 224 * 0x1000000, 0x100))
    ensures
      Permits(Policy(false, [], []), [0, 0, 0, 0, 0, 0, 0, 0, 0, 0, 255, 255, a, b, c, d])
      <==> Permits(Policy(false, [], []), [a, b, c, d])
  {
    LongFormIsIrrelevant(DEFAULT, a, b, c, d);
    DefaultVerdict([a, b, c, d]);
    BlocksOfBytes(a, b, c, d);
  }

  lemma DefaultVerdict(x: Bytes)
    requires |x| == 4
    ensures Permits(DEFAULT, x) <==> !DeniedBytes(x[0], x[1], x[2], x[3])
  {
    VerdictFormula(DEFAULT, x);
    BlockedFourBytes(x);
    PrivateFourBytes(x);
  }

  lemma PrivateFourBytes(x: Bytes)
    requires |x| == 4
    ensures IsPrivate(x) <==> DeniedBytes(x[0], x[1], x[2], x[3])
  {
    SixteenToThirtyOne(x[1]);
  }

  predicate DeniedBytes(a: int, b: int, c: int, d: int) {
    || a == b == c == d == 0
    || a == 10 || a == 127 || (a == 169 && b == 254) || (a == 172 && 16 <= b < 32) || (a == 192 && b == 168)
    || (a == 224 && b == 0 && c == 0)
  }

  lemma BlocksOfBytes(a: int, b: int, c: int, d: int)
    requires 0 <= a < 256 && 0 <= b < 256 && 0 <= c < 256 && 0 <= d < 256
    ensures
      var n := a * 0x1000000 + b * 0x10000 + c * 0x100 + d;
      DeniedBytes(a, b, c, d) <==>
        || n == 0
        || InBlock(n, 10 * 0x1000000, 0x1000000)
        || InBlock(n, 127 * 0x1000000, 0x1000000)
        || InBlock(n, 169 * 0x1000000 + 254 * 0x10000, 0x10000)
        || InBlock(n, 172 * 0x1000000 + 16 * 0x10000, 0x100000)
        || InBlock(n, 192 * 0x1000000 + 168 * 0x10000, 0x10000)
        || InBlock(n, 224 * 0x1000000, 0x100)
  {
  }

  lemma SixteenToThirtyOne(b: Byte)
    ensures And(b, 0xf0) == 16 <==> 16 <= b < 32
  {
    SmallPowers();
    MaskedByte(b, 4, 0xf0, 16);
  }

  /** Unspecified and loopback, unique local, link-local, interface-local and link-local multicast. */
  predicate DeniedSixteen(x: Bytes)
    requires |x| == 16
  {
    || x == [0, 0, 0, 0, 0, 0, 0, 0, 0, 0, 0, 0, 0, 0, 0, 0]
    || x == [0, 0, 0, 0, 0, 0, 0, 0, 0, 0, 0, 0, 0, 0, 0, 1]
    || x[0] == 0xfc || x[0] == 0xfd
    || (x[0] == 0xfe && 0x80 <= x[1] < 0xc0)
    || (x[0] == 0xff && x[1] % 16 in {1, 2})
  }

  /** The IPv6 addresses the default policy denies. */
  lemma DefaultPolicyV6(x: Bytes)
    requires IsV6(x)
    ensures Permits(Policy(false, [], []), x) <==> !DeniedSixteen(x)
  {
    V6IsCanonical(x);
    VerdictFormula(DEFAULT, x);
    AlwaysBlockedV6(x);
    PrivateSixteen(x);
  }

  lemma PrivateSixteen(x: Bytes)
    requires |x| == 16 && Canonical(x) == x
    ensures IsPrivate(x) <==> DeniedSixteen(x)
  {
    TopSeven(x[0]);
    TopTwoAre(0x80, x[1]);
    LowNibble(x[1]);
  }

  lemma TopSeven(b: Byte)
    ensures And(b, 0xfe) == 0xfc <==> b == 0xfc || b == 0xfd
  {
    SmallPowers();
    MaskedByte(b, 7, 0xfe, 2);
  }

  lemma LowNibble(b: Byte)
    ensures And(b, 0x0f) == b % 16
  {
    SmallPowers();
    AndKeepsLow(b, 4);
    LowIsModulo(b, 4);
  }

  // ------------------------------------------------------------------------------------------
  // Parsing the lists

  /** The address parsers of the Go library. */
  datatype Library = Library(parseIP: string -> Option<Bytes>, parseCIDR: string -> Option<Net>)

  datatype Parsed = Nets(nets: seq<Net>) | Invalid(token: string)

  predicate ListSep(c: char) {
    c == ',' || c == ' ' || c == '\n' || c == '\t'
  }

  /** A bare address becomes a network of its own. */
  function Completed(lib: Library, token: string): string {
    if '/' in token then token
    else match lib.parseIP(token)
      case None => token
      case Some(ip) => token + (if |Canonical(ip)| == 4 then "/32" else "/128")
  }

  /** What the token of a bare address is completed to; other tokens are parsed as they are. */
  lemma CompletedTo(lib: Library, token: string)
    ensures
      match lib.parseIP(token)
      case Some(ip) =>
        && ('/' in token ==> Completed(lib, token) == token)
        && ('/' !in token && |ip| == 4 ==> Completed(lib, token) == token + "/32")
        && ('/' !in token && |ip| == 16 && ip[..12] == [0, 0, 0, 0, 0, 0, 0, 0, 0, 0, 255, 255] ==>
              Completed(lib, token) == token + "/32")
        && ('/' !in token && IsV6(ip) ==> Completed(lib, token) == token + "/128")
      case None => Completed(lib, token) == token
  {
  }

  /** Commas, spaces, tabs and newlines separate tokens, and nothing else does. */
  lemma SeparatorsAre(s: string, c: char, t: string)
    ensures c == ',' || c == ' ' || c == '\t' || c == '\n' ==>
      Fields(s + [c] + t, ListSep) == Fields(s, ListSep) + Fields(t, ListSep)
    ensures c != ',' && c != ' ' && c != '\t' && c != '\n' && Free(s, ListSep) && Free(t, ListSep) ==>
      Fields(s + [c] + t, ListSep) == [s + [c] + t]
  {
    if ListSep(c) {
      ScanSplit(s, c, t, ListSep, []);
    } else if Free(s, ListSep) && Free(t, ListSep) {
      var whole := s + [c] + t;
      assert Free(whole, ListSep);
      assert whole[..|whole|] == whole && whole[|whole|..] == [];
      ScanField(whole, ListSep, [], |whole|);
      assert [] + whole == whole;
    }
  }

  function ParseToken(lib: Library, token: string): Option<Net> {
    lib.parseCIDR(Completed(lib, token))
  }

  function ParseTokens(lib: Library, tokens: seq<string>): Parsed {
    if tokens == [] then Nets([])
    else match ParseToken(lib, tokens[0])
      case None => Invalid(Completed(lib, tokens[0]))
      case Some(n) =>
        match ParseTokens(lib, tokens[1..])
        case Nets(ns) => Nets([n] + ns)
        case Invalid(t) => Invalid(t)
  }

  /**
   * Exactly when the network made from a bare address contains that address: not for an IPv4
   * address in its 16-byte spelling, because it is completed with "/32", which the library then
   * reads as 32 bits of 128.
   */
  lemma BareAddressIsInItsNetworkIff(ip: Bytes)
    requires IsAddress(ip)
    ensures Contains(Network(ip, if |Canonical(ip)| == 4 then 32 else 128), ip) <==> |Canonical(ip)| == |ip|
  {
    if |Canonical(ip)| == |ip| {
      WholeBytes(ip, ip, |ip|);
      assert Masked(ip, Mask(8 * |ip|, |ip|)) == ip;
    } else {
      WholeBytes(ip, ip, 4);
      var masked := Masked(ip, Mask(32, 16));
      assert masked[..12][10] == masked[10] == 0;
      assert Canonical(masked) == masked;
    }
  }

  /** Appends one network per token and gives up at the first token that is not one. */
  method ParseCidrs(lib: Library, list: string) returns (r: Parsed)
    ensures r == ParseTokens(lib, Fields(list, ListSep))
  {
    var tokens := Fields(list, ListSep);
    var out: seq<Net> := [];
    for i := 0 to |tokens|
      invariant forall j :: 0 <= j < i ==> ParseToken(lib, tokens[j]).Some?
      invariant ParseTokens(lib, tokens) == Prepend(out, ParseTokens(lib, tokens[i..]))
    {
      var token := tokens[i];
      if '/' !in token {
        var ip := lib.parseIP(token);
        if ip.Some? {
          token := token + (if |Canonical(ip.value)| == 4 then "/32" else "/128");
        }
      }
      assert token == Completed(lib, tokens[i]);
      ParseAt(lib, tokens, i);
      var n := lib.parseCIDR(token);
      if n.None? {
        return Invalid(token);
      }
      PrependTwice(out, n.value, ParseTokens(lib, tokens[i + 1..]));
      out := out + [n.value];
    }
    return Nets(out);
  }

  lemma ParseAt(lib: Library, tokens: seq<string>, i: nat)
    requires i < |tokens|
    ensures ParseTokens(lib, tokens[i..]) ==
      match ParseToken(lib, tokens[i])
      case None => Invalid(Completed(lib, tokens[i]))
      case Some(n) => Prepend([n], ParseTokens(lib, tokens[i + 1..]))
  {
    assert tokens[i..][0] == tokens[i] && tokens[i..][1..] == tokens[i + 1..];
  }

  function Prepend(ns: seq<Net>, p: Parsed): Parsed {
    if p.Nets? then Nets(ns + p.nets) else p
  }

  lemma PrependTwice(ns: seq<Net>, n: Net, p: Parsed)
    ensures Prepend(ns, Prepend([n], p)) == Prepend(ns + [n], p)
  {
    if p.Nets? {
      assert ns + ([n] + p.nets) == ns + [n] + p.nets;
    }
  }

  /** Parsing succeeds iff every token is a network, and then delivers them in order. */
  lemma {:induction false} ParsesIffEveryTokenDoes(lib: Library, tokens: seq<string>)
    ensures ParseTokens(lib, tokens).Nets? <==> forall i :: 0 <= i < |tokens| ==> ParseToken(lib, tokens[i]).Some?
    ensures
      var r := ParseTokens(lib, tokens);
      r.Nets? ==> |r.nets| == |tokens| && forall i :: 0 <= i < |tokens| ==> ParseToken(lib, tokens[i]) == Some(r.nets[i])
  {
    if tokens != [] {
      ParsesIffEveryTokenDoes(lib, tokens[1..]);
      var r := ParseTokens(lib, tokens);
      assert forall i :: 0 < i < |tokens| ==> tokens[i] == tokens[1..][i - 1];
      assert r.Nets? ==> r.nets[1..] == ParseTokens(lib, tokens[1..]).nets;
      assert ParseTokens(lib, tokens[1..]).Invalid? ==> exists i :: 0 <= i < |tokens[1..]| && ParseToken(lib, tokens[1..][i]).None?;
    }
  }
}
