/** Enumerating the hosts of a network (internal/dashboard/scanner.go): section 3.1 of RFC 4632
    on byte arrays. */
module Cidr {
  import opened Base

  type Bytes = seq<bv8>

  const MAX_HOST_BITS := 16

  /** An address as a number, most significant byte first. */
  function Value(ip: Bytes): nat {
    if ip == [] then 0 else 256 * Value(ip[..|ip| - 1]) + ip[|ip| - 1] as int
  }

  function Pow256(n: nat): (p: nat)
    ensures p >= 1
  {
    if n == 0 then 1 else 256 * Pow256(n - 1)
  }

  lemma {:induction false} ValueBound(ip: Bytes)
    ensures Value(ip) < Pow256(|ip|)
    decreases |ip|
  {
    if ip != [] {
      ValueBound(ip[..|ip| - 1]);
    }
  }

  lemma LastDigit(ip: Bytes)
    requires ip != []
    ensures Value(ip) == 256 * Value(ip[..|ip| - 1]) + ip[|ip| - 1] as int
  {
  }

  lemma SameDigits(p: nat, x: bv8, q: nat, y: bv8)
    requires 256 * p + x as int == 256 * q + y as int
    ensures p == q && x == y
  {
    assert x as int < 256 && y as int < 256;
  }

  /** Addresses of one length are told apart by their numbers. */
  lemma {:induction false} ValueInjective(a: Bytes, b: Bytes)
    requires |a| == |b| && Value(a) == Value(b)
    ensures a == b
    decreases |a|
  {
    if a != [] {
      var n := |a| - 1;
      LastDigit(a);
      LastDigit(b);
      hide Value;
      SameDigits(Value(a[..n]), a[n], Value(b[..n]), b[n]);
      ValueInjective(a[..n], b[..n]);
      assert a == a[..n] + [a[n]] && b == b[..n] + [b[n]];
    }
  }

  // ---------------------------------------------------------------- increment

  function Incremented(ip: Bytes): (r: Bytes)
    ensures |r| == |ip|
    decreases |ip|
  {
    if ip == [] then []
    else
      var n := |ip| - 1;
      if ip[n] + 1 != 0 then ip[..n] + [ip[n] + 1] else Incremented(ip[..n]) + [0]
  }

  /** The carry runs through the whole address: one more, modulo 256 to its length. */
  lemma {:induction false} IncrementedValue(ip: Bytes)
    ensures Value(Incremented(ip)) == (Value(ip) + 1) % Pow256(|ip|)
    decreases |ip|
  {
    ValueBound(ip);
    if ip != [] {
      var n := |ip| - 1;
      var next := Incremented(ip);
      if ip[n] + 1 != 0 {
        assert next[..n] == ip[..n];
        assert (ip[n] + 1) as int == ip[n] as int + 1;
        assert Value(next) == Value(ip) + 1;
        ValueBound(next);
        SmallMod(Value(ip) + 1, Pow256(|ip|));
      } else {
        assert ip[n] == 255;
        assert next[..n] == Incremented(ip[..n]);
        IncrementedValue(ip[..n]);
        ValueBound(ip[..n]);
        CarryOut(Value(ip[..n]) + 1, Pow256(n));
      }
    }
  }

  lemma CarryOut(v: nat, p: nat)
    requires v <= p && p > 0
    ensures 256 * (v % p) == (256 * v) % (256 * p)
  {
    if v < p {
      SmallMod(v, p);
      SmallMod(256 * v, 256 * p);
    } else {
      SelfMod(p);
      SelfMod(256 * p);
    }
  }

  lemma SelfMod(p: nat)
    requires p > 0
    ensures p % p == 0
  {
  }

  lemma SmallMod(v: nat, p: nat)
    requires v < p
    ensures v % p == v
  {
  }

  method IncrementIP(ip: array<bv8>)
    modifies ip
    ensures ip[..] == Incremented(old(ip[..]))
  {
    ghost var was := ip[..];
    var i := ip.Length - 1;
    assert was[..i + 1] == was;
    while i >= 0
      invariant -1 <= i < ip.Length
      invariant ip[..i + 1] == was[..i + 1]
      invariant Incremented(was) == Incremented(was[..i + 1]) + ip[i + 1..]
      decreases i
    {
      ghost var prefix := was[..i + 1];
      assert prefix[..i] == was[..i];
      ip[i] := ip[i] + 1;
      if ip[i] != 0 {
        assert ip[..] == was[..i] + [ip[i]] + ip[i + 1..];
        return;
      }
      assert ip[i..] == [0] + ip[i + 1..];
      i := i - 1;
    }
    assert ip[..] == ip[i + 1..];
  }

  // ---------------------------------------------------------------- masks

  /** The byte whose first k bits are set. */
  function MaskByte(k: int): bv8 {
    if k <= 0 then 0x00 else if k == 1 then 0x80 else if k == 2 then 0xC0 else if k == 3 then 0xE0
    else if k == 4 then 0xF0 else if k == 5 then 0xF8 else if k == 6 then 0xFC else if k == 7 then 0xFE else 0xFF
  }

  // A network as net.ParseCIDR returns it: ip has no bits outside the mask's ones first bits.
  datatype IPNet = IPNet(ip: Bytes, mask: Bytes)

  ghost predicate Canonical(net: IPNet, ones: nat) {
    && |net.ip| == |net.mask| && ones <= 8 * |net.ip|
    && forall i :: 0 <= i < |net.ip| ==> net.mask[i] == MaskByte(ones - 8 * i) && net.ip[i] & net.mask[i] == net.ip[i]
  }

  predicate Contains(net: IPNet, ip: Bytes)
    requires |net.ip| == |net.mask|
  {
    |ip| == |net.ip| && forall i :: 0 <= i < |ip| ==> net.ip[i] & net.mask[i] == ip[i] & net.mask[i]
  }

  function BroadcastOf(net: IPNet): Bytes
    requires |net.ip| == |net.mask|
  {
    seq(|net.ip|, i requires 0 <= i < |net.ip| => net.ip[i] | !net.mask[i])
  }

  method BroadcastAddr(net: IPNet) returns (broadcast: array<bv8>)
    requires |net.ip| == |net.mask|
    ensures fresh(broadcast) && broadcast[..] == BroadcastOf(net)
  {
    broadcast := new bv8[|net.ip|];
    for i := 0 to |net.ip|
      invariant forall j :: 0 <= j < i ==> broadcast[j] == net.ip[j] | !net.mask[j]
    {
      broadcast[i] := net.ip[i] | !net.mask[i];
    }
  }

  // ---------------------------------------------------------------- masks as numbers

  /** How many byte values share their first k bits. */
  function Width(k: int): int {
    if k <= 0 then 256 else if k == 1 then 128 else if k == 2 then 64 else if k == 3 then 32
    else if k == 4 then 16 else if k == 5 then 8 else if k == 6 then 4 else if k == 7 then 2 else 1
  }

  lemma ByteInjective(x: bv8, y: bv8)
    requires x as int == y as int
    ensures x == y
  {
  }

  predicate MasksAs(a: bv8, m: bv8, w: int)
    requires w > 0
  {
    (a & m) as int == w * (a as int / w) && (a | !m) as int == (a & m) as int + w - 1
  }

  lemma Mask1(a: bv8)
    ensures MasksAs(a, 0x80, 128)
  {
    assert (a & 0x80) as int + (a & 0x7F) as int == a as int;
    assert (a & 0x7F) as int < 128;
    assert (a & 0x80) as int == 128 * ((a >> 7) as int);
  }

  lemma Mask2(a: bv8)
    ensures MasksAs(a, 0xC0, 64)
  {
    assert (a & 0xC0) as int + (a & 0x3F) as int == a as int;
    assert (a & 0x3F) as int < 64;
    assert (a & 0xC0) as int == 64 * ((a >> 6) as int);
  }

  lemma Mask3(a: bv8)
    ensures MasksAs(a, 0xE0, 32)
  {
    assert (a & 0xE0) as int + (a & 0x1F) as int == a as int;
    assert (a & 0x1F) as int < 32;
    assert (a & 0xE0) as int == 32 * ((a >> 5) as int);
  }

  lemma Mask4(a: bv8)
    ensures MasksAs(a, 0xF0, 16)
  {
    assert (a & 0xF0) as int + (a & 0x0F) as int == a as int;
    assert (a & 0x0F) as int < 16;
    assert (a & 0xF0) as int == 16 * ((a >> 4) as int);
  }

  lemma Mask5(a: bv8)
    ensures MasksAs(a, 0xF8, 8)
  {
    assert (a & 0xF8) as int + (a & 0x07) as int == a as int;
    assert (a & 0x07) as int < 8;
    assert (a & 0xF8) as int == 8 * ((a >> 3) as int);
  }

  lemma Mask6(a: bv8)
    ensures MasksAs(a, 0xFC, 4)
  {
    assert (a & 0xFC) as int + (a & 0x03) as int == a as int;
    assert (a & 0x03) as int < 4;
    assert (a & 0xFC) as int == 4 * ((a >> 2) as int);
  }

  lemma Mask7(a: bv8)
    ensures MasksAs(a, 0xFE, 2)
  {
    assert (a & 0xFE) as int + (a & 0x01) as int == a as int;
    assert (a & 0x01) as int < 2;
    assert (a & 0xFE) as int == 2 * ((a >> 1) as int);
  }

  lemma MaskAll(a: bv8)
    ensures MasksAs(a, 0x00, 256) && MasksAs(a, 0xFF, 1)
  {
    assert a & 0x00 == 0 && a & 0xFF == a && (a | !0x00) == 255 && (a | !0xFF) == a;
    assert a as int / 256 == 0;
  }

  /** Masking a byte rounds it down to its block; setting the rest ends the block. */
  lemma MaskedByte(a: bv8, k: int)
    ensures MasksAs(a, MaskByte(k), Width(k))
  {
    hide MasksAs;
    if k <= 0 { MaskAll(a); } else if k == 1 { Mask1(a); } else if k == 2 { Mask2(a); } else if k == 3 { Mask3(a); }
    else if k == 4 { Mask4(a); } else if k == 5 { Mask5(a); } else if k == 6 { Mask6(a); } else if k == 7 { Mask7(a); }
    else { MaskAll(a); }
  }

  lemma MaskRounds(a: bv8, k: int)
    ensures Width(k) > 0 && (a & MaskByte(k)) as int == Width(k) * (a as int / Width(k))
  {
    MaskedByte(a, k);
    hide MaskByte;
  }

  predicate SameBits(a: bv8, b: bv8, k: int) {
    a & MaskByte(k) == b & MaskByte(k)
  }

  lemma SameBlock(a: bv8, b: bv8, k: int)
    ensures SameBits(a, b, k) <==> a as int / Width(k) == b as int / Width(k)
  {
    MaskRounds(a, k);
    MaskRounds(b, k);
    var am, bm, w := a & MaskByte(k), b & MaskByte(k), Width(k);
    var x, y := a as int / w, b as int / w;
    assert SameBits(a, b, k) <==> am == bm;
    hide MaskByte, Width, SameBits;
    SameRounding(am, bm, w, x, y);
  }

  lemma SameRounding(am: bv8, bm: bv8, w: int, x: int, y: int)
    requires w > 0 && am as int == w * x && bm as int == w * y
    ensures am == bm <==> x == y
  {
    if am == bm {
      Cancel(w, x, y);
    }
    if x == y {
      ByteInjective(am, bm);
    }
  }

  lemma Cancel(w: int, x: int, y: int)
    requires w > 0 && w * x == w * y
    ensures x == y
  {
  }

  // ---------------------------------------------------------------- networks as numbers

  predicate Agree(a: Bytes, b: Bytes, ones: int) {
    |a| == |b| && forall i :: 0 <= i < |a| ==> SameBits(a[i], b[i], ones - 8 * i)
  }

  function HostBits(n: nat, ones: int): nat {
    if 8 * n <= ones then 0 else 8 * n - ones
  }

  lemma AgreeSplit(a: Bytes, b: Bytes, ones: int)
    requires |a| == |b| > 0
    ensures var n := |a| - 1;
      Agree(a, b, ones) <==> Agree(a[..n], b[..n], ones) && SameBits(a[n], b[n], ones - 8 * n)
  {
    hide SameBits;
    var n := |a| - 1;
    if Agree(a, b, ones) {
      assert forall i :: 0 <= i < n ==> SameBits(a[i], b[i], ones - 8 * i);
    }
    if Agree(a[..n], b[..n], ones) && SameBits(a[n], b[n], ones - 8 * n) {
      forall i | 0 <= i < |a| ensures SameBits(a[i], b[i], ones - 8 * i) {
        if i < n { assert SameBits(a[..n][i], b[..n][i], ones - 8 * i); }
      }
    }
  }

  lemma DropByte(p: nat, x: nat, w: nat)
    requires x < 256 && w > 0
    ensures (256 * p + x) / (256 * w) == p / w
  {
    var q, r := p / w, p % w;
    assert 256 * p + x == 256 * (w * q + r) + x;
    Quotient(256 * p + x, 256 * w, q, 256 * r + x);
  }

  lemma Quotient(a: int, d: int, q: int, r: int)
    requires d > 0 && a == d * q + r && 0 <= r < d
    ensures a / d == q
  {
    assert a == d * (a / d) + a % d;
    NoMultipleBetween(q - a / d, d);
  }

  lemma NoMultipleBetween(x: int, d: int)
    requires d > 0
    ensures -d < d * x < d ==> x == 0
  {
  }

  /** Agreeing on the first bits is being in the same block of addresses. */
  lemma {:induction false} AgreeByValue(a: Bytes, b: Bytes, ones: int)
    requires |a| == |b|
    ensures Agree(a, b, ones) <==>
      Value(a) / Pow2(HostBits(|a|, ones)) == Value(b) / Pow2(HostBits(|a|, ones))
    decreases |a|
  {
    if a != [] {
      var n := |a| - 1;
      AgreeSplit(a, b, ones);
      SameBlock(a[n], b[n], ones - 8 * n);
      AgreeByValue(a[..n], b[..n], ones);
      SameQuotient(Value(a[..n]), a[n] as int, Value(b[..n]), b[n] as int, n, ones);
    }
  }

  /** The quotient by the block size, in terms of all but the last byte and the last byte. */
  lemma SameQuotient(p: nat, x: int, q: nat, y: int, n: nat, ones: int)
    requires 0 <= x < 256 && 0 <= y < 256
    ensures var w, h := Pow2(HostBits(n, ones)), Pow2(HostBits(n + 1, ones));
      var k := ones - 8 * n;
      p / w == q / w && x / Width(k) == y / Width(k) <==> (256 * p + x) / h == (256 * q + y) / h
  {
    var k := ones - 8 * n;
    WidthDivides(k);
    if k > 0 {
      WidthIsPow2(k);
      assert Pow2(HostBits(n, ones)) == 1 && Pow2(HostBits(n + 1, ones)) == Width(k);
    }
    hide Width, Pow2;
    if k <= 0 {
      Pow2Byte(HostBits(n, ones));
      DropByte(p, x, Pow2(HostBits(n, ones)));
      DropByte(q, y, Pow2(HostBits(n, ones)));
    } else {
      MixedBlock(p, x, q, y, Width(k), 256 / Width(k));
    }
  }

  lemma Pow2Byte(h: nat)
    ensures Pow2(h + 8) == 256 * Pow2(h)
  {
    assert Pow2(h + 1) == 2 * Pow2(h);
    assert Pow2(h + 2) == 2 * Pow2(h + 1) && Pow2(h + 3) == 2 * Pow2(h + 2) && Pow2(h + 4) == 2 * Pow2(h + 3);
    assert Pow2(h + 5) == 2 * Pow2(h + 4) && Pow2(h + 6) == 2 * Pow2(h + 5) && Pow2(h + 7) == 2 * Pow2(h + 6);
  }

  lemma WidthIsPow2(k: int)
    requires k > 0
    ensures Width(k) == Pow2(if k >= 8 then 0 else 8 - k)
  {
    assert Pow2(1) == 2 && Pow2(2) == 4 && Pow2(3) == 8;
    assert Pow2(4) == 16 && Pow2(5) == 32 && Pow2(6) == 64 && Pow2(7) == 128;
  }

  lemma WidthDivides(k: int)
    ensures Width(k) * (256 / Width(k)) == 256
    ensures k <= 0 ==> forall x :: 0 <= x < 256 ==> x / Width(k) == 0
  {
  }

  lemma MixedBlock(p: nat, x: int, q: nat, y: int, w: int, c: int)
    requires w > 0 && w * c == 256 && 0 <= x < 256 && 0 <= y < 256
    ensures p == q && x / w == y / w <==> (256 * p + x) / w == (256 * q + y) / w
  {
    MixedQuotient(p, x, w, c);
    MixedQuotient(q, y, w, c);
    if c * p + x / w == c * q + y / w {
      Quotient(c * p + x / w, c, p, x / w);
      Quotient(c * q + y / w, c, q, y / w);
    }
  }

  lemma MixedQuotient(p: nat, x: int, w: int, c: int)
    requires w > 0 && w * c == 256 && 0 <= x < 256
    ensures (256 * p + x) / w == c * p + x / w && 0 <= x / w < c
  {
    assert w * (c * p) == (w * c) * p;
    assert x == w * (x / w) + x % w;
    Quotient(256 * p + x, w, c * p + x / w, x % w);
    LessFactor(w, x / w, c);
  }

  lemma LessFactor(w: int, u: int, c: int)
    requires w > 0 && w * u < w * c
    ensures u < c
  {
  }

  predicate Rounded(ip: Bytes, ones: int) {
    forall i :: 0 <= i < |ip| ==> ip[i] & MaskByte(ones - 8 * i) == ip[i]
  }

  function Filled(ip: Bytes, ones: int): (r: Bytes)
    ensures |r| == |ip|
  {
    seq(|ip|, i requires 0 <= i < |ip| => ip[i] | !MaskByte(ones - 8 * i))
  }

  predicate StartsBlock(v: int, size: int) {
    size > 0 && v % size == 0
  }

  /** A network address starts a block, and setting its host bits gives the block's last. */
  lemma {:induction false} BlockEnds(ip: Bytes, ones: nat)
    requires Rounded(ip, ones)
    ensures StartsBlock(Value(ip), Pow2(HostBits(|ip|, ones)))
    ensures Value(Filled(ip, ones)) == Value(ip) + Pow2(HostBits(|ip|, ones)) - 1
    decreases |ip|
  {
    if ip != [] {
      var n := |ip| - 1;
      var k, x, filled := ones - 8 * n, ip[n], Filled(ip, ones);
      LastByte(ip, ones);
      BlockEnds(ip[..n], ones);
      LastDigit(filled);
      LastDigit(ip);
      assert HostBits(0, ones) == 0;
      hide *;
      NextBlock(Value(ip[..n]), x as int, n, ones);
    }
  }

  lemma LastByte(ip: Bytes, ones: int)
    requires ip != [] && Rounded(ip, ones)
    ensures var n := |ip| - 1;
      var k, x, filled := ones - 8 * n, ip[n], Filled(ip, ones);
      && Rounded(ip[..n], ones)
      && filled[..n] == Filled(ip[..n], ones)
      && Width(k) > 0 && x as int == Width(k) * (x as int / Width(k))
      && filled[n] as int == x as int + Width(k) - 1
  {
    var n := |ip| - 1;
    BlockByte(ip[n], ones - 8 * n);
    hide MaskByte, Width;
  }

  lemma BlockByte(x: bv8, k: int)
    requires x & MaskByte(k) == x
    ensures Width(k) > 0 && x as int == Width(k) * (x as int / Width(k))
    ensures (x | !MaskByte(k)) as int == x as int + Width(k) - 1
  {
    MaskedByte(x, k);
    hide MaskByte, Width;
  }

  lemma NextBlock(p: nat, x: nat, n: nat, ones: int)
    requires x < 256 && x == Width(ones - 8 * n) * (x / Width(ones - 8 * n))
    requires StartsBlock(p, Pow2(HostBits(n, ones)))
    ensures var w, h, k := Pow2(HostBits(n, ones)), Pow2(HostBits(n + 1, ones)), ones - 8 * n;
      && StartsBlock(256 * p + x, h)
      && 256 * (p + w - 1) + (x + Width(k) - 1) == 256 * p + x + h - 1
  {
    var h, k := HostBits(n, ones), ones - 8 * n;
    if k <= 0 {
      Pow2Byte(h);
      hide Pow2;
      WholeByte(p, Pow2(h));
    } else {
      WidthIsPow2(k);
      WidthDivides(k);
      assert Pow2(h) == 1;
      hide Width, Pow2;
      Regroup(p, x, Width(k), 256 / Width(k));
    }
  }

  lemma WholeByte(p: nat, w: nat)
    requires StartsBlock(p, w)
    ensures StartsBlock(256 * p, 256 * w)
  {
    MultipleOf(256 * p, 256 * w, p / w);
  }

  lemma Regroup(p: nat, x: nat, w: nat, c: nat)
    requires w > 0 && w * c == 256 && x == w * (x / w)
    ensures StartsBlock(256 * p + x, w)
  {
    assert (w * c) * p == w * (c * p);
    MultipleOf(256 * p + x, w, c * p + x / w);
  }

  lemma MultipleOf(a: nat, d: nat, q: int)
    requires d > 0 && a == d * q
    ensures a % d == 0
  {
    Quotient(a, d, q, 0);
  }

  // ---------------------------------------------------------------- the hosts of a network

  /** How many addresses lie strictly between a network's first and last. */
  function HostCount(bits: nat): nat {
    if bits == 0 then 0 else Pow2(bits) - 2
  }

  /** The n-byte addresses just above first, one after the other. */
  ghost predicate HostsFrom(ips: seq<Bytes>, first: nat, n: nat) {
    forall k :: 0 <= k < |ips| ==> |ips[k]| == n && Value(ips[k]) == first + 1 + k
  }

  /** Refuses networks of more than 2^16 addresses; otherwise the hosts are the addresses
      strictly between network and broadcast address, each once, in order. */
  method HostsInCIDR(net: IPNet, ones: nat) returns (r: Option<seq<Bytes>>)
    requires Canonical(net, ones) && (|net.ip| == 4 || |net.ip| == 16)
    ensures r.None? <==> 8 * |net.ip| - ones > MAX_HOST_BITS
    ensures r.Some? ==> |r.value| == HostCount(8 * |net.ip| - ones)
    ensures r.Some? ==> HostsFrom(r.value, Value(net.ip), |net.ip|)
  {
    var n := |net.ip|;
    if 8 * n - ones > MAX_HOST_BITS {
      return None;
    }
    var ips: seq<Bytes> := [];
    var ip := new bv8[n](i requires 0 <= i < n => net.ip[i]);
    assert ip[..] == net.ip;
    ghost var k := 0;
    ScanStart(net, ones);
    hide Canonical, Contains, BroadcastOf, Scanned, Incremented;
    while Contains(net, ip[..])
      invariant ip.Length == n && Scanned(net, ones, ip[..], k, ips)
      decreases Pow2(8 * n - ones) - k
    {
      ScanStep(net, ones, ip[..], k, ips);
      var host := IsHost(net, ip[..]);
      if host {
        ips := ips + [ip[..]];
      }
      IncrementIP(ip);
      k := k + 1;
    }
    ScanEnd(net, ones, ip[..], k, ips);
    r := Some(ips);
  }

  /** How many of a block's first k addresses are neither its first nor its last. */
  function HostsBelow(k: int, size: int): int {
    Max(0, Min(k - 1, size - 2))
  }

  lemma CountOfHosts(bits: nat)
    ensures HostsBelow(Pow2(bits), Pow2(bits)) == HostCount(bits)
  {
    if bits > 0 {
      Pow2AtLeast2(bits);
    }
  }

  /** The enumeration has come to ip, the k-th address of the block, and collected ips. */
  ghost predicate Scanned(net: IPNet, ones: nat, ip: Bytes, k: nat, ips: seq<Bytes>) {
    && AtOffset(net, ones, ip, k)
    && |ips| == HostsBelow(k, Pow2(8 * |net.ip| - ones)) && HostsFrom(ips, Value(net.ip), |net.ip|)
  }

  lemma ScanStart(net: IPNet, ones: nat)
    requires Canonical(net, ones) && (|net.ip| == 4 || |net.ip| == 16) && 8 * |net.ip| - ones <= MAX_HOST_BITS
    ensures Scanned(net, ones, net.ip, 0, [])
  {
    AtStart(net, ones);
    hide AtOffset, Canonical;
  }

  lemma ScanStep(net: IPNet, ones: nat, ip: Bytes, k: nat, ips: seq<Bytes>)
    requires Scanned(net, ones, ip, k, ips) && Contains(net, ip)
    ensures k < Pow2(8 * |net.ip| - ones)
    ensures Scanned(net, ones, Incremented(ip), k + 1,
      if ip != net.ip && ip != BroadcastOf(net) then ips + [ip] else ips)
  {
    HostOffset(net, ones, ip, k);
    assert |ip| == |net.ip|;
    hide AtOffset, Canonical, Contains, BroadcastOf, HostsFrom, Value, Pow2, Incremented;
    if ip != net.ip && ip != BroadcastOf(net) {
      AppendHost(ips, Value(net.ip), |net.ip|, ip);
    }
  }

  lemma ScanEnd(net: IPNet, ones: nat, ip: Bytes, k: nat, ips: seq<Bytes>)
    requires Scanned(net, ones, ip, k, ips) && !Contains(net, ip)
    ensures |ips| == HostCount(8 * |net.ip| - ones) && HostsFrom(ips, Value(net.ip), |net.ip|)
  {
    NotContainedOffset(net, ones, ip, k);
    CountOfHosts(8 * |net.ip| - ones);
    hide Contains, HostsFrom, Value, Canonical;
  }

  /** Neither the network's own address nor its broadcast address. */
  method IsHost(net: IPNet, ip: Bytes) returns (host: bool)
    requires |net.ip| == |net.mask|
    ensures host <==> ip != net.ip && ip != BroadcastOf(net)
  {
    if ip == net.ip {
      return false;
    }
    var broadcast := BroadcastAddr(net);
    return ip != broadcast[..];
  }

  lemma AppendHost(ips: seq<Bytes>, first: nat, n: nat, ip: Bytes)
    requires HostsFrom(ips, first, n) && |ip| == n && Value(ip) == first + 1 + |ips|
    ensures HostsFrom(ips + [ip], first, n)
  {
    hide Value;
  }

  /** What the enumeration returns, without numbers: every address of the network except its
      own and the broadcast address. */
  lemma HostsExactly(net: IPNet, ones: nat, ips: seq<Bytes>, a: Bytes)
    requires Canonical(net, ones) && (|net.ip| == 4 || |net.ip| == 16) && 8 * |net.ip| - ones <= MAX_HOST_BITS
    requires |ips| == HostCount(8 * |net.ip| - ones) && HostsFrom(ips, Value(net.ip), |net.ip|)
    ensures a in ips <==> Contains(net, a) && a != net.ip && a != BroadcastOf(net)
  {
    assert |net.ip| == |net.mask|;
    hide Canonical, BroadcastOf, Pow2, Value, StartsBlock, HostCount;
    if |a| == |net.ip| {
      hide Contains;
      var bits, first := 8 * |a| - ones, Value(net.ip);
      NetworkFits(net, ones);
      ContainsInBlock(net, ones, a);
      BlockRange(first, Pow2(bits), Value(a));
      if Contains(net, a) {
        EndsOfNetwork(net, ones, a, Value(a) - first);
      }
      CountOfHosts(bits);
      AmongHosts(ips, first, a);
    }
  }

  lemma AmongHosts(ips: seq<Bytes>, first: nat, a: Bytes)
    requires HostsFrom(ips, first, |a|)
    ensures a in ips <==> first < Value(a) <= first + |ips|
  {
    hide Value;
    if first < Value(a) <= first + |ips| {
      SameAddress(a, ips[Value(a) - first - 1]);
    }
  }

  lemma BlockRange(first: nat, size: int, v: nat)
    requires StartsBlock(first, size)
    ensures v / size == first / size <==> first <= v < first + size
  {
    var q := first / size;
    if first <= v < first + size {
      Quotient(v, size, q, v - first);
    }
  }

  lemma {:induction false} Pow256IsPow2(n: nat)
    ensures Pow256(n) == Pow2(8 * n)
  {
    if n > 0 {
      Pow256IsPow2(n - 1);
      Pow2Byte(8 * (n - 1));
    }
  }

  lemma {:induction false} Pow2Sum(a: nat, b: nat)
    ensures Pow2(a + b) == Pow2(a) * Pow2(b)
  {
    if a > 0 {
      Pow2Sum(a - 1, b);
      assert Pow2(a + b) == 2 * (Pow2(a - 1) * Pow2(b));
    }
  }

  /** The network's block ends at or before the end of the address space, and is not all of it. */
  lemma NetworkFits(net: IPNet, ones: nat)
    requires Canonical(net, ones) && (|net.ip| == 4 || |net.ip| == 16) && 8 * |net.ip| - ones <= MAX_HOST_BITS
    ensures var size := Pow2(8 * |net.ip| - ones);
      && StartsBlock(Value(net.ip), size) && Value(net.ip) + size <= Pow256(|net.ip|)
      && 2 * size <= Pow256(|net.ip|)
    ensures Value(net.ip) < Pow256(|net.ip|)
  {
    var n, bits := |net.ip|, 8 * |net.ip| - ones;
    hide Value, Pow2, Pow256, MaskByte, Filled;
    assert Rounded(net.ip, ones);
    hide Canonical, Rounded;
    BlockEnds(net.ip, ones);
    ValueBound(Filled(net.ip, ones));
    ValueBound(net.ip);
    Pow256IsPow2(n);
    Pow2Sum(ones, bits);
    Pow2AtLeast2(ones);
    AtLeastTwice(Pow2(ones), Pow2(bits));
  }

  lemma Pow2AtLeast2(n: nat)
    requires n > 0
    ensures Pow2(n) >= 2
  {
    assert Pow2(n) == 2 * Pow2(n - 1);
  }

  lemma AtLeastTwice(a: nat, b: nat)
    requires a >= 2
    ensures a * b >= 2 * b
  {
  }

  lemma ContainsInBlock(net: IPNet, ones: nat, ip: Bytes)
    requires Canonical(net, ones) && |ip| == |net.ip|
    ensures Contains(net, ip) <==> Value(ip) / Pow2(8 * |ip| - ones) == Value(net.ip) / Pow2(8 * |ip| - ones)
  {
    AgreeByValue(net.ip, ip, ones);
    assert Contains(net, ip) <==> Agree(net.ip, ip, ones);
  }

  ghost predicate AtOffset(net: IPNet, ones: nat, ip: Bytes, k: nat) {
    && Canonical(net, ones) && (|net.ip| == 4 || |net.ip| == 16) && 8 * |net.ip| - ones <= MAX_HOST_BITS
    && |ip| == |net.ip| && k <= Pow2(8 * |net.ip| - ones)
    && Value(ip) == Wrapped(Value(net.ip) + k, Pow256(|net.ip|))
  }

  function Wrapped(v: int, space: int): int
    requires space > 0
  {
    v % space
  }

  /** The offset of a contained address lies inside the block, and no wrap has happened. */
  lemma ContainedOffset(net: IPNet, ones: nat, ip: Bytes, k: nat)
    requires AtOffset(net, ones, ip, k) && Contains(net, ip)
    ensures k < Pow2(8 * |net.ip| - ones) && Value(ip) == Value(net.ip) + k
  {
    NetworkFits(net, ones);
    ContainsInBlock(net, ones, ip);
    hide Canonical, Contains, Pow2, Pow256, Value;
    InBlock(Value(net.ip), Pow2(8 * |net.ip| - ones), Pow256(|net.ip|), k);
  }

  /** Walking up from the start of a block, one is in it until its size is used up. */
  lemma InBlock(first: nat, size: nat, space: nat, k: nat)
    requires StartsBlock(first, size) && first + size <= space && 2 * size <= space && k <= size
    ensures ((first + k) % space) / size == first / size <==> k < size
    ensures k < size ==> (first + k) % space == first + k
  {
    if k == size {
      PastBlock(first, size, space);
    } else {
      SmallMod(first + k, space);
      Quotient(first + k, size, first / size, k);
    }
  }

  /** One block on, wrapped around or not, is another block. */
  lemma PastBlock(first: nat, size: nat, space: nat)
    requires size > 0 && first % size == 0 && first + size <= space && 2 * size <= space
    ensures ((first + size) % space) / size != first / size
  {
    var q := first / size;
    assert first == size * q;
    if first + size == space {
      SelfMod(space);
      assert first >= size;
      Quotient(0, size, 0, 0);
      if q == 0 { assert false; }
    } else {
      SmallMod(first + size, space);
      Quotient(first + size, size, q + 1, 0);
    }
  }

  lemma NotContainedOffset(net: IPNet, ones: nat, ip: Bytes, k: nat)
    requires AtOffset(net, ones, ip, k) && !Contains(net, ip)
    ensures k == Pow2(8 * |net.ip| - ones)
  {
    NetworkFits(net, ones);
    ContainsInBlock(net, ones, ip);
    hide Canonical, Contains, Pow2, Pow256, Value;
    InBlock(Value(net.ip), Pow2(8 * |net.ip| - ones), Pow256(|net.ip|), k);
  }

  lemma SameAddress(a: Bytes, b: Bytes)
    requires |a| == |b|
    ensures a == b <==> Value(a) == Value(b)
  {
    if Value(a) == Value(b) {
      ValueInjective(a, b);
    }
  }

  lemma EndsOfNetwork(net: IPNet, ones: nat, ip: Bytes, k: nat)
    requires Canonical(net, ones) && |ip| == |net.ip| && Value(ip) == Value(net.ip) + k
    ensures ip == net.ip <==> k == 0
    ensures ip == BroadcastOf(net) <==> k == Pow2(8 * |net.ip| - ones) - 1
  {
    assert BroadcastOf(net) == Filled(net.ip, ones) && Rounded(net.ip, ones);
    hide Canonical, BroadcastOf, Filled, Rounded, Pow2, Value, StartsBlock;
    BlockEnds(net.ip, ones);
    SameAddress(ip, net.ip);
    SameAddress(ip, BroadcastOf(net));
  }

  /** One round of the enumeration: where the address is, and that the next is one further. */
  lemma HostOffset(net: IPNet, ones: nat, ip: Bytes, k: nat)
    requires AtOffset(net, ones, ip, k) && Contains(net, ip)
    ensures k < Pow2(8 * |net.ip| - ones) && AtOffset(net, ones, Incremented(ip), k + 1)
    ensures var size := Pow2(8 * |net.ip| - ones);
      HostsBelow(k + 1, size) == HostsBelow(k, size) + if 0 < k < size - 1 then 1 else 0
    ensures ip != net.ip && ip != BroadcastOf(net) <==> 0 < k < Pow2(8 * |net.ip| - ones) - 1
    ensures Value(ip) == Value(net.ip) + k
  {
    ContainedOffset(net, ones, ip, k);
    EndsOfNetwork(net, ones, ip, k);
    StepOffset(net, ones, ip, k);
    hide Canonical, Incremented, Value, Pow2, Pow256, Contains, BroadcastOf;
  }

  lemma AtStart(net: IPNet, ones: nat)
    requires Canonical(net, ones) && (|net.ip| == 4 || |net.ip| == 16) && 8 * |net.ip| - ones <= MAX_HOST_BITS
    ensures AtOffset(net, ones, net.ip, 0)
  {
    ValueBound(net.ip);
    SmallMod(Value(net.ip), Pow256(|net.ip|));
    hide Canonical, Value, Pow256, Pow2;
  }

  lemma StepOffset(net: IPNet, ones: nat, ip: Bytes, k: nat)
    requires AtOffset(net, ones, ip, k) && k < Pow2(8 * |net.ip| - ones)
    ensures AtOffset(net, ones, Incremented(ip), k + 1)
  {
    hide Wrapped, Canonical, Incremented, Value, Pow2, Pow256;
    IncrementedValue(ip);
    NextOffset(Value(net.ip), k, Pow256(|net.ip|));
  }

  lemma NextOffset(first: nat, k: nat, space: nat)
    requires space > 0
    ensures (Wrapped(first + k, space) + 1) % space == Wrapped(first + k + 1, space)
  {
    var a := first + k;
    var q, r := a / space, a % space;
    assert a == space * q + r;
    if r + 1 == space {
      SelfMod(space);
      Quotient(a + 1, space, q + 1, 0);
    } else {
      SmallMod(r + 1, space);
      Quotient(a + 1, space, q, r + 1);
    }
  }
}
