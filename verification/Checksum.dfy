/** The Rolling Photon Checksum (crates/luxstream-otap-d3/src/rpc.rs). */
module Checksum {

  const UINT32 := 0x1_0000_0000
  const UINT64 := 0x1_0000_0000_0000_0000
  const PRIME := 7919

  datatype Polarization = H | V | D | A

  function Weight(p: Polarization): nat {
    match p case H => 1 case V => 2 case D => 3 case A => 5
  }

  /** value is a u16 and lambda a u8; the format allows 10-bit values on channels 1 to 96. */
  datatype Symbol = Symbol(value: nat, lambda: nat, pol: Polarization) {
    predicate InTypes() {
      value < 0x1_0000 && lambda < 0x100
    }

    predicate InFormat() {
      value <= 1023 && 1 <= lambda <= 96
    }

    function Product(): nat {
      value * lambda * Weight(pol)
    }
  }

  function Sum(symbols: seq<Symbol>): nat {
    if symbols == [] then 0 else Sum(symbols[..|symbols| - 1]) + symbols[|symbols| - 1].Product()
  }

  /** What the checksum means: the seed and the weighted sum, modulo 2^32. */
  function Rpc(symbols: seq<Symbol>, domain: nat, epochNonce: nat): nat {
    (epochNonce + 31 * domain + PRIME * Sum(symbols)) % UINT32
  }

  lemma ProductsGrow(a: nat, b: nat, a': nat, b': nat)
    requires a <= a' && b <= b'
    ensures a * b <= a' * b'
  {
    assert a * b <= a' * b;
    assert a' * b <= a' * b';
  }

  /** The 64-bit products of one symbol never wrap. */
  lemma TermIsProduct(s: Symbol)
    requires s.InTypes()
    ensures s.value * (s.lambda * PRIME % UINT64) % UINT64 * Weight(s.pol) % UINT64 == PRIME * s.Product()
  {
    assert s.lambda * PRIME % UINT64 == s.lambda * PRIME;
    Regroup(s.value, s.lambda);
    ProductsGrow(s.value, s.lambda, 0xFFFF, 0xFF);
    Weighted(s.value * s.lambda, s.pol);
  }

  lemma Regroup(v: nat, l: nat)
    ensures v * (l * PRIME) == PRIME * (v * l)
  {
  }

  lemma Weighted(vl: nat, p: Polarization)
    requires vl <= 0xFFFF * 0xFF
    ensures PRIME * vl % UINT64 * Weight(p) % UINT64 == PRIME * (vl * Weight(p))
  {
  }

  lemma Accumulate(x: nat, t: nat)
    ensures (x % UINT64 + t) % UINT64 == (x + t) % UINT64
  {
  }

  lemma LowWord(x: nat)
    ensures x % UINT64 % UINT32 == x % UINT32
  {
    var q, r := x / UINT64, x % UINT64;
    assert x == UINT32 * (UINT32 * q) + r;
  }

  /** The wrapping 64-bit accumulation computes the sum modulo 2^32. */
  method CalculateRpc(symbols: seq<Symbol>, domain: nat, epochNonce: nat) returns (rpc: nat)
    requires domain < UINT32 && epochNonce < UINT64
    requires forall s :: s in symbols ==> s.InTypes()
    ensures rpc == Rpc(symbols, domain, epochNonce)
  {
    var acc := (epochNonce + domain * 31 % UINT64) % UINT64;
    for i := 0 to |symbols|
      invariant acc == (epochNonce + 31 * domain + PRIME * Sum(symbols[..i])) % UINT64
    {
      var s := symbols[i];
      TermIsProduct(s);
      assert symbols[..i + 1][..i] == symbols[..i];
      Accumulate(epochNonce + 31 * domain + PRIME * Sum(symbols[..i]), PRIME * s.Product());
      var w := s.lambda * PRIME % UINT64;
      var term := s.value * w % UINT64 * Weight(s.pol) % UINT64;
      acc := (acc + term) % UINT64;
    }
    assert symbols[..|symbols|] == symbols;
    LowWord(epochNonce + 31 * domain + PRIME * Sum(symbols));
    rpc := acc % UINT32;
  }

  // ---- what the checksum tells apart ----

  ghost predicate Congruent(a: int, b: int) {
    (a - b) % UINT32 == 0
  }

  lemma SameRemainder(a: int, b: int)
    ensures a % UINT32 == b % UINT32 <==> Congruent(a, b)
  {
    var q := a / UINT32 - b / UINT32;
    assert a - b == UINT32 * q + (a % UINT32 - b % UINT32);
  }

  lemma Multiple(d: int, k: int)
    requires d == UINT32 * k
    ensures d % UINT32 == 0
  {
  }

  /** 7919 is invertible modulo 2^32: 1189400591 * 7919 == 1 + 2193 * 2^32. */
  lemma PrimeCancels(d: int)
    ensures (PRIME * d) % UINT32 == 0 <==> d % UINT32 == 0
  {
    if (PRIME * d) % UINT32 == 0 {
      var m := PRIME * d / UINT32;
      Multiple(d, 1189400591 * m - 2193 * d);
    }
    if d % UINT32 == 0 {
      Multiple(PRIME * d, PRIME * (d / UINT32));
    }
  }

  lemma SeededLaw(seed: int, x: int, y: int)
    ensures (seed + PRIME * x) % UINT32 == (seed + PRIME * y) % UINT32 <==> Congruent(x, y)
  {
    SameRemainder(seed + PRIME * x, seed + PRIME * y);
    assert (seed + PRIME * x) - (seed + PRIME * y) == PRIME * (x - y);
    PrimeCancels(x - y);
  }

  /** The law, for every pair of frames: under one domain and epoch the checksums agree
      exactly when the weighted sums agree modulo 2^32. */
  lemma ChecksumLaw(a: seq<Symbol>, b: seq<Symbol>, domain: nat, epochNonce: nat)
    ensures Rpc(a, domain, epochNonce) == Rpc(b, domain, epochNonce) <==> Congruent(Sum(a), Sum(b))
  {
    SeededLaw(epochNonce + 31 * domain, Sum(a), Sum(b));
  }

  /** Identical payloads differ across domains and epochs exactly when the seeds do. */
  lemma SeedLaw(a: seq<Symbol>, domain: nat, epochNonce: nat, domain': nat, epochNonce': nat)
    ensures Rpc(a, domain, epochNonce) == Rpc(a, domain', epochNonce') <==>
            Congruent(epochNonce + 31 * domain, epochNonce' + 31 * domain')
  {
    var p := PRIME * Sum(a);
    SameRemainder(epochNonce + 31 * domain + p, epochNonce' + 31 * domain' + p);
  }

  lemma ProductBound(s: Symbol)
    requires s.InFormat()
    ensures s.Product() <= 491040
  {
    ProductsGrow(s.value, s.lambda, 1023, 96);
    ProductsGrow(s.value * s.lambda, Weight(s.pol), 1023 * 96, 5);
  }

  lemma {:induction false} SumBound(symbols: seq<Symbol>)
    requires forall s :: s in symbols ==> s.InFormat()
    ensures Sum(symbols) <= 491040 * |symbols|
  {
    if symbols != [] {
      SumBound(symbols[..|symbols| - 1]);
      ProductBound(symbols[|symbols| - 1]);
    }
  }

  /** Exactness: for frames of at most 8746 symbols the checksums agree exactly when the
      sums are equal as integers. */
  lemma ChecksumIsExact(a: seq<Symbol>, b: seq<Symbol>, domain: nat, epochNonce: nat)
    requires |a| <= 8746 && |b| <= 8746
    requires forall s :: s in a || s in b ==> s.InFormat()
    ensures Rpc(a, domain, epochNonce) == Rpc(b, domain, epochNonce) <==> Sum(a) == Sum(b)
  {
    ChecksumLaw(a, b, domain, epochNonce);
    SumBound(a);
    SumBound(b);
    SmallDifference(Sum(a), Sum(b));
  }

  lemma SmallDifference(x: int, y: int)
    requires -UINT32 < x - y < UINT32
    ensures Congruent(x, y) <==> x == y
  {
  }

  lemma {:induction false} SumAppend(a: seq<Symbol>, b: seq<Symbol>)
    ensures Sum(a + b) == Sum(a) + Sum(b)
  {
    if b == [] {
      assert a + b == a;
    } else {
      var n := |b| - 1;
      assert (a + b)[..|a + b| - 1] == a + b[..n];
      SumAppend(a, b[..n]);
    }
  }

  /** Any change of one symbol's product is seen, in frames of any length. */
  lemma SingleChangeIsSeen(a: seq<Symbol>, i: nat, s: Symbol, domain: nat, epochNonce: nat)
    requires i < |a| && a[i].InFormat() && s.InFormat()
    ensures Rpc(a[i := s], domain, epochNonce) == Rpc(a, domain, epochNonce) <==> s.Product() == a[i].Product()
  {
    var pre, post := a[..i], a[i + 1..];
    assert a == pre + [a[i]] + post && a[i := s] == pre + [s] + post;
    SumAppend(pre, [a[i]]);
    SumAppend(pre + [a[i]], post);
    SumAppend(pre, [s]);
    SumAppend(pre + [s], post);
    assert [s][..0] == [] && [a[i]][..0] == [];
    ChecksumLaw(a[i := s], a, domain, epochNonce);
    ProductBound(s);
    ProductBound(a[i]);
    SmallDifference(Sum(a[i := s]), Sum(a));
  }

  lemma {:induction false} SumOfCopies(s: Symbol, n: nat)
    ensures Sum(seq(n, _ => s)) == n * s.Product()
  {
    var c := seq(n, _ => s);
    if n > 0 {
      SumOfCopies(s, n - 1);
      assert c[..n - 1] == seq(n - 1, _ => s);
    }
  }

  /** The bound is tight: with 8747 symbols two frames with different sums, both inside the
      format, have the same checksum. */
  lemma BoundIsTight(domain: nat, epochNonce: nat) returns (a: seq<Symbol>, b: seq<Symbol>)
    ensures |a| == 1 && |b| == 8747 && (forall s :: s in a || s in b ==> s.InFormat())
    ensures Sum(a) != Sum(b) && Rpc(a, domain, epochNonce) == Rpc(b, domain, epochNonce)
  {
    var top, last := Symbol(1023, 96, A), Symbol(762, 87, A);
    var tops := seq(8746, _ => top);
    a, b := [Symbol(1, 7, V)], tops + [last];
    SumOfCopies(top, 8746);
    assert b[..8746] == tops && a[..0] == [];
    assert Sum(b) == 8746 * 491040 + 331470 == UINT32 + 14;
    ChecksumLaw(a, b, domain, epochNonce);
  }
}
