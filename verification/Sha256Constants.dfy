/** The round constants of SHA-256: section 4.2.2 of FIPS 180-4 takes them from the cube roots of the first primes. */
module Sha256Constants {
  import opened Remainders

  type Word = bv32

  const ROW0: seq<Word> := [
    0x428a2f98, 0x71374491, 0xb5c0fbcf, 0xe9b5dba5, 0x3956c25b, 0x59f111f1, 0x923f82a4, 0xab1c5ed5]
  const ROW1: seq<Word> := [
    0xd807aa98, 0x12835b01, 0x243185be, 0x550c7dc3, 0x72be5d74, 0x80deb1fe, 0x9bdc06a7, 0xc19bf174]
  const ROW2: seq<Word> := [
    0xe49b69c1, 0xefbe4786, 0x0fc19dc6, 0x240ca1cc, 0x2de92c6f, 0x4a7484aa, 0x5cb0a9dc, 0x76f988da]
  const ROW3: seq<Word> := [
    0x983e5152, 0xa831c66d, 0xb00327c8, 0xbf597fc7, 0xc6e00bf3, 0xd5a79147, 0x06ca6351, 0x14292967]
  const ROW4: seq<Word> := [
    0x27b70a85, 0x2e1b2138, 0x4d2c6dfc, 0x53380d13, 0x650a7354, 0x766a0abb, 0x81c2c92e, 0x92722c85]
  const ROW5: seq<Word> := [
    0xa2bfe8a1, 0xa81a664b, 0xc24b8b70, 0xc76c51a3, 0xd192e819, 0xd6990624, 0xf40e3585, 0x106aa070]
  const ROW6: seq<Word> := [
    0x19a4c116, 0x1e376c08, 0x2748774c, 0x34b0bcb5, 0x391c0cb3, 0x4ed8aa4a, 0x5b9cca4f, 0x682e6ff3]
  const ROW7: seq<Word> := [
    0x748f82ee, 0x78a5636f, 0x84c87814, 0x8cc70208, 0x90befffa, 0xa4506ceb, 0xbef9a3f7, 0xc67178f2]

  const ROUND_CONSTANTS: seq<Word> := ROW0 + ROW1 + ROW2 + ROW3 + ROW4 + ROW5 + ROW6 + ROW7

  const PRIMES0: seq<nat> := [2, 3, 5, 7, 11, 13, 17, 19]
  const PRIMES1: seq<nat> := [23, 29, 31, 37, 41, 43, 47, 53]
  const PRIMES2: seq<nat> := [59, 61, 67, 71, 73, 79, 83, 89]
  const PRIMES3: seq<nat> := [97, 101, 103, 107, 109, 113, 127, 131]
  const PRIMES4: seq<nat> := [137, 139, 149, 151, 157, 163, 167, 173]
  const PRIMES5: seq<nat> := [179, 181, 191, 193, 197, 199, 211, 223]
  const PRIMES6: seq<nat> := [227, 229, 233, 239, 241, 251, 257, 263]
  const PRIMES7: seq<nat> := [269, 271, 277, 281, 283, 293, 307, 311]

  const PRIMES: seq<nat> := PRIMES0 + PRIMES1 + PRIMES2 + PRIMES3 + PRIMES4 + PRIMES5 + PRIMES6 + PRIMES7

  // ----- Primes

  predicate IsPrime(n: nat) {
    n >= 2 && forall d :: 2 <= d < n ==> n % d != 0
  }

  /** No prime up to 17 divides `n`, unless it is `n`. */
  predicate Sieved(n: nat) {
    && (n % 2 != 0 || n == 2) && (n % 3 != 0 || n == 3) && (n % 5 != 0 || n == 5) && (n % 7 != 0 || n == 7)
    && (n % 11 != 0 || n == 11) && (n % 13 != 0 || n == 13) && (n % 17 != 0 || n == 17)
  }

  /** Below the square of 18 the sieve leaves exactly the primes. */
  lemma SievedIff(n: nat)
    requires 2 <= n < 324
    ensures Sieved(n) <==> IsPrime(n)
  {
    if Sieved(n) {
      forall e | 2 <= e < n ensures n % e != 0 {
        if n % e == 0 {
          var f := SmallDivisor(n, e);
          SmallDivisorIsSieved(n, f);
        }
      }
    }
  }

  /** A divisor of `n`, or its fellow, lies below 18. */
  lemma SmallDivisor(n: nat, e: nat) returns (f: nat)
    requires 2 <= e < n < 324 && n % e == 0
    ensures 2 <= f < 18 && f < n && n % f == 0
  {
    if e < 18 {
      f := e;
    } else {
      f := n / e;
      assert n == e * f;
      RemainderUnique(n, f, e, 0);
      FactorBelow(e, f, 18);
    }
  }

  lemma FactorBelow(e: nat, f: nat, d: nat)
    requires d * d > e * f && e >= d
    ensures f < d
  {
    if f >= d {
      ProductAtLeast(e, f, d);
    }
  }

  lemma ProductAtLeast(e: nat, f: nat, d: nat)
    requires e >= d && f >= d
    ensures e * f >= d * d
  {
    assert e * f >= d * f >= d * d;
  }

  lemma Divides(n: nat, f: nat, p: nat)
    requires 0 < p <= f && n % f == 0 && f % p == 0
    ensures n % p == 0
  {
    var q, r := n / f, f / p;
    assert n == f * q && f == p * r;
    assert n == p * (r * q);
    RemainderUnique(n, p, r * q, 0);
  }

  lemma SmallDivisorIsSieved(n: nat, f: nat)
    requires 2 <= f < 18 && f < n && n % f == 0
    ensures !Sieved(n)
  {
    var p := if f % 2 == 0 then 2 else if f % 3 == 0 then 3 else f;
    Divides(n, f, p);
    assert p == 2 || p == 3 || p == 5 || p == 7 || p == 11 || p == 13 || p == 17;
  }

  // ----- Cube roots

  function Cube(n: nat): nat {
    n * n * n
  }

  /** `k` is the first 32 bits of the fractional part of the cube root of `p`. */
  predicate CubeRootFraction(p: nat, k: Word) {
    var root := IntegerCubeRoot(p) * 0x1_0000_0000 + k as nat;
    Cube(root) <= p * 0x1_0000_0000_0000_0000_0000_0000 < Cube(root + 1)
  }

  function IntegerCubeRoot(p: nat): nat {
    if p < 8 then 1 else if p < 27 then 2 else if p < 64 then 3 else if p < 125 then 4 else if p < 216 then 5 else 6
  }

  /** Each constant belongs to the prime in its place. */
  predicate CubeRoots(ps: seq<nat>, ks: seq<Word>) {
    |ps| == |ks| && forall i :: 0 <= i < |ps| ==> CubeRootFraction(ps[i], ks[i])
  }

  predicate Ascending(ps: seq<nat>, next: nat) {
    && (forall i, j :: 0 <= i < j < |ps| ==> ps[i] < ps[j])
    && forall i :: 0 <= i < |ps| ==> ps[i] < next
  }

  // ----- The table, eight at a time

  predicate RowHolds(ps: seq<nat>, ks: seq<Word>, next: nat) {
    && |ps| == |ks| == 8
    && ps[0] < ps[1] < ps[2] < ps[3] < ps[4] < ps[5] < ps[6] < ps[7] < next
    && CubeRootFraction(ps[0], ks[0]) && CubeRootFraction(ps[1], ks[1])
    && CubeRootFraction(ps[2], ks[2]) && CubeRootFraction(ps[3], ks[3])
    && CubeRootFraction(ps[4], ks[4]) && CubeRootFraction(ps[5], ks[5])
    && CubeRootFraction(ps[6], ks[6]) && CubeRootFraction(ps[7], ks[7])
  }

  /** Rows make tables. */
  lemma RowExtends(ps: seq<nat>, ks: seq<Word>, qs: seq<nat>, ls: seq<Word>, next: nat)
    requires CubeRoots(ps, ks) && RowHolds(qs, ls, next) && Ascending(ps, qs[0])
    ensures CubeRoots(ps + qs, ks + ls) && Ascending(ps + qs, next)
  {
    hide CubeRootFraction;
  }

  lemma CoprimeToSix(n: nat)
    ensures n % 2 != 0 && n % 3 != 0 ==> n == 6 * (n / 6) + 1 || n == 6 * (n / 6) + 5
  {
    var q, r := n / 6, n % 6;
    assert n == 6 * q + r;
    if r == 0 || r == 2 || r == 4 {
      RemainderUnique(n, 2, 3 * q + r / 2, 0);
    } else if r == 3 {
      RemainderUnique(n, 3, 2 * q + 1, 0);
    }
  }

  lemma Primes0(n: nat)
    ensures n in PRIMES0 <==> 2 <= n < 23 && Sieved(n)
  {
  }

  lemma Row0()
    ensures RowHolds(PRIMES0, ROW0, 23)
  {
    assert CubeRootFraction(2, 0x428a2f98) && CubeRootFraction(3, 0x71374491);
    assert CubeRootFraction(5, 0xb5c0fbcf) && CubeRootFraction(7, 0xe9b5dba5);
    assert CubeRootFraction(11, 0x3956c25b) && CubeRootFraction(13, 0x59f111f1);
    assert CubeRootFraction(17, 0x923f82a4) && CubeRootFraction(19, 0xab1c5ed5);
  }

  lemma Primes1(n: nat)
    ensures n in PRIMES1 <==> 23 <= n < 59 && Sieved(n)
  {
    if 23 <= n < 59 {
      CoprimeToSix(n);
    }
  }

  lemma Row1()
    ensures RowHolds(PRIMES1, ROW1, 59)
  {
    assert CubeRootFraction(23, 0xd807aa98) && CubeRootFraction(29, 0x12835b01);
    assert CubeRootFraction(31, 0x243185be) && CubeRootFraction(37, 0x550c7dc3);
    assert CubeRootFraction(41, 0x72be5d74) && CubeRootFraction(43, 0x80deb1fe);
    assert CubeRootFraction(47, 0x9bdc06a7) && CubeRootFraction(53, 0xc19bf174);
  }

  lemma Primes2(n: nat)
    ensures n in PRIMES2 <==> 59 <= n < 97 && Sieved(n)
  {
    if 59 <= n < 97 {
      CoprimeToSix(n);
    }
  }

  lemma Row2()
    ensures RowHolds(PRIMES2, ROW2, 97)
  {
    assert CubeRootFraction(59, 0xe49b69c1) && CubeRootFraction(61, 0xefbe4786);
    assert CubeRootFraction(67, 0x0fc19dc6) && CubeRootFraction(71, 0x240ca1cc);
    assert CubeRootFraction(73, 0x2de92c6f) && CubeRootFraction(79, 0x4a7484aa);
    assert CubeRootFraction(83, 0x5cb0a9dc) && CubeRootFraction(89, 0x76f988da);
  }

  lemma Primes3(n: nat)
    ensures n in PRIMES3 <==> 97 <= n < 137 && Sieved(n)
  {
    if 97 <= n < 137 {
      CoprimeToSix(n);
      assert n % 2 != 0 && n % 3 != 0 ==>
               n == 97 || n == 101 || n == 103 || n == 107 || n == 109 || n == 113 || n == 115 || n == 119 ||
               n == 121 || n == 125 || n == 127 || n == 131 || n == 133;
    }
  }

  lemma Row3()
    ensures RowHolds(PRIMES3, ROW3, 137)
  {
    assert CubeRootFraction(97, 0x983e5152) && CubeRootFraction(101, 0xa831c66d);
    assert CubeRootFraction(103, 0xb00327c8) && CubeRootFraction(107, 0xbf597fc7);
    assert CubeRootFraction(109, 0xc6e00bf3) && CubeRootFraction(113, 0xd5a79147);
    assert CubeRootFraction(127, 0x06ca6351) && CubeRootFraction(131, 0x14292967);
  }

  lemma Primes4(n: nat)
    ensures n in PRIMES4 <==> 137 <= n < 179 && Sieved(n)
  {
    if 137 <= n < 179 {
      CoprimeToSix(n);
      assert n % 2 != 0 && n % 3 != 0 ==>
               n == 137 || n == 139 || n == 143 || n == 145 || n == 149 || n == 151 || n == 155 || n == 157 ||
               n == 161 || n == 163 || n == 167 || n == 169 || n == 173 || n == 175;
    }
  }

  lemma Row4()
    ensures RowHolds(PRIMES4, ROW4, 179)
  {
    assert CubeRootFraction(137, 0x27b70a85) && CubeRootFraction(139, 0x2e1b2138);
    assert CubeRootFraction(149, 0x4d2c6dfc) && CubeRootFraction(151, 0x53380d13);
    assert CubeRootFraction(157, 0x650a7354) && CubeRootFraction(163, 0x766a0abb);
    assert CubeRootFraction(167, 0x81c2c92e) && CubeRootFraction(173, 0x92722c85);
  }

  lemma Primes5(n: nat)
    ensures n in PRIMES5 <==> 179 <= n < 227 && Sieved(n)
  {
    if 179 <= n < 227 {
      CoprimeToSix(n);
      assert n % 2 != 0 && n % 3 != 0 ==>
               n == 179 || n == 181 || n == 185 || n == 187 || n == 191 || n == 193 || n == 197 || n == 199 ||
               n == 203 || n == 205 || n == 209 || n == 211 || n == 215 || n == 217 || n == 221 || n == 223;
    }
  }

  lemma Row5()
    ensures RowHolds(PRIMES5, ROW5, 227)
  {
    assert CubeRootFraction(179, 0xa2bfe8a1) && CubeRootFraction(181, 0xa81a664b);
    assert CubeRootFraction(191, 0xc24b8b70) && CubeRootFraction(193, 0xc76c51a3);
    assert CubeRootFraction(197, 0xd192e819) && CubeRootFraction(199, 0xd6990624);
    assert CubeRootFraction(211, 0xf40e3585) && CubeRootFraction(223, 0x106aa070);
  }

  lemma Primes6(n: nat)
    ensures n in PRIMES6 <==> 227 <= n < 269 && Sieved(n)
  {
    if 227 <= n < 269 {
      CoprimeToSix(n);
      assert n % 2 != 0 && n % 3 != 0 ==>
               n == 227 || n == 229 || n == 233 || n == 235 || n == 239 || n == 241 || n == 245 || n == 247 ||
               n == 251 || n == 253 || n == 257 || n == 259 || n == 263 || n == 265;
    }
  }

  lemma Row6()
    ensures RowHolds(PRIMES6, ROW6, 269)
  {
    assert CubeRootFraction(227, 0x19a4c116) && CubeRootFraction(229, 0x1e376c08);
    assert CubeRootFraction(233, 0x2748774c) && CubeRootFraction(239, 0x34b0bcb5);
    assert CubeRootFraction(241, 0x391c0cb3) && CubeRootFraction(251, 0x4ed8aa4a);
    assert CubeRootFraction(257, 0x5b9cca4f) && CubeRootFraction(263, 0x682e6ff3);
  }

  lemma Primes7(n: nat)
    ensures n in PRIMES7 <==> 269 <= n < 313 && Sieved(n)
  {
    if 269 <= n < 313 {
      CoprimeToSix(n);
      assert n % 2 != 0 && n % 3 != 0 ==>
               n == 269 || n == 271 || n == 275 || n == 277 || n == 281 || n == 283 || n == 287 || n == 289 ||
               n == 293 || n == 295 || n == 299 || n == 301 || n == 305 || n == 307 || n == 311;
    }
  }

  lemma Row7()
    ensures RowHolds(PRIMES7, ROW7, 313)
  {
    assert CubeRootFraction(269, 0x748f82ee) && CubeRootFraction(271, 0x78a5636f);
    assert CubeRootFraction(277, 0x84c87814) && CubeRootFraction(281, 0x8cc70208);
    assert CubeRootFraction(283, 0x90befffa) && CubeRootFraction(293, 0xa4506ceb);
    assert CubeRootFraction(307, 0xbef9a3f7) && CubeRootFraction(311, 0xc67178f2);
  }

  /** The table holds the first sixty-four primes in order, and each round constant is the first 32 bits of the
      fractional part of the cube root of the prime in its place. */
  lemma RoundConstantsAreCubeRoots()
    ensures |PRIMES| == |ROUND_CONSTANTS| == 64
    ensures forall i, j :: 0 <= i < j < 64 ==> PRIMES[i] < PRIMES[j]
    ensures forall i :: 0 <= i < 64 ==> CubeRootFraction(PRIMES[i], ROUND_CONSTANTS[i])
  {
    hide CubeRootFraction, RowHolds;
    var p1, k1 := PRIMES0, ROW0;
    var p2, k2 := p1 + PRIMES1, k1 + ROW1;
    var p3, k3 := p2 + PRIMES2, k2 + ROW2;
    var p4, k4 := p3 + PRIMES3, k3 + ROW3;
    var p5, k5 := p4 + PRIMES4, k4 + ROW4;
    var p6, k6 := p5 + PRIMES5, k5 + ROW5;
    var p7, k7 := p6 + PRIMES6, k6 + ROW6;
    var p8, k8 := p7 + PRIMES7, k7 + ROW7;
    Row0();
    RowExtends([], [], PRIMES0, ROW0, 23);
    Row1();
    RowExtends(p1, k1, PRIMES1, ROW1, 59);
    Row2();
    RowExtends(p2, k2, PRIMES2, ROW2, 97);
    Row3();
    RowExtends(p3, k3, PRIMES3, ROW3, 137);
    Row4();
    RowExtends(p4, k4, PRIMES4, ROW4, 179);
    Row5();
    RowExtends(p5, k5, PRIMES5, ROW5, 227);
    Row6();
    RowExtends(p6, k6, PRIMES6, ROW6, 269);
    Row7();
    RowExtends(p7, k7, PRIMES7, ROW7, 313);
    assert p8 == PRIMES && k8 == ROUND_CONSTANTS;
  }

  lemma PrimesAreThoseBelow313(n: nat)
    ensures n in PRIMES <==> n < 313 && IsPrime(n)
  {
    hide Sieved, RowHolds, CubeRootFraction;
    Primes0(n);
    Primes1(n);
    Primes2(n);
    Primes3(n);
    Primes4(n);
    Primes5(n);
    Primes6(n);
    Primes7(n);
    assert n in PRIMES <==> 2 <= n < 313 && Sieved(n);
    if 2 <= n < 313 {
      SievedIff(n);
    }
  }
}
