/** SHA-256 over a byte string: the in-place computation and the definition in sections 4 to 6 of FIPS 180-4. */
module Sha256 {
  import opened Remainders
  import opened Sha256Constants
  import Hexadecimal

  newtype Byte = x: int | 0 <= x < 256

  /** The eight words that are the hash value and, within a block, the working variables. */
  datatype Words8 = Words8(a: Word, b: Word, c: Word, d: Word, e: Word, f: Word, g: Word, h: Word)

  const INITIAL: Words8 := Words8(
    0x6a09e667, 0xbb67ae85, 0x3c6ef372, 0xa54ff53a, 0x510e527f, 0x9b05688c, 0x1f83d9ab, 0x5be0cd19)

  // ----- Section 4: functions

  function Add(x: Word, y: Word): Word {
    x + y
  }

  /** The sum of four words, all modulo 2^32. */
  function Sum4(p: Word, q: Word, r: Word, s: Word): Word {
    p + q + r + s
  }

  function RotateRight(x: Word, n: bv6): Word
    requires 0 < n < 32
  {
    (x >> n) | (x << (32 - n))
  }

  function Choice(x: Word, y: Word, z: Word): Word {
    (x & y) ^ (!x & z)
  }

  function Majority(x: Word, y: Word, z: Word): Word {
    (x & y) ^ (x & z) ^ (y & z)
  }

  function BigSigma0(x: Word): Word {
    RotateRight(x, 2) ^ RotateRight(x, 13) ^ RotateRight(x, 22)
  }

  function BigSigma1(x: Word): Word {
    RotateRight(x, 6) ^ RotateRight(x, 11) ^ RotateRight(x, 25)
  }

  function SmallSigma0(x: Word): Word {
    RotateRight(x, 7) ^ RotateRight(x, 18) ^ (x >> 3)
  }

  function SmallSigma1(x: Word): Word {
    RotateRight(x, 17) ^ RotateRight(x, 19) ^ (x >> 10)
  }

  // ----- Section 4.2.2 and 5.3.3: constants

  /** `k` is the first 32 bits of the fractional part of the square root of `p`. */
  predicate SquareRootFraction(p: nat, k: Word) {
    var root := IntegerSquareRoot(p) * 0x1_0000_0000 + k as nat;
    root * root <= p * 0x1_0000_0000_0000_0000 < (root + 1) * (root + 1)
  }

  function IntegerSquareRoot(p: nat): nat {
    if p < 4 then 1 else if p < 9 then 2 else if p < 16 then 3 else 4
  }

  /** The initial hash value is the standard's: fractional parts of the square roots of the first eight primes. */
  lemma InitialWords()
    ensures SquareRootFraction(2, INITIAL.a) && SquareRootFraction(3, INITIAL.b)
    ensures SquareRootFraction(5, INITIAL.c) && SquareRootFraction(7, INITIAL.d)
    ensures SquareRootFraction(11, INITIAL.e) && SquareRootFraction(13, INITIAL.f)
    ensures SquareRootFraction(17, INITIAL.g) && SquareRootFraction(19, INITIAL.h)
  {
  }

  // ----- Section 5.1.1: padding

  const WIDTH64: nat := 0x1_0000_0000_0000_0000

  /** The low `k` bytes of `n`, most significant first. */
  function BigEndian(n: nat, k: nat): (bytes: seq<Byte>)
    ensures |bytes| == k
  {
    if k == 0 then [] else BigEndian(n / 256, k - 1) + [(n % 256) as Byte]
  }

  function Zeros(k: nat): (bytes: seq<Byte>)
    ensures |bytes| == k
  {
    seq(k, i => 0)
  }

  /** How many zero bytes separate the marker of a message of `n` bytes from its length. */
  function ZeroCount(n: nat): nat {
    (55 - n) % 64
  }

  function Padded(message: seq<Byte>): seq<Byte> {
    message + [0x80] + Zeros(ZeroCount(|message|)) + BigEndian(8 * |message|, 8)
  }

  /** Counted in bits, the padding is the one the standard asks for: the marker bit is followed by the fewest zero bits
      that leave room for the length, and whole blocks result. */
  lemma PaddingIsLeast(message: seq<Byte>, k: nat)
    requires (8 * |message| + 1 + k) % 512 == 448
    ensures var zeroBits := 7 + 8 * ZeroCount(|message|);
            (8 * |message| + 1 + zeroBits) % 512 == 448 && zeroBits <= k
  {
    hide ZeroCount;
    var n, z := |message|, ZeroCount(|message|);
    var q := (8 * n + 1 + k) / 512;
    assert 8 * n + 1 + k == 512 * q + 448;
    var j := 64 * q + 55 - n;
    assert k == 8 * j + 7;
    RemainderUnique(n + j, 64, q, 55);
    ZeroCountLeast(n, j);
    ZeroCountFits(n);
    PaddedBits(n + z);
  }

  lemma PaddedBits(m: nat)
    requires m % 64 == 55
    ensures (8 * m + 8) % 512 == 448
  {
    RemainderUnique(8 * m + 8, 512, m / 64, 448);
  }

  lemma ZeroCountFits(n: nat)
    ensures (n + ZeroCount(n)) % 64 == 55
  {
  }

  lemma ZeroCountLeast(n: nat, j: nat)
    requires (n + j) % 64 == 55
    ensures ZeroCount(n) <= j
  {
    assert (j - (55 - n)) % 64 == 0;
    assert j % 64 == ZeroCount(n);
  }

  function Power256(k: nat): (p: nat)
    ensures p > 0
  {
    if k == 0 then 1 else 256 * Power256(k - 1)
  }

  lemma {:induction false} BigEndianInjective(m: nat, n: nat, k: nat)
    requires BigEndian(m, k) == BigEndian(n, k)
    ensures m % Power256(k) == n % Power256(k)
  {
    if k > 0 {
      var s, t := BigEndian(m, k), BigEndian(n, k);
      assert s[..k - 1] == BigEndian(m / 256, k - 1) && t[..k - 1] == BigEndian(n / 256, k - 1);
      assert s[k - 1] == (m % 256) as Byte && t[k - 1] == (n % 256) as Byte;
      BigEndianInjective(m / 256, n / 256, k - 1);
      SplitModulo(m, Power256(k - 1));
      SplitModulo(n, Power256(k - 1));
    }
  }

  lemma SplitModulo(n: nat, p: nat)
    requires p > 0
    ensures n % (256 * p) == 256 * ((n / 256) % p) + n % 256
  {
    var q := n / 256;
    var r := 256 * (q % p) + n % 256;
    assert q == p * (q / p) + q % p;
    assert n == (256 * p) * (q / p) + r;
    assert q % p <= p - 1;
    RemainderUnique(n, 256 * p, q / p, r);
  }

  lemma DivideTwice(n: nat, p: nat)
    requires p > 0
    ensures n / 256 / p == n / (256 * p)
  {
    SplitModulo(n, p);
    var q := n / 256;
    assert q == p * (q / p) + q % p;
    RemainderUnique(n, 256 * p, q / p, n % (256 * p));
  }

  lemma {:induction false} BigEndianAt(n: nat, k: nat, i: nat)
    requires i < k
    ensures BigEndian(n, k)[i] as int == n / Power256(k - 1 - i) % 256
  {
    if i < k - 1 {
      BigEndianAt(n / 256, k - 1, i);
      DivideTwice(n, Power256(k - 2 - i));
    }
  }

  /** Only the low bytes matter, so a length that wraps at 64 bits is written as the standard's low 64 bits. */
  lemma {:induction false} BigEndianOfLow(n: nat, k: nat)
    ensures BigEndian(n % Power256(k), k) == BigEndian(n, k)
  {
    if k > 0 {
      var p := Power256(k - 1);
      SplitModulo(n, p);
      var low := n % (256 * p);
      assert low / 256 == n / 256 % p && low % 256 == n % 256;
      BigEndianOfLow(n / 256, k - 1);
    }
  }

  /** Different messages, of whatever lengths, are padded differently. */
  lemma PaddingInjective(m: seq<Byte>, n: seq<Byte>)
    requires Padded(m) == Padded(n)
    ensures m == n
  {
    var p, q := Padded(m), Padded(n);
    assert p[|p| - 8..] == BigEndian(8 * |m|, 8) && q[|q| - 8..] == BigEndian(8 * |n|, 8);
    BigEndianInjective(8 * |m|, 8 * |n|, 8);
    assert Power256(8) == WIDTH64;
    SameLength(|m|, |n|);
    assert p[..|m|] == m && q[..|n|] == n;
  }

  lemma SameLength(m: nat, n: nat)
    requires m + ZeroCount(m) == n + ZeroCount(n) && (8 * m) % WIDTH64 == (8 * n) % WIDTH64
    ensures m == n
  {
    var a, b := 8 * m / WIDTH64, 8 * n / WIDTH64;
    assert 8 * m == WIDTH64 * a + 8 * m % WIDTH64 && 8 * n == WIDTH64 * b + 8 * n % WIDTH64;
    assert -64 < m - n < 64;
    assert 8 * (m - n) == WIDTH64 * (a - b);
    SmallMultiple(WIDTH64, a - b);
  }

  // ----- Section 6.2: hash computation

  /** Four bytes, most significant first. */
  function JoinBytes(b0: Byte, b1: Byte, b2: Byte, b3: Byte): Word {
    (b0 as Word << 24) | (b1 as Word << 16) | (b2 as Word << 8) | b3 as Word
  }

  /** Word `i` of a block, most significant byte first. */
  function BlockWord(block: seq<Byte>, i: nat): Word
    requires 4 * i + 4 <= |block|
  {
    JoinBytes(block[4 * i], block[4 * i + 1], block[4 * i + 2], block[4 * i + 3])
  }

  /** A scheduled word from those 2, 7, 15 and 16 places before it. */
  function NextWord(w2: Word, w7: Word, w15: Word, w16: Word): Word {
    Sum4(SmallSigma1(w2), w7, SmallSigma0(w15), w16)
  }

  function Schedule(block: seq<Byte>, t: nat): Word
    requires |block| == 64
  {
    if t < 16 then BlockWord(block, t)
    else NextWord(Schedule(block, t - 2), Schedule(block, t - 7), Schedule(block, t - 15), Schedule(block, t - 16))
  }

  function Round(v: Words8, k: Word, w: Word): Words8 {
    var t1 := Add(Add(Add(Add(v.h, BigSigma1(v.e)), Choice(v.e, v.f, v.g)), k), w);
    var t2 := Add(BigSigma0(v.a), Majority(v.a, v.b, v.c));
    Words8(Add(t1, t2), v.a, v.b, v.c, Add(v.d, t1), v.e, v.f, v.g)
  }

  function Rounds(v: Words8, block: seq<Byte>, t: nat): Words8
    requires |block| == 64 && t <= 64
  {
    if t == 0 then v
    else Round(Rounds(v, block, t - 1), ROUND_CONSTANTS[t - 1], Schedule(block, t - 1))
  }

  function Plus(v: Words8, w: Words8): Words8 {
    Words8(
      Add(v.a, w.a), Add(v.b, w.b), Add(v.c, w.c), Add(v.d, w.d),
      Add(v.e, w.e), Add(v.f, w.f), Add(v.g, w.g), Add(v.h, w.h))
  }

  function Compress(v: Words8, block: seq<Byte>): Words8
    requires |block| == 64
  {
    Plus(v, Rounds(v, block, 64))
  }

  /** The hash value after the first `i` blocks. */
  function HashBlocks(message: seq<Byte>, i: nat): Words8
    requires 64 * i <= |message|
  {
    if i == 0 then INITIAL else Compress(HashBlocks(message, i - 1), message[64 * (i - 1)..64 * i])
  }

  // ----- Lower-case hexadecimal

  /** The low `k` hexadecimal digits of `n`, padded with zeros. */
  function Hex(n: nat, k: nat): (s: string)
    ensures |s| == k
    ensures forall i :: 0 <= i < k ==> '0' <= s[i] <= '9' || 'a' <= s[i] <= 'f'
  {
    if k == 0 then "" else Hex(n / 16, k - 1) + [Hexadecimal.LowerDigit(n % 16)]
  }

  function Number(w: Word): (n: nat)
    ensures n < 0x1_0000_0000
  {
    w as nat
  }

  function HexOfWords(words: seq<Word>): (s: string)
    ensures |s| == 8 * |words|
    ensures forall i :: 0 <= i < |s| ==> '0' <= s[i] <= '9' || 'a' <= s[i] <= 'f'
  {
    if words == [] then "" else HexOfWords(words[..|words| - 1]) + Hex(Number(words[|words| - 1]), 8)
  }

  function Power16(k: nat): nat {
    if k == 0 then 1 else 16 * Power16(k - 1)
  }

  lemma {:induction false} HexInjective(m: nat, n: nat, k: nat)
    requires m < Power16(k) && n < Power16(k) && Hex(m, k) == Hex(n, k)
    ensures m == n
  {
    if k > 0 {
      var s, t := Hex(m, k), Hex(n, k);
      assert s[..k - 1] == Hex(m / 16, k - 1) && t[..k - 1] == Hex(n / 16, k - 1);
      assert s[k - 1] == Hexadecimal.LowerDigit(m % 16) && t[k - 1] == Hexadecimal.LowerDigit(n % 16);
      HexInjective(m / 16, n / 16, k - 1);
    }
  }

  lemma NumberInjective(v: Word, w: Word)
    requires Number(v) == Number(w)
    ensures v == w
  {
    assert Number(v) as Word == v && Number(w) as Word == w;
  }

  lemma Power16Eight()
    ensures Power16(8) == 0x1_0000_0000
  {
  }

  lemma HexOfWordInjective(v: Word, w: Word)
    requires Hex(Number(v), 8) == Hex(Number(w), 8)
    ensures v == w
  {
    hide Hex, Number;
    Power16Eight();
    HexInjective(Number(v), Number(w), 8);
    NumberInjective(v, w);
  }

  /** The hexadecimal text determines the words. */
  lemma {:induction false} HexOfWordsInjective(v: seq<Word>, w: seq<Word>)
    requires HexOfWords(v) == HexOfWords(w)
    ensures v == w
  {
    hide Hex, Number;
    if v != [] {
      var n := |v| - 1;
      var s, t := HexOfWords(v), HexOfWords(w);
      assert s[..8 * n] == HexOfWords(v[..n]) && t[..8 * n] == HexOfWords(w[..n]);
      assert s[8 * n..] == Hex(Number(v[n]), 8) && t[8 * n..] == Hex(Number(w[n]), 8);
      HexOfWordsInjective(v[..n], w[..n]);
      HexOfWordInjective(v[n], w[n]);
      assert v == v[..n] + [v[n]] && w == w[..n] + [w[n]];
    }
  }

  function WordsOf(v: Words8): (s: seq<Word>)
    ensures |s| == 8
  {
    [v.a, v.b, v.c, v.d, v.e, v.f, v.g, v.h]
  }

  /** The digest of a message in hexadecimal, by the standard. */
  function Digest(message: seq<Byte>): (s: string)
    ensures |s| == 64 && forall i :: 0 <= i < |s| ==> '0' <= s[i] <= '9' || 'a' <= s[i] <= 'f'
  {
    PaddedBlocks(message);
    var padded := Padded(message);
    HexOfWords(WordsOf(HashBlocks(padded, |padded| / 64)))
  }

  lemma PaddedBlocks(message: seq<Byte>)
    ensures |Padded(message)| % 64 == 0
  {
    assert (|message| + ZeroCount(|message|)) % 64 == 55;
  }

  // ----- The computation in place

  lemma ZerosEnd(n: nat, zeros: nat)
    requires zeros <= ZeroCount(n)
    ensures (n + 1 + zeros) % 64 == 56 <==> zeros == ZeroCount(n)
  {
  }

  lemma ZerosStep(k: nat)
    ensures Zeros(0) == [] && Zeros(k + 1) == Zeros(k) + [0]
  {
  }

  method PadMessage(input: seq<Byte>) returns (message: seq<Byte>)
    ensures message == Padded(input)
  {
    hide Zeros, BigEndian, ZeroCount;
    ZerosStep(0);
    message := input;
    var bitLength: nat := |message| * 8 % WIDTH64;
    message := message + [0x80];
    ghost var zeros := 0;
    while |message| % 64 != 56
      invariant message == input + [0x80] + Zeros(zeros) && zeros <= ZeroCount(|input|)
      decreases ZeroCount(|input|) - zeros
    {
      ZerosEnd(|input|, zeros);
      ZerosStep(zeros);
      message := message + [0];
      zeros := zeros + 1;
    }
    ZerosEnd(|input|, zeros);
    message := AppendLength(message, bitLength);
    assert Power256(8) == WIDTH64;
    BigEndianOfLow(8 * |input|, 8);
  }

  method AppendLength(body: seq<Byte>, bitLength: nat) returns (message: seq<Byte>)
    ensures message == body + BigEndian(bitLength, 8)
  {
    hide BigEndian;
    message := body;
    ghost var length := BigEndian(bitLength, 8);
    var shift := 56;
    while shift >= 0
      invariant -8 <= shift <= 56 && shift % 8 == 0 && message == body + length[..7 - shift / 8]
    {
      BigEndianAt(bitLength, 8, 7 - shift / 8);
      message := message + [(bitLength / Power256(shift / 8) % 256) as Byte];
      shift := shift - 8;
    }
    assert length[..8] == length;
  }

  lemma BlockWordAt(message: seq<Byte>, offset: nat, i: nat)
    requires offset + 64 <= |message| && i < 16
    ensures BlockWord(message[offset..offset + 64], i)
         == JoinBytes(message[offset + i * 4], message[offset + i * 4 + 1],
                      message[offset + i * 4 + 2], message[offset + i * 4 + 3])
  {
    hide JoinBytes;
    var block := message[offset..offset + 64];
    assert block[4 * i] == message[offset + i * 4] && block[4 * i + 1] == message[offset + i * 4 + 1];
    assert block[4 * i + 2] == message[offset + i * 4 + 2] && block[4 * i + 3] == message[offset + i * 4 + 3];
  }

  method WordBefore(w2: Word, w7: Word, w15: Word, w16: Word) returns (w: Word)
    ensures w == NextWord(w2, w7, w15, w16)
  {
    hide RotateRight, Sum4;
    var s0 := RotateRight(w15, 7) ^ RotateRight(w15, 18) ^ (w15 >> 3);
    var s1 := RotateRight(w2, 17) ^ RotateRight(w2, 19) ^ (w2 >> 10);
    w := Sum4(w16, s0, w7, s1);
    SumOrder(w16, s0, w7, s1);
  }

  lemma SumOrder(p: Word, q: Word, r: Word, s: Word)
    ensures Sum4(p, q, r, s) == Sum4(s, r, q, p)
  {
    assert p + q + r + s == s + r + q + p;
  }

  lemma ScheduleStart(block: seq<Byte>, t: nat)
    requires |block| == 64 && t < 16
    ensures Schedule(block, t) == BlockWord(block, t)
  {
  }

  lemma ScheduleStep(block: seq<Byte>, t: nat)
    requires |block| == 64 && t >= 16
    ensures Schedule(block, t)
         == NextWord(Schedule(block, t - 2), Schedule(block, t - 7), Schedule(block, t - 15), Schedule(block, t - 16))
  {
  }

  /** The message schedule of the block at `offset`. */
  method ExpandBlock(message: seq<Byte>, offset: nat) returns (words: array<Word>)
    requires offset + 64 <= |message|
    ensures fresh(words) && words.Length == 64
    ensures forall t :: 0 <= t < 64 ==> words[t] == Schedule(message[offset..offset + 64], t)
  {
    hide BlockWord, JoinBytes, NextWord, Schedule;
    words := new Word[64];
    ghost var block := message[offset..offset + 64];
    for index := 0 to 16
      invariant forall t :: 0 <= t < index ==> words[t] == Schedule(block, t)
    {
      var base := offset + index * 4;
      BlockWordAt(message, offset, index);
      ScheduleStart(block, index);
      words[index] := JoinBytes(message[base], message[base + 1], message[base + 2], message[base + 3]);
    }
    for index := 16 to 64
      invariant forall t :: 0 <= t < index ==> words[t] == Schedule(block, t)
    {
      ScheduleStep(block, index);
      words[index] := WordBefore(words[index - 2], words[index - 7], words[index - 15], words[index - 16]);
    }
  }

  function StateOf(s: seq<Word>): Words8
    requires |s| == 8
  {
    Words8(s[0], s[1], s[2], s[3], s[4], s[5], s[6], s[7])
  }

  method RunRounds(
    a0: Word, b0: Word, c0: Word, d0: Word, e0: Word, f0: Word, g0: Word, h0: Word,
    words: array<Word>, ghost block: seq<Byte>)
    returns (a: Word, b: Word, c: Word, d: Word, e: Word, f: Word, g: Word, h: Word)
    requires words.Length == 64 && |block| == 64
    requires forall t :: 0 <= t < 64 ==> words[t] == Schedule(block, t)
    ensures Words8(a, b, c, d, e, f, g, h) == Rounds(Words8(a0, b0, c0, d0, e0, f0, g0, h0), block, 64)
  {
    hide Schedule, RotateRight, Add;
    ghost var start := Words8(a0, b0, c0, d0, e0, f0, g0, h0);
    a, b, c, d, e, f, g, h := a0, b0, c0, d0, e0, f0, g0, h0;
    for index := 0 to 64
      invariant Words8(a, b, c, d, e, f, g, h) == Rounds(start, block, index)
    {
      var s1 := RotateRight(e, 6) ^ RotateRight(e, 11) ^ RotateRight(e, 25);
      var choice := (e & f) ^ (!e & g);
      var temp1 := Add(Add(Add(Add(h, s1), choice), ROUND_CONSTANTS[index]), words[index]);
      var s0 := RotateRight(a, 2) ^ RotateRight(a, 13) ^ RotateRight(a, 22);
      var majority := (a & b) ^ (a & c) ^ (b & c);
      var temp2 := Add(s0, majority);
      h := g;
      g := f;
      f := e;
      e := Add(d, temp1);
      d := c;
      c := b;
      b := a;
      a := Add(temp1, temp2);
    }
  }

  /** One block's compression of the state, in place. */
  method CompressBlock(state: array<Word>, words: array<Word>, ghost block: seq<Byte>)
    requires state.Length == 8 && words.Length == 64 && state != words && |block| == 64
    requires forall t :: 0 <= t < 64 ==> words[t] == Schedule(block, t)
    modifies state
    ensures StateOf(state[..]) == Compress(StateOf(old(state[..])), block)
  {
    hide Rounds, Add, Schedule;
    var a, b, c, d, e, f, g, h := RunRounds(
      state[0], state[1], state[2], state[3], state[4], state[5], state[6], state[7], words, block);
    state[0] := Add(state[0], a);
    state[1] := Add(state[1], b);
    state[2] := Add(state[2], c);
    state[3] := Add(state[3], d);
    state[4] := Add(state[4], e);
    state[5] := Add(state[5], f);
    state[6] := Add(state[6], g);
    state[7] := Add(state[7], h);
  }

  lemma NoBlocks(message: seq<Byte>)
    ensures HashBlocks(message, 0) == INITIAL
  {
  }

  lemma NextBlock(message: seq<Byte>, offset: nat)
    requires offset % 64 == 0 && offset + 64 <= |message|
    ensures HashBlocks(message, (offset + 64) / 64)
         == Compress(HashBlocks(message, offset / 64), message[offset..offset + 64])
  {
    hide Compress;
    assert (offset + 64) / 64 == offset / 64 + 1 && 64 * (offset / 64) == offset;
  }

  /** The digest computed in place is the digest of the standard. */
  method ComputeSha256Hex(input: seq<Byte>) returns (hex: string)
    ensures hex == Digest(input)
  {
    hide Compress, Padded, Schedule, Hex, HexOfWords, HashBlocks;
    var state := new Word[] [
      0x6a09e667, 0xbb67ae85, 0x3c6ef372, 0xa54ff53a, 0x510e527f, 0x9b05688c, 0x1f83d9ab, 0x5be0cd19];
    var message := PadMessage(input);
    PaddedBlocks(input);
    NoBlocks(message);
    var offset := 0;
    while offset < |message|
      invariant 0 <= offset <= |message| && offset % 64 == 0
      invariant StateOf(state[..]) == HashBlocks(message, offset / 64)
    {
      NextBlock(message, offset);
      var words := ExpandBlock(message, offset);
      CompressBlock(state, words, message[offset..offset + 64]);
      offset := offset + 64;
    }
    assert state[..] == WordsOf(StateOf(state[..]));
    hex := RenderHex(state);
  }

  method RenderHex(state: array<Word>) returns (hex: string)
    ensures hex == HexOfWords(state[..])
  {
    hide Hex, Number;
    hex := "";
    for i := 0 to state.Length
      invariant hex == HexOfWords(state[..i])
    {
      assert state[..i + 1][..i] == state[..i];
      hex := hex + Hex(Number(state[i]), 8);
    }
    assert state[..state.Length] == state[..];
  }
}
