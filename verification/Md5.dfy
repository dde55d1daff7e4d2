/** The MD5 of a page: RFC 1321 written out as the standard gives it, and the loop over tables that computes it. */
module Md5 {

  type Byte = x: int | 0 <= x < 256

  datatype Four<W> = Regs(a: W, b: W, c: W, d: W)

  type Regs = Four<bv32>

  // Section 3.1 and 3.2 of RFC 1321: padding and length.

  function Zeros(n: nat): (s: seq<Byte>)
    ensures |s| == n && forall i | 0 <= i < n :: s[i] == 0
  {
    seq(n, i => 0)
  }

  /** The low n bytes of x, least significant first. */
  function LittleEndian(x: nat, n: nat): (s: seq<Byte>)
    ensures |s| == n
  {
    if n == 0 then [] else [x % 256] + LittleEndian(x / 256, n - 1)
  }

  /** A length in bytes the message can be padded to: one byte at least is added, and eight are left in the last block. */
  predicate PaddedLength(len: nat, n: nat) {
    n > len && n % 64 == 56
  }

  ghost predicate LeastPaddedLength(len: nat, n: nat) {
    PaddedLength(len, n) && forall m | PaddedLength(len, m) :: n <= m
  }

  /** The padded message of the standard: a single one bit, zeros, and the length in bits as 64 bits. */
  function RfcPadded(m: seq<Byte>, n: nat): seq<Byte>
    requires PaddedLength(|m|, n)
  {
    m + [128] + Zeros(n - |m| - 1) + LittleEndian(8 * |m|, 8)
  }

  // Section 3.4: the four rounds, operation by operation.

  function F(x: bv32, y: bv32, z: bv32): bv32 { (x & y) | (!x & z) }
  function G(x: bv32, y: bv32, z: bv32): bv32 { (x & z) | (y & !z) }
  function H(x: bv32, y: bv32, z: bv32): bv32 { x ^ y ^ z }
  function I(x: bv32, y: bv32, z: bv32): bv32 { y ^ (x | !z) }

  /** In every bit F takes y where x is set and z elsewhere. */
  lemma FChooses(x: bv32, y: bv32, z: bv32)
    ensures F(x, y, z) & x == y & x && F(x, y, z) & !x == z & !x
  {
  }

  /** G takes x where z is set and y elsewhere. */
  lemma GChooses(x: bv32, y: bv32, z: bv32)
    ensures G(x, y, z) & z == x & z && G(x, y, z) & !z == y & !z
  {
  }

  /** H is set where an odd number of them is, and I differs from y where x is set or z is not. */
  lemma HAndI(x: bv32, y: bv32, z: bv32)
    ensures H(x, y, z) ^ z == x ^ y && I(x, y, z) ^ y == !(!x & z)
  {
  }

  /** The word of the block operation i takes, as the standard lists them. */
  function RfcWord(i: nat): (k: nat)
    requires i < 64
    ensures k < 16
  {
    var j := i % 16;
    if i < 16 then j
    else if i < 32 then
      if j == 0 then 1 else if j == 1 then 6 else if j == 2 then 11 else if j == 3 then 0
      else if j == 4 then 5 else if j == 5 then 10 else if j == 6 then 15 else if j == 7 then 4
      else if j == 8 then 9 else if j == 9 then 14 else if j == 10 then 3 else if j == 11 then 8
      else if j == 12 then 13 else if j == 13 then 2 else if j == 14 then 7 else 12
    else if i < 48 then
      if j == 0 then 5 else if j == 1 then 8 else if j == 2 then 11 else if j == 3 then 14
      else if j == 4 then 1 else if j == 5 then 4 else if j == 6 then 7 else if j == 7 then 10
      else if j == 8 then 13 else if j == 9 then 0 else if j == 10 then 3 else if j == 11 then 6
      else if j == 12 then 9 else if j == 13 then 12 else if j == 14 then 15 else 2
    else
      if j == 0 then 0 else if j == 1 then 7 else if j == 2 then 14 else if j == 3 then 5
      else if j == 4 then 12 else if j == 5 then 3 else if j == 6 then 10 else if j == 7 then 1
      else if j == 8 then 8 else if j == 9 then 15 else if j == 10 then 6 else if j == 11 then 13
      else if j == 12 then 4 else if j == 13 then 11 else if j == 14 then 2 else 9
  }

  /** The shift of operation i. */
  function RfcShift(i: nat): (s: bv32)
    requires i < 64
    ensures 4 <= s <= 23
  {
    var j := i % 4;
    if i < 16 then if j == 0 then 7 else if j == 1 then 12 else if j == 2 then 17 else 22
    else if i < 32 then if j == 0 then 5 else if j == 1 then 9 else if j == 2 then 14 else 20
    else if i < 48 then if j == 0 then 4 else if j == 1 then 11 else if j == 2 then 16 else 23
    else if j == 0 then 6 else if j == 1 then 10 else if j == 2 then 15 else 21
  }

  function RfcFunction(i: nat, x: bv32, y: bv32, z: bv32): bv32
    requires i < 64
  {
    if i < 16 then F(x, y, z) else if i < 32 then G(x, y, z) else if i < 48 then H(x, y, z) else I(x, y, z)
  }

  /** The table of sines, from T[1] on, one list a round. */
  const T: seq<bv32> := T1 + T2 + T3 + T4

  const T1: seq<bv32> := [
    0xd76aa478, 0xe8c7b756, 0x242070db, 0xc1bdceee, 0xf57c0faf, 0x4787c62a, 0xa8304613, 0xfd469501,
    0x698098d8, 0x8b44f7af, 0xffff5bb1, 0x895cd7be, 0x6b901122, 0xfd987193, 0xa679438e, 0x49b40821]

  const T2: seq<bv32> := [
    0xf61e2562, 0xc040b340, 0x265e5a51, 0xe9b6c7aa, 0xd62f105d, 0x02441453, 0xd8a1e681, 0xe7d3fbc8,
    0x21e1cde6, 0xc33707d6, 0xf4d50d87, 0x455a14ed, 0xa9e3e905, 0xfcefa3f8, 0x676f02d9, 0x8d2a4c8a]

  const T3: seq<bv32> := [
    0xfffa3942, 0x8771f681, 0x6d9d6122, 0xfde5380c, 0xa4beea44, 0x4bdecfa9, 0xf6bb4b60, 0xbebfbc70,
    0x289b7ec6, 0xeaa127fa, 0xd4ef3085, 0x04881d05, 0xd9d4d039, 0xe6db99e5, 0x1fa27cf8, 0xc4ac5665]

  const T4: seq<bv32> := [
    0xf4292244, 0x432aff97, 0xab9423a7, 0xfc93a039, 0x655b59c3, 0x8f0ccc92, 0xffeff47d, 0x85845dd1,
    0x6fa87e4f, 0xfe2ce6e0, 0xa3014314, 0x4e0811a1, 0xf7537e82, 0xbd3af235, 0x2ad7d2bb, 0xeb86d391]

  lemma TableLength()
    ensures |T| == 64
  {
  }

  function Add(x: bv32, y: bv32): bv32 { x + y }
  function Sum(a: bv32, f: bv32, x: bv32, t: bv32): bv32 { a + f + x + t }

  /** X <<< s, the way appendix A.3 of the standard writes it, too. */
  function LeftRotate(x: bv32, s: bv32): bv32
    requires s <= 32
  {
    (x << s) | (x >> (32 - s))
  }

  // The operations on words, against arithmetic: sums are modulo 2^32, and what a rotation pushes out comes in again below.

  lemma SumsAreModular(a: bv32, f: bv32, x: bv32, t: bv32)
    ensures Add(a, f) as bv64 == (a as bv64 + f as bv64) % 0x1_0000_0000
    ensures Sum(a, f, x, t) as bv64 == (a as bv64 + f as bv64 + x as bv64 + t as bv64) % 0x1_0000_0000
  {
  }

  lemma StatesAdd(r: Regs, s: Regs)
    ensures Plus(r, s).a as bv64 == (r.a as bv64 + s.a as bv64) % 0x1_0000_0000
    ensures Plus(r, s).b as bv64 == (r.b as bv64 + s.b as bv64) % 0x1_0000_0000
    ensures Plus(r, s).c as bv64 == (r.c as bv64 + s.c as bv64) % 0x1_0000_0000
    ensures Plus(r, s).d as bv64 == (r.d as bv64 + s.d as bv64) % 0x1_0000_0000
  {
    SumsAreModular(r.a, s.a, 0, 0);
    SumsAreModular(r.b, s.b, 0, 0);
    SumsAreModular(r.c, s.c, 0, 0);
    SumsAreModular(r.d, s.d, 0, 0);
    hide Add;
  }

  lemma RotationsAreArithmetic(x: bv32)
    ensures LeftRotate(x, 7) == x * 0x80 + x / 0x200_0000 && LeftRotate(x, 12) == x * 0x1000 + x / 0x10_0000
    ensures LeftRotate(x, 17) == x * 0x2_0000 + x / 0x8000 && LeftRotate(x, 22) == x * 0x40_0000 + x / 0x400
    ensures LeftRotate(x, 5) == x * 0x20 + x / 0x800_0000 && LeftRotate(x, 9) == x * 0x200 + x / 0x80_0000
    ensures LeftRotate(x, 14) == x * 0x4000 + x / 0x4_0000 && LeftRotate(x, 20) == x * 0x10_0000 + x / 0x1000
    ensures LeftRotate(x, 4) == x * 0x10 + x / 0x1000_0000 && LeftRotate(x, 11) == x * 0x800 + x / 0x20_0000
    ensures LeftRotate(x, 16) == x * 0x1_0000 + x / 0x1_0000 && LeftRotate(x, 23) == x * 0x80_0000 + x / 0x200
    ensures LeftRotate(x, 6) == x * 0x40 + x / 0x400_0000 && LeftRotate(x, 10) == x * 0x400 + x / 0x40_0000
    ensures LeftRotate(x, 15) == x * 0x8000 + x / 0x2_0000 && LeftRotate(x, 21) == x * 0x20_0000 + x / 0x800
  {
    hide LeftRotate;
    RotateBy7And12(x);
    RotateBy17And22(x);
    RotateBy5And9(x);
    RotateBy14And20(x);
    RotateBy4And11(x);
    RotateBy16And23(x);
    RotateBy6And10(x);
    RotateBy15And21(x);
  }

  lemma RotateBy7And12(x: bv32)
    ensures LeftRotate(x, 7) == x * 0x80 + x / 0x200_0000 && LeftRotate(x, 12) == x * 0x1000 + x / 0x10_0000
  {
  }

  lemma RotateBy17And22(x: bv32)
    ensures LeftRotate(x, 17) == x * 0x2_0000 + x / 0x8000 && LeftRotate(x, 22) == x * 0x40_0000 + x / 0x400
  {
  }

  lemma RotateBy5And9(x: bv32)
    ensures LeftRotate(x, 5) == x * 0x20 + x / 0x800_0000 && LeftRotate(x, 9) == x * 0x200 + x / 0x80_0000
  {
  }

  lemma RotateBy14And20(x: bv32)
    ensures LeftRotate(x, 14) == x * 0x4000 + x / 0x4_0000 && LeftRotate(x, 20) == x * 0x10_0000 + x / 0x1000
  {
  }

  lemma RotateBy4And11(x: bv32)
    ensures LeftRotate(x, 4) == x * 0x10 + x / 0x1000_0000 && LeftRotate(x, 11) == x * 0x800 + x / 0x20_0000
  {
  }

  lemma RotateBy16And23(x: bv32)
    ensures LeftRotate(x, 16) == x * 0x1_0000 + x / 0x1_0000 && LeftRotate(x, 23) == x * 0x80_0000 + x / 0x200
  {
  }

  lemma RotateBy6And10(x: bv32)
    ensures LeftRotate(x, 6) == x * 0x40 + x / 0x400_0000 && LeftRotate(x, 10) == x * 0x400 + x / 0x40_0000
  {
  }

  lemma RotateBy15And21(x: bv32)
    ensures LeftRotate(x, 15) == x * 0x8000 + x / 0x2_0000 && LeftRotate(x, 21) == x * 0x20_0000 + x / 0x800
  {
  }

  /** [abcd k s i] of the standard: a = b + ((a + f(b, c, d) + X[k] + T[i]) <<< s). */
  function RfcOperation(i: nat, a: bv32, b: bv32, c: bv32, d: bv32, x: seq<bv32>): bv32
    requires i < 64 && |x| == 16
  {
    TableLength();
    Add(b, LeftRotate(Sum(a, RfcFunction(i, b, c, d), x[RfcWord(i)], T[i]), RfcShift(i)))
  }

  /** The register that comes first in the order takes a new value. */
  function NewValueIn<W>(order: nat, r: Four<W>, v: W): Four<W> {
    if order == 0 then r.(a := v)
    else if order == 1 then r.(d := v)
    else if order == 2 then r.(c := v)
    else r.(b := v)
  }

  /** Operation i, on the registers in the order ABCD, DABC, CDAB or BCDA. */
  function RfcStepIn(order: nat, r: Regs, i: nat, x: seq<bv32>): Regs
    requires i < 64 && |x| == 16
  {
    if order == 0 then NewValueIn(order, r, RfcOperation(i, r.a, r.b, r.c, r.d, x))
    else if order == 1 then NewValueIn(order, r, RfcOperation(i, r.d, r.a, r.b, r.c, x))
    else if order == 2 then NewValueIn(order, r, RfcOperation(i, r.c, r.d, r.a, r.b, x))
    else NewValueIn(order, r, RfcOperation(i, r.b, r.c, r.d, r.a, x))
  }

  /** The four orders come in turn. */
  function RfcStep(r: Regs, i: nat, x: seq<bv32>): Regs
    requires i < 64 && |x| == 16
  {
    RfcStepIn(i % 4, r, i, x)
  }

  function RfcSteps(r: Regs, n: nat, x: seq<bv32>): Regs
    requires n <= 64 && |x| == 16
  {
    if n == 0 then r else RfcStep(RfcSteps(r, n - 1, x), n - 1, x)
  }

  function Plus(r: Regs, s: Regs): Regs {
    Regs(Add(r.a, s.a), Add(r.b, s.b), Add(r.c, s.c), Add(r.d, s.d))
  }

  /** The number that stands at p, low-order byte first. */
  function NumberAt(m: seq<Byte>, p: nat): (x: nat)
    requires p + 4 <= |m|
    ensures x < 0x1_0000_0000
  {
    m[p] as int + 0x100 * (m[p + 1] as int) + 0x1_0000 * (m[p + 2] as int) + 0x100_0000 * (m[p + 3] as int)
  }

  function WordAt(m: seq<Byte>, p: nat): bv32
    requires p + 4 <= |m|
  {
    NumberAt(m, p) as bv32
  }

  function BlockAt(m: seq<Byte>, p: nat): (x: seq<bv32>)
    requires p + 64 <= |m|
    ensures |x| == 16
  {
    seq(16, j requires 0 <= j < 16 => WordAt(m, p + 4 * j))
  }

  lemma FourBytesOf(x: nat)
    requires x < 0x1_0000_0000
    ensures LittleEndian(x, 4) == [x % 256, x / 256 % 256, x / 0x1_0000 % 256, x / 0x100_0000]
  {
    var y, z := x / 256, x / 0x1_0000;
    assert LittleEndian(x, 4) == [x % 256] + LittleEndian(y, 3);
    assert LittleEndian(y, 3) == [y % 256] + LittleEndian(y / 256, 2);
    assert y / 256 == z && LittleEndian(z, 2) == [z % 256] + LittleEndian(z / 256, 1);
    assert z / 256 == x / 0x100_0000 && LittleEndian(z / 256, 1) == [z / 256 % 256] + LittleEndian(z / 256 / 256, 0);
  }

  lemma SumOfBytes(x: nat)
    ensures x % 256 + 0x100 * (x / 256 % 256) + 0x1_0000 * (x / 0x1_0000 % 256) + 0x100_0000 * (x / 0x100_0000) == x
  {
    var y, z, w := x / 256, x / 0x1_0000, x / 0x100_0000;
    assert z == y / 256;
    assert w == z / 256;
    assert x == 256 * y + x % 256;
    assert y == 256 * z + y % 256;
    assert z == 256 * w + z % 256;
  }

  lemma BytesHere(m: seq<Byte>, p: nat, x: nat)
    requires p + 4 <= |m| && x < 0x1_0000_0000 && m[p..p + 4] == LittleEndian(x, 4)
    ensures m[p] == x % 256 && m[p + 1] == x / 256 % 256 && m[p + 2] == x / 0x1_0000 % 256 && m[p + 3] == x / 0x100_0000
  {
    FourBytesOf(x);
    hide LittleEndian;
    assert m[p] == m[p..p + 4][0] && m[p + 1] == m[p..p + 4][1] && m[p + 2] == m[p..p + 4][2] && m[p + 3] == m[p..p + 4][3];
  }

  lemma NumberIs(m: seq<Byte>, p: nat, x: nat)
    requires p + 4 <= |m| && x < 0x1_0000_0000 && m[p..p + 4] == LittleEndian(x, 4)
    ensures NumberAt(m, p) == x
  {
    BytesHere(m, p, x);
    SumOfBytes(x);
    hide LittleEndian;
  }

  /** The word at p is the number whose bytes, low-order first, stand there. */
  lemma WordIsNumber(m: seq<Byte>, p: nat, x: nat)
    requires p + 4 <= |m| && x < 0x1_0000_0000 && m[p..p + 4] == LittleEndian(x, 4)
    ensures WordAt(m, p) == x as bv32
  {
    hide LittleEndian, NumberAt;
    NumberIs(m, p, x);
  }

  /** Word j of a block is the number whose bytes stand four times j behind its start. */
  lemma BlockHasNumber(m: seq<Byte>, p: nat, j: nat, x: nat)
    requires p + 64 <= |m| && j < 16 && x < 0x1_0000_0000 && m[p + 4 * j..p + 4 * j + 4] == LittleEndian(x, 4)
    ensures BlockAt(m, p)[j] == x as bv32
  {
    hide LittleEndian, WordAt;
    WordIsNumber(m, p + 4 * j, x);
  }

  const START: Regs := Regs(0x67452301, 0xefcdab89, 0x98badcfe, 0x10325476)

  /** The first n blocks of a padded message. */
  function RfcBlocks(m: seq<Byte>, n: nat): Regs
    requires 64 * n <= |m|
  {
    if n == 0 then START
    else
      var r := RfcBlocks(m, n - 1);
      Plus(r, RfcSteps(r, 64, BlockAt(m, 64 * (n - 1))))
  }

  // The loop's own way of doing it.

  function TableWord(i: nat): nat {
    if i < 16 then i else if i < 32 then (5 * i + 1) % 16 else if i < 48 then (3 * i + 5) % 16 else 7 * i % 16
  }

  /** The loop's own table of the same constants. */
  const K: seq<bv32> := K1 + K2 + K3 + K4

  const K1: seq<bv32> := [
    0xd76aa478, 0xe8c7b756, 0x242070db, 0xc1bdceee,
    0xf57c0faf, 0x4787c62a, 0xa8304613, 0xfd469501,
    0x698098d8, 0x8b44f7af, 0xffff5bb1, 0x895cd7be,
    0x6b901122, 0xfd987193, 0xa679438e, 0x49b40821]

  const K2: seq<bv32> := [
    0xf61e2562, 0xc040b340, 0x265e5a51, 0xe9b6c7aa,
    0xd62f105d, 0x02441453, 0xd8a1e681, 0xe7d3fbc8,
    0x21e1cde6, 0xc33707d6, 0xf4d50d87, 0x455a14ed,
    0xa9e3e905, 0xfcefa3f8, 0x676f02d9, 0x8d2a4c8a]

  const K3: seq<bv32> := [
    0xfffa3942, 0x8771f681, 0x6d9d6122, 0xfde5380c,
    0xa4beea44, 0x4bdecfa9, 0xf6bb4b60, 0xbebfbc70,
    0x289b7ec6, 0xeaa127fa, 0xd4ef3085, 0x04881d05,
    0xd9d4d039, 0xe6db99e5, 0x1fa27cf8, 0xc4ac5665]

  const K4: seq<bv32> := [
    0xf4292244, 0x432aff97, 0xab9423a7, 0xfc93a039,
    0x655b59c3, 0x8f0ccc92, 0xffeff47d, 0x85845dd1,
    0x6fa87e4f, 0xfe2ce6e0, 0xa3014314, 0x4e0811a1,
    0xf7537e82, 0xbd3af235, 0x2ad7d2bb, 0xeb86d391]

  lemma TablesAgree()
    ensures K == T && |K| == 64
  {
    TableLength();
    assert K1 == T1 && K2 == T2 && K3 == T3 && K4 == T4;
  }

  /** The table of shifts, row by row. */
  function TableShift(i: nat): bv32
    requires i < 64
  {
    if i in {0, 4, 8, 12} then 7 else if i in {1, 5, 9, 13} then 12
    else if i in {2, 6, 10, 14} then 17 else if i in {3, 7, 11, 15} then 22
    else if i in {16, 20, 24, 28} then 5 else if i in {17, 21, 25, 29} then 9
    else if i in {18, 22, 26, 30} then 14 else if i in {19, 23, 27, 31} then 20
    else if i in {32, 36, 40, 44} then 4 else if i in {33, 37, 41, 45} then 11
    else if i in {34, 38, 42, 46} then 16 else if i in {35, 39, 43, 47} then 23
    else if i in {48, 52, 56, 60} then 6 else if i in {49, 53, 57, 61} then 10
    else if i in {50, 54, 58, 62} then 15 else 21
  }

  lemma WordsAgree(i: nat)
    requires i < 64
    ensures TableWord(i) == RfcWord(i)
  {
    hide RfcWord;
    if i < 16 {
      FirstRoundWords(i);
    } else if i < 32 {
      SecondRoundWords(i - 16);
    } else if i < 48 {
      ThirdRoundWords(i - 32);
    } else {
      FourthRoundWords(i - 48);
    }
  }

  lemma FirstRoundWords(j: nat)
    requires j < 16
    ensures RfcWord(j) == j
  {
  }

  lemma SecondRoundWords(j: nat)
    requires j < 16
    ensures (5 * (16 + j) + 1) % 16 == RfcWord(16 + j)
  {
  }

  lemma ThirdRoundWords(j: nat)
    requires j < 16
    ensures (3 * (32 + j) + 5) % 16 == RfcWord(32 + j)
  {
  }

  lemma FourthRoundWords(j: nat)
    requires j < 16
    ensures 7 * (48 + j) % 16 == RfcWord(48 + j)
  {
  }

  lemma ShiftsAgree(i: nat)
    requires i < 64
    ensures TableShift(i) == RfcShift(i)
  {
  }

  function Choose(b: bv32, c: bv32, d: bv32): bv32 { (b & c) | (!b & d) }
  function Parity(b: bv32, c: bv32, d: bv32): bv32 { b ^ c ^ d }
  function Blend(b: bv32, c: bv32, d: bv32): bv32 { c ^ (b | !d) }

  /** The function the loop picks for operation i; the second one chooses by d. */
  function TableFunction(i: nat, b: bv32, c: bv32, d: bv32): bv32 {
    if i < 16 then Choose(b, c, d)
    else if i < 32 then Choose(d, b, c)
    else if i < 48 then Parity(b, c, d)
    else Blend(b, c, d)
  }

  lemma ChoiceByFirst(b: bv32, c: bv32, d: bv32)
    ensures Choose(b, c, d) == F(b, c, d)
  {
  }

  lemma ChoiceByLast(b: bv32, c: bv32, d: bv32)
    ensures Choose(d, b, c) == G(b, c, d)
  {
  }

  lemma ParityAndBlend(b: bv32, c: bv32, d: bv32)
    ensures Parity(b, c, d) == H(b, c, d) && Blend(b, c, d) == I(b, c, d)
  {
  }

  lemma FunctionsAgree(i: nat, b: bv32, c: bv32, d: bv32)
    requires i < 64
    ensures TableFunction(i, b, c, d) == RfcFunction(i, b, c, d)
  {
    hide F, G, H, I, Choose, Parity, Blend;
    ChoiceByFirst(b, c, d);
    ChoiceByLast(b, c, d);
    ParityAndBlend(b, c, d);
  }

  /** One turn of the loop over the variables a, b, c, d. */
  function TableStep(r: Regs, i: nat, x: seq<bv32>): Regs
    requires i < 64 && |x| == 16
  {
    TablesAgree();
    WordsAgree(i);
    ShiftsAgree(i);
    Regs(r.d, Add(r.b, LeftRotate(Sum(r.a, TableFunction(i, r.b, r.c, r.d), K[i], x[TableWord(i)]), TableShift(i))), r.b, r.c)
  }

  lemma SumsAgree(a: bv32, f: bv32, t: bv32, x: bv32)
    ensures Sum(a, f, t, x) == Sum(a, f, x, t)
  {
  }

  lemma StepIsOperation(r: Regs, i: nat, x: seq<bv32>)
    requires i < 64 && |x| == 16
    ensures TableStep(r, i, x) == Regs(r.d, RfcOperation(i, r.a, r.b, r.c, r.d, x), r.b, r.c)
  {
    hide TableFunction, RfcFunction, LeftRotate, TableWord, RfcWord, TableShift, RfcShift, Add, Sum;
    TablesAgree();
    WordsAgree(i);
    FunctionsAgree(i, r.b, r.c, r.d);
    var f := RfcFunction(i, r.b, r.c, r.d);
    SumsAgree(r.a, f, T[i], x[RfcWord(i)]);
    ShiftsAgree(i);
  }

  function InOrder<W>(order: nat, r: Four<W>): Four<W> {
    if order == 0 then r
    else if order == 1 then Regs(r.d, r.a, r.b, r.c)
    else if order == 2 then Regs(r.c, r.d, r.a, r.b)
    else Regs(r.b, r.c, r.d, r.a)
  }

  /** The loop's four variables before operation i are the standard's registers, turned i places. */
  function Turned(r: Regs, i: nat): Regs {
    InOrder(i % 4, r)
  }

  lemma NewValueTurns<W>(order: nat, r: Four<W>, v: W)
    requires order < 4
    ensures var t := InOrder(order, r);
            Regs(t.d, v, t.b, t.c) == InOrder(if order == 3 then 0 else order + 1, NewValueIn(order, r, v))
  {
  }

  /** The four orders follow from the loop's rotation of its variables. */
  lemma OrderTurns(order: nat, r: Regs, i: nat, x: seq<bv32>)
    requires order < 4 && i < 64 && |x| == 16
    ensures var t := InOrder(order, r);
            Regs(t.d, RfcOperation(i, t.a, t.b, t.c, t.d, x), t.b, t.c)
            == InOrder(if order == 3 then 0 else order + 1, RfcStepIn(order, r, i, x))
  {
    hide RfcOperation, NewValueIn;
    var t := InOrder(order, r);
    NewValueTurns(order, r, RfcOperation(i, t.a, t.b, t.c, t.d, x));
  }

  lemma NextOrder(i: nat)
    ensures (i + 1) % 4 == if i % 4 == 3 then 0 else i % 4 + 1
  {
  }

  lemma StepsAgree(r: Regs, i: nat, x: seq<bv32>)
    requires i < 64 && |x| == 16
    ensures TableStep(Turned(r, i), i, x) == Turned(RfcStep(r, i, x), i + 1)
  {
    hide TableStep, RfcOperation, InOrder, RfcStepIn;
    StepIsOperation(Turned(r, i), i, x);
    OrderTurns(i % 4, r, i, x);
    NextOrder(i);
  }

  // Padding.

  function NewLen(len: nat): nat {
    ((len + 8) / 64 + 1) * 64 - 8
  }

  /** The length the loop pads to is the least valid one. */
  lemma NewLenIsLeast(len: nat)
    ensures LeastPaddedLength(len, NewLen(len))
  {
    var q := (len + 8) / 64;
    assert NewLen(len) == 64 * q + 56;
    forall m | PaddedLength(len, m)
      ensures NewLen(len) <= m
    {
      assert m == 64 * (m / 64) + 56;
    }
  }

  /** The buffer as the loop's first part leaves it: only 32 bits of the length are stored. */
  function Padded(m: seq<Byte>): (s: seq<Byte>)
    ensures |s| == NewLen(|m|) + 8
  {
    NewLenIsLeast(|m|);
    m + [128] + Zeros(NewLen(|m|) - |m| - 1) + LittleEndian(8 * |m| % 0x1_0000_0000, 4) + Zeros(4)
  }

  function Drop(x: nat, n: nat): nat {
    if n == 0 then x else Drop(x / 256, n - 1)
  }

  lemma {:induction false} LittleEndianSplit(x: nat, n: nat, k: nat)
    ensures LittleEndian(x, n + k) == LittleEndian(x, n) + LittleEndian(Drop(x, n), k)
  {
    if n > 0 {
      LittleEndianSplit(x / 256, n - 1, k);
    }
  }

  lemma DropIsDivision(x: nat)
    ensures Drop(x, 4) == x / 0x1_0000_0000
  {
    assert Drop(x, 4) == Drop(x / 256, 3) == Drop(x / 256 / 256, 2) == Drop(x / 256 / 256 / 256, 1)
           == x / 256 / 256 / 256 / 256;
  }

  function Pow256(n: nat): (p: nat)
    ensures p > 0
  {
    if n == 0 then 1 else 256 * Pow256(n - 1)
  }

  lemma ByteStep(y: nat, z: nat)
    ensures (y + 256 * z) % 256 == y % 256 && (y + 256 * z) / 256 == y / 256 + z
  {
  }

  lemma MulAssoc(p: nat, q: nat)
    ensures 256 * p * q == 256 * (p * q)
  {
  }

  lemma {:induction false} LowBytesOnly(y: nat, n: nat, q: nat)
    ensures LittleEndian(y + Pow256(n) * q, n) == LittleEndian(y, n)
  {
    if n > 0 {
      var p := Pow256(n - 1);
      MulAssoc(p, q);
      ByteStep(y, p * q);
      LowBytesOnly(y / 256, n - 1, q);
    }
  }

  lemma FourBytes()
    ensures Pow256(4) == 0x1_0000_0000
  {
    assert Pow256(2) == 0x1_0000;
    assert Pow256(3) == 0x100_0000;
  }

  /** Truncated to 32 bits a length keeps its low four bytes. */
  lemma LowWordOnly(x: nat)
    ensures LittleEndian(x % 0x1_0000_0000, 4) == LittleEndian(x, 4)
  {
    FourBytes();
    LowBytesOnly(x % 0x1_0000_0000, 4, x / 0x1_0000_0000);
  }

  lemma {:induction false} SomeByteNotZero(x: nat, n: nat)
    requires 0 < x < Pow256(n)
    ensures exists i | 0 <= i < n :: LittleEndian(x, n)[i] != 0
  {
    if x % 256 != 0 {
      assert LittleEndian(x, n)[0] != 0;
    } else {
      SomeByteNotZero(x / 256, n - 1);
      var i :| 0 <= i < n - 1 && LittleEndian(x / 256, n - 1)[i] != 0;
      assert LittleEndian(x, n)[i + 1] == LittleEndian(x / 256, n - 1)[i];
    }
  }

  lemma {:induction false} ZeroBytes(n: nat)
    ensures LittleEndian(0, n) == Zeros(n)
  {
    if n > 0 {
      ZeroBytes(n - 1);
      assert Zeros(n) == [0] + Zeros(n - 1);
    }
  }

  lemma HighWordZero(h: nat)
    requires h < 0x1_0000_0000
    ensures LittleEndian(h, 4) == Zeros(4) <==> h == 0
  {
    FourBytes();
    ZeroBytes(4);
    if h > 0 {
      SomeByteNotZero(h, 4);
    }
  }

  lemma CommonPrefix(a: seq<Byte>, b: seq<Byte>, c: seq<Byte>)
    requires |b| == |c|
    ensures a + b == a + c <==> b == c
  {
    assert (a + b)[|a|..] == b && (a + c)[|a|..] == c;
  }

  /** The loop's buffer is the standard's padded message exactly for messages shorter than 2^29 bytes. */
  lemma PaddingIsRfc(m: seq<Byte>)
    requires |m| < 0x2000_0000_0000_0000
    ensures PaddedLength(|m|, NewLen(|m|))
    ensures Padded(m) == RfcPadded(m, NewLen(|m|)) <==> |m| < 0x2000_0000
  {
    hide LittleEndian, Drop, NewLen;
    NewLenIsLeast(|m|);
    var bits, n := 8 * |m|, NewLen(|m|);
    var front := m + [128] + Zeros(n - |m| - 1);
    LowWordOnly(bits);
    LittleEndianSplit(bits, 4, 4);
    DropIsDivision(bits);
    HighWordZero(bits / 0x1_0000_0000);
    CommonPrefix(front + LittleEndian(bits, 4), Zeros(4), LittleEndian(bits / 0x1_0000_0000, 4));
    assert Padded(m) == front + LittleEndian(bits, 4) + Zeros(4);
    assert RfcPadded(m, n) == front + (LittleEndian(bits, 4) + LittleEndian(bits / 0x1_0000_0000, 4));
  }

  class Digest {
    var h0: bv32
    var h1: bv32
    var h2: bv32
    var h3: bv32

    function State(): Regs
      reads this
    {
      Regs(h0, h1, h2, h3)
    }

    constructor ()
    {
      h0, h1, h2, h3 := 0, 0, 0, 0;
    }

    /** The first part of md5: the padded message, in a buffer of its own. */
    method Prepare(m: seq<Byte>) returns (msg: array<Byte>, newLen: nat)
      ensures fresh(msg) && newLen == NewLen(|m|) && msg.Length == newLen + 64
      ensures msg[..newLen + 8] == Padded(m)
    {
      hide LittleEndian;
      newLen := ((|m| + 8) / 64 + 1) * 64 - 8;
      NewLenIsLeast(|m|);
      msg := new Byte[newLen + 64](_ => 0);
      forall i | 0 <= i < |m| {
        msg[i] := m[i];
      }
      msg[|m|] := 128;
      var bitsLen := LittleEndian(8 * |m| % 0x1_0000_0000, 4);
      forall i | 0 <= i < 4 {
        msg[newLen + i] := bitsLen[i];
      }
      assert msg[..newLen + 8] == Padded(m);
    }

    /** The 64 operations of one block. */
    method Chunk(x: seq<bv32>)
      requires |x| == 16
      modifies this
      ensures State() == Plus(old(State()), RfcSteps(old(State()), 64, x))
    {
      hide RfcSteps, Turned, Plus, Add, Sum, LeftRotate, TableFunction, TableWord, TableShift;
      var a, b, c, d := h0, h1, h2, h3;
      ghost var r := Regs(h0, h1, h2, h3);
      StepsStart(r, x);
      for i := 0 to 64
        invariant Regs(a, b, c, d) == Turned(RfcSteps(r, i, x), i)
        invariant h0 == old(h0) && h1 == old(h1) && h2 == old(h2) && h3 == old(h3)
      {
        TablesAgree();
        WordsAgree(i);
        StepsGrow(r, i, x, a, b, c, d);
        var f := TableFunction(i, b, c, d);
        var g := TableWord(i);
        var temp := d;
        d := c;
        c := b;
        b := Add(b, LeftRotate(Sum(a, f, K[i], x[g]), TableShift(i)));
        a := temp;
      }
      StepsEnd(r, x, Regs(a, b, c, d));
      h0, h1, h2, h3 := Add(h0, a), Add(h1, b), Add(h2, c), Add(h3, d);
    }

    /** The loop over the blocks of the buffer: it stops at newLen, which is inside the last one. */
    method Blocks(msg: array<Byte>, newLen: nat)
      requires newLen + 8 <= msg.Length && newLen % 64 == 56 && State() == START
      modifies this
      ensures State() == RfcBlocks(msg[..newLen + 8], (newLen + 8) / 64)
    {
      hide RfcSteps, Plus, RfcBlocks;
      ghost var s, n := msg[..newLen + 8], 0;
      var offset := 0;
      NoBlocks(s);
      while offset < newLen
        invariant offset == 64 * n <= newLen + 8
        invariant State() == RfcBlocks(s, n)
      {
        BlocksGrow(s, n);
        Chunk(BlockAt(msg[..newLen + 8], offset));
        offset, n := offset + 64, n + 1;
      }
    }

    /** md5: the standard's digest, for every message shorter than 2^29 bytes. */
    method Md5(m: seq<Byte>)
      requires |m| < 0x2000_0000_0000_0000
      modifies this
      ensures State() == RfcBlocks(Padded(m), |Padded(m)| / 64)
      ensures |m| < 0x2000_0000 ==>
                && LeastPaddedLength(|m|, NewLen(|m|))
                && State() == RfcBlocks(RfcPadded(m, NewLen(|m|)), (NewLen(|m|) + 8) / 64)
    {
      hide RfcBlocks, NewLen, Padded, RfcPadded;
      NewLenIsLeast(|m|);
      PaddingIsRfc(m);
      h0, h1, h2, h3 := 0x67452301, 0xefcdab89, 0x98badcfe, 0x10325476;
      var msg, newLen := Prepare(m);
      Blocks(msg, newLen);
    }
  }

  lemma NoBlocks(s: seq<Byte>)
    ensures RfcBlocks(s, 0) == START
  {
  }

  lemma StepsStart(r: Regs, x: seq<bv32>)
    requires |x| == 16
    ensures r == Turned(RfcSteps(r, 0, x), 0)
  {
  }

  lemma StepsEnd(r: Regs, x: seq<bv32>, t: Regs)
    requires |x| == 16 && t == Turned(RfcSteps(r, 64, x), 64)
    ensures Regs(Add(r.a, t.a), Add(r.b, t.b), Add(r.c, t.c), Add(r.d, t.d)) == Plus(r, RfcSteps(r, 64, x))
  {
    hide RfcSteps, Add;
  }

  lemma StepsGrow(r: Regs, i: nat, x: seq<bv32>, a: bv32, b: bv32, c: bv32, d: bv32)
    requires i < 64 && |x| == 16 && Regs(a, b, c, d) == Turned(RfcSteps(r, i, x), i)
    ensures TableShift(i) <= 32 && TableWord(i) < 16 && |K| == 64
    ensures Regs(d, Add(b, LeftRotate(Sum(a, TableFunction(i, b, c, d), K[i], x[TableWord(i)]), TableShift(i))), b, c)
            == Turned(RfcSteps(r, i + 1, x), i + 1)
  {
    hide Turned, RfcStep, Add, Sum, LeftRotate, TableFunction, TableWord, TableShift;
    TablesAgree();
    WordsAgree(i);
    ShiftsAgree(i);
    StepsAgree(RfcSteps(r, i, x), i, x);
  }

  lemma BlocksGrow(s: seq<Byte>, n: nat)
    requires 64 * n + 64 <= |s|
    ensures var r := RfcBlocks(s, n);
            RfcBlocks(s, n + 1) == Plus(r, RfcSteps(r, 64, BlockAt(s, 64 * n)))
  {
    hide RfcSteps, Plus, BlockAt;
  }
}
