/**
 The compression function of src/md5.c:22-137, the 64 macro calls, one function application each,
 against the description in section 3.4 of RFC 1321.
 */
module Md5Core {

  type Word = bv32
  datatype State = State(A: Word, B: Word, C: Word, D: Word)
  datatype Round = R1 | R2 | R3 | R4

  /** Addition modulo 2^32 */
  function Plus(a: Word, b: Word): Word { a + b }

  /** It is the sum without the carry beyond 32 bits. */
  lemma {:induction false} PlusModulo(a: Word, b: Word)
    ensures (Plus(a, b) as bv64) == ((a as bv64) + (b as bv64)) & 0xFFFF_FFFF
  {
  }

  // ---------------------------------------------------------------- as the code has it

  /** The macro `F` in its four definitions, the first two rewritten to save an operation. */
  function CodeF(r: Round, x: Word, y: Word, z: Word): Word {
    match r
    case R1 => z ^ (x & (y ^ z))
    case R2 => y ^ (z & (x ^ y))
    case R3 => x ^ y ^ z
    case R4 => y ^ (x | !z)
  }

  /** The macro `S` */
  function CodeS(x: Word, n: Word): Word
    requires 0 < n < 32
  {
    (x << n) | ((x & 0xFFFF_FFFF) >> (32 - n))
  }

  /** The macro `P`: the new value of `a` */
  function P(r: Round, a: Word, b: Word, c: Word, d: Word, x: Word, s: Word, t: Word): Word
    requires 0 < s < 32
  {
    Plus(CodeS(Plus(a, Plus(Plus(CodeF(r, b, c, d), x), t)), s), b)
  }

  /** Operations 1 to 16 of `md5_process` */
  function Round1(st: State, X: seq<Word>): State
    requires |X| == 16
  {
    var A := st.A; var B := st.B; var C := st.C; var D := st.D;
    var A := P(R1, A, B, C, D, X[0], 7, 0xD76AA478);
    var D := P(R1, D, A, B, C, X[1], 12, 0xE8C7B756);
    var C := P(R1, C, D, A, B, X[2], 17, 0x242070DB);
    var B := P(R1, B, C, D, A, X[3], 22, 0xC1BDCEEE);
    var A := P(R1, A, B, C, D, X[4], 7, 0xF57C0FAF);
    var D := P(R1, D, A, B, C, X[5], 12, 0x4787C62A);
    var C := P(R1, C, D, A, B, X[6], 17, 0xA8304613);
    var B := P(R1, B, C, D, A, X[7], 22, 0xFD469501);
    var A := P(R1, A, B, C, D, X[8], 7, 0x698098D8);
    var D := P(R1, D, A, B, C, X[9], 12, 0x8B44F7AF);
    var C := P(R1, C, D, A, B, X[10], 17, 0xFFFF5BB1);
    var B := P(R1, B, C, D, A, X[11], 22, 0x895CD7BE);
    var A := P(R1, A, B, C, D, X[12], 7, 0x6B901122);
    var D := P(R1, D, A, B, C, X[13], 12, 0xFD987193);
    var C := P(R1, C, D, A, B, X[14], 17, 0xA679438E);
    var B := P(R1, B, C, D, A, X[15], 22, 0x49B40821);
    State(A, B, C, D)
  }

  /** Operations 17 to 32 of `md5_process` */
  function Round2(st: State, X: seq<Word>): State
    requires |X| == 16
  {
    var A := st.A; var B := st.B; var C := st.C; var D := st.D;
    var A := P(R2, A, B, C, D, X[1], 5, 0xF61E2562);
    var D := P(R2, D, A, B, C, X[6], 9, 0xC040B340);
    var C := P(R2, C, D, A, B, X[11], 14, 0x265E5A51);
    var B := P(R2, B, C, D, A, X[0], 20, 0xE9B6C7AA);
    var A := P(R2, A, B, C, D, X[5], 5, 0xD62F105D);
    var D := P(R2, D, A, B, C, X[10], 9, 0x02441453);
    var C := P(R2, C, D, A, B, X[15], 14, 0xD8A1E681);
    var B := P(R2, B, C, D, A, X[4], 20, 0xE7D3FBC8);
    var A := P(R2, A, B, C, D, X[9], 5, 0x21E1CDE6);
    var D := P(R2, D, A, B, C, X[14], 9, 0xC33707D6);
    var C := P(R2, C, D, A, B, X[3], 14, 0xF4D50D87);
    var B := P(R2, B, C, D, A, X[8], 20, 0x455A14ED);
    var A := P(R2, A, B, C, D, X[13], 5, 0xA9E3E905);
    var D := P(R2, D, A, B, C, X[2], 9, 0xFCEFA3F8);
    var C := P(R2, C, D, A, B, X[7], 14, 0x676F02D9);
    var B := P(R2, B, C, D, A, X[12], 20, 0x8D2A4C8A);
    State(A, B, C, D)
  }

  /** Operations 33 to 48 of `md5_process` */
  function Round3(st: State, X: seq<Word>): State
    requires |X| == 16
  {
    var A := st.A; var B := st.B; var C := st.C; var D := st.D;
    var A := P(R3, A, B, C, D, X[5], 4, 0xFFFA3942);
    var D := P(R3, D, A, B, C, X[8], 11, 0x8771F681);
    var C := P(R3, C, D, A, B, X[11], 16, 0x6D9D6122);
    var B := P(R3, B, C, D, A, X[14], 23, 0xFDE5380C);
    var A := P(R3, A, B, C, D, X[1], 4, 0xA4BEEA44);
    var D := P(R3, D, A, B, C, X[4], 11, 0x4BDECFA9);
    var C := P(R3, C, D, A, B, X[7], 16, 0xF6BB4B60);
    var B := P(R3, B, C, D, A, X[10], 23, 0xBEBFBC70);
    var A := P(R3, A, B, C, D, X[13], 4, 0x289B7EC6);
    var D := P(R3, D, A, B, C, X[0], 11, 0xEAA127FA);
    var C := P(R3, C, D, A, B, X[3], 16, 0xD4EF3085);
    var B := P(R3, B, C, D, A, X[6], 23, 0x04881D05);
    var A := P(R3, A, B, C, D, X[9], 4, 0xD9D4D039);
    var D := P(R3, D, A, B, C, X[12], 11, 0xE6DB99E5);
    var C := P(R3, C, D, A, B, X[15], 16, 0x1FA27CF8);
    var B := P(R3, B, C, D, A, X[2], 23, 0xC4AC5665);
    State(A, B, C, D)
  }

  /** Operations 49 to 64 of `md5_process` */
  function Round4(st: State, X: seq<Word>): State
    requires |X| == 16
  {
    var A := st.A; var B := st.B; var C := st.C; var D := st.D;
    var A := P(R4, A, B, C, D, X[0], 6, 0xF4292244);
    var D := P(R4, D, A, B, C, X[7], 10, 0x432AFF97);
    var C := P(R4, C, D, A, B, X[14], 15, 0xAB9423A7);
    var B := P(R4, B, C, D, A, X[5], 21, 0xFC93A039);
    var A := P(R4, A, B, C, D, X[12], 6, 0x655B59C3);
    var D := P(R4, D, A, B, C, X[3], 10, 0x8F0CCC92);
    var C := P(R4, C, D, A, B, X[10], 15, 0xFFEFF47D);
    var B := P(R4, B, C, D, A, X[1], 21, 0x85845DD1);
    var A := P(R4, A, B, C, D, X[8], 6, 0x6FA87E4F);
    var D := P(R4, D, A, B, C, X[15], 10, 0xFE2CE6E0);
    var C := P(R4, C, D, A, B, X[6], 15, 0xA3014314);
    var B := P(R4, B, C, D, A, X[13], 21, 0x4E0811A1);
    var A := P(R4, A, B, C, D, X[4], 6, 0xF7537E82);
    var D := P(R4, D, A, B, C, X[11], 10, 0xBD3AF235);
    var C := P(R4, C, D, A, B, X[2], 15, 0x2AD7D2BB);
    var B := P(R4, B, C, D, A, X[9], 21, 0xEB86D391);
    State(A, B, C, D)
  }

  /** `md5_process` on the sixteen words of a block */
  function Process(st: State, X: seq<Word>): State
    requires |X| == 16
  {
    var r := Round4(Round3(Round2(Round1(st, X), X), X), X);
    State(Plus(st.A, r.A), Plus(st.B, r.B), Plus(st.C, r.C), Plus(st.D, r.D))
  }

  // ---------------------------------------------------------------- as RFC 1321 has it

  /** The auxiliary functions F, G, H and I. */
  function RfcF(r: Round, x: Word, y: Word, z: Word): Word {
    match r
    case R1 => (x & y) | (!x & z)
    case R2 => (x & z) | (y & !z)
    case R3 => x ^ y ^ z
    case R4 => y ^ (x | !z)
  }

  /** The round of operation `i`, the word it uses, its shift and its sine-table entry. */
  function RoundOf(i: nat): Round { if i < 16 then R1 else if i < 32 then R2 else if i < 48 then R3 else R4 }

  function WordOf(i: nat): (k: nat)
    ensures k < 16
  {
    match RoundOf(i)
    case R1 => i % 16
    case R2 => (5 * i + 1) % 16
    case R3 => (3 * i + 5) % 16
    case R4 => (7 * i) % 16
  }

  function ShiftOf(i: nat): (s: Word)
    ensures 0 < s < 32
  {
    var j := i % 4;
    match RoundOf(i)
    case R1 => if j == 0 then 7 else if j == 1 then 12 else if j == 2 then 17 else 22
    case R2 => if j == 0 then 5 else if j == 1 then 9 else if j == 2 then 14 else 20
    case R3 => if j == 0 then 4 else if j == 1 then 11 else if j == 2 then 16 else 23
    case R4 => if j == 0 then 6 else if j == 1 then 10 else if j == 2 then 15 else 21
  }

  function Sine1(j: int): Word {
    match j
    case 0 => 0xD76AA478
    case 1 => 0xE8C7B756
    case 2 => 0x242070DB
    case 3 => 0xC1BDCEEE
    case 4 => 0xF57C0FAF
    case 5 => 0x4787C62A
    case 6 => 0xA8304613
    case 7 => 0xFD469501
    case 8 => 0x698098D8
    case 9 => 0x8B44F7AF
    case 10 => 0xFFFF5BB1
    case 11 => 0x895CD7BE
    case 12 => 0x6B901122
    case 13 => 0xFD987193
    case 14 => 0xA679438E
    case _ => 0x49B40821
  }

  function Sine2(j: int): Word {
    match j
    case 0 => 0xF61E2562
    case 1 => 0xC040B340
    case 2 => 0x265E5A51
    case 3 => 0xE9B6C7AA
    case 4 => 0xD62F105D
    case 5 => 0x02441453
    case 6 => 0xD8A1E681
    case 7 => 0xE7D3FBC8
    case 8 => 0x21E1CDE6
    case 9 => 0xC33707D6
    case 10 => 0xF4D50D87
    case 11 => 0x455A14ED
    case 12 => 0xA9E3E905
    case 13 => 0xFCEFA3F8
    case 14 => 0x676F02D9
    case _ => 0x8D2A4C8A
  }

  function Sine3(j: int): Word {
    match j
    case 0 => 0xFFFA3942
    case 1 => 0x8771F681
    case 2 => 0x6D9D6122
    case 3 => 0xFDE5380C
    case 4 => 0xA4BEEA44
    case 5 => 0x4BDECFA9
    case 6 => 0xF6BB4B60
    case 7 => 0xBEBFBC70
    case 8 => 0x289B7EC6
    case 9 => 0xEAA127FA
    case 10 => 0xD4EF3085
    case 11 => 0x04881D05
    case 12 => 0xD9D4D039
    case 13 => 0xE6DB99E5
    case 14 => 0x1FA27CF8
    case _ => 0xC4AC5665
  }

  function Sine4(j: int): Word {
    match j
    case 0 => 0xF4292244
    case 1 => 0x432AFF97
    case 2 => 0xAB9423A7
    case 3 => 0xFC93A039
    case 4 => 0x655B59C3
    case 5 => 0x8F0CCC92
    case 6 => 0xFFEFF47D
    case 7 => 0x85845DD1
    case 8 => 0x6FA87E4F
    case 9 => 0xFE2CE6E0
    case 10 => 0xA3014314
    case 11 => 0x4E0811A1
    case 12 => 0xF7537E82
    case 13 => 0xBD3AF235
    case 14 => 0x2AD7D2BB
    case _ => 0xEB86D391
  }

  function SineOf(i: nat): Word {
    match RoundOf(i)
    case R1 => Sine1(i)
    case R2 => Sine2(i - 16)
    case R3 => Sine3(i - 32)
    case R4 => Sine4(i - 48)
  }

  /** Circular shift to the left */
  function Rot(x: Word, n: Word): Word
    requires 0 < n < 32
  {
    (x << n) | (x >> (32 - n))
  }

  /** a = b + ((a + F(b,c,d) + X[k] + T[i]) <<< s) */
  function RfcStep(r: Round, a: Word, b: Word, c: Word, d: Word, x: Word, s: Word, t: Word): Word
    requires 0 < s < 32
  {
    Plus(b, Rot(Plus(a, Plus(Plus(RfcF(r, b, c, d), x), t)), s))
  }

  /** One operation on the registers in the order a, b, c, d; they change places for the next. */
  function Op(i: nat, st: State, X: seq<Word>): State
    requires i < 64 && |X| == 16
  {
    State(st.D, RfcStep(RoundOf(i), st.A, st.B, st.C, st.D, X[WordOf(i)], ShiftOf(i), SineOf(i)), st.B, st.C)
  }

  /** Operations `i` up to `j`. */
  function Ops(i: nat, j: nat, st: State, X: seq<Word>): State
    requires i <= j <= 64 && |X| == 16
    decreases j - i
  {
    if i == j then st else Ops(i + 1, j, Op(i, st, X), X)
  }

  function RfcBlock(st: State, X: seq<Word>): State
    requires |X| == 16
  {
    var r := Ops(0, 64, st, X);
    State(Plus(st.A, r.A), Plus(st.B, r.B), Plus(st.C, r.C), Plus(st.D, r.D))
  }

  // ---------------------------------------------------------------- they are the same

  lemma SelectF(x: Word, y: Word, z: Word)
    ensures z ^ (x & (y ^ z)) == (x & y) | (!x & z)
  {
  }

  lemma SelectG(x: Word, y: Word, z: Word)
    ensures y ^ (z & (x ^ y)) == (x & z) | (y & !z)
  {
  }

  /** The rewritten F and G are those of the standard. */
  lemma SameF(r: Round, x: Word, y: Word, z: Word)
    ensures CodeF(r, x, y, z) == RfcF(r, x, y, z)
  {
    SelectF(x, y, z);
    SelectG(x, y, z);
  }

  lemma Mask(x: Word)
    ensures x & 0xFFFF_FFFF == x
  {
  }

  /** The shifts of the code are rotations. */
  lemma SameShift(x: Word, n: Word)
    requires 0 < n < 32
    ensures CodeS(x, n) == Rot(x, n)
  {
    Mask(x);
  }

  /** One macro call is one step of the standard. */
  lemma SameStep(r: Round, a: Word, b: Word, c: Word, d: Word, x: Word, s: Word, t: Word)
    requires 0 < s < 32
    ensures P(r, a, b, c, d, x, s, t) == RfcStep(r, a, b, c, d, x, s, t)
  {
    hide CodeF, RfcF, CodeS, Rot, Plus;
    SameF(r, b, c, d);
    var f := RfcF(r, b, c, d);
    var y := Plus(a, Plus(Plus(f, x), t));
    SameShift(y, s);
    Swap(b, Rot(y, s));
  }

  lemma Swap(a: Word, b: Word)
    ensures Plus(a, b) == Plus(b, a)
  {
  }

  // ---------------------------------------------------------------- sixteen operations at a time

  /** Operation `i` by the macro of the code. */
  function At(r: Round, i: nat, a: Word, b: Word, c: Word, d: Word, X: seq<Word>): Word
    requires |X| == 16
  {
    P(r, a, b, c, d, X[WordOf(i)], ShiftOf(i), SineOf(i))
  }

  /** Four operations bring the registers back to their places. */
  function Four(r: Round, st: State, X: seq<Word>, i: nat): State
    requires |X| == 16 && i + 3 < 64
  {
    var A := At(r, i, st.A, st.B, st.C, st.D, X);
    var D := At(r, i + 1, st.D, A, st.B, st.C, X);
    var C := At(r, i + 2, st.C, D, A, st.B, X);
    var B := At(r, i + 3, st.B, C, D, A, X);
    State(A, B, C, D)
  }

  lemma FourOps(st: State, X: seq<Word>, i: nat, j: nat)
    requires |X| == 16 && i % 4 == 0 && i + 4 <= j <= 64
    ensures Ops(i, j, st, X) == Ops(i + 4, j, Four(RoundOf(i), st, X, i), X)
  {
    hide P, RfcStep, WordOf, ShiftOf, SineOf, At;
    OneOp(st, X, i, j);
    var s1 := Op(i, st, X);
    OneOp(s1, X, i + 1, j);
    var s2 := Op(i + 1, s1, X);
    OneOp(s2, X, i + 2, j);
    var s3 := Op(i + 2, s2, X);
    OneOp(s3, X, i + 3, j);
  }

  lemma OneOp(st: State, X: seq<Word>, i: nat, j: nat)
    requires |X| == 16 && i < j <= 64
    ensures Ops(i, j, st, X) == Ops(i + 1, j, Op(i, st, X), X)
    ensures Op(i, st, X) == State(st.D, At(RoundOf(i), i, st.A, st.B, st.C, st.D, X), st.B, st.C)
  {
    hide P, RfcStep, SineOf, WordOf, ShiftOf, RoundOf;
    SameStep(RoundOf(i), st.A, st.B, st.C, st.D, X[WordOf(i)], ShiftOf(i), SineOf(i));
  }

  lemma Table1()
    ensures WordOf(0) == 0 && WordOf(1) == 1 && WordOf(2) == 2 && WordOf(3) == 3
    ensures WordOf(4) == 4 && WordOf(5) == 5 && WordOf(6) == 6 && WordOf(7) == 7
    ensures WordOf(8) == 8 && WordOf(9) == 9 && WordOf(10) == 10 && WordOf(11) == 11
    ensures WordOf(12) == 12 && WordOf(13) == 13 && WordOf(14) == 14 && WordOf(15) == 15
    ensures ShiftOf(0) == 7 && ShiftOf(1) == 12 && ShiftOf(2) == 17 && ShiftOf(3) == 22
    ensures ShiftOf(4) == 7 && ShiftOf(5) == 12 && ShiftOf(6) == 17 && ShiftOf(7) == 22
    ensures ShiftOf(8) == 7 && ShiftOf(9) == 12 && ShiftOf(10) == 17 && ShiftOf(11) == 22
    ensures ShiftOf(12) == 7 && ShiftOf(13) == 12 && ShiftOf(14) == 17 && ShiftOf(15) == 22
  {
  }

  lemma Sines1a()
    ensures SineOf(0) == 0xD76AA478 && SineOf(1) == 0xE8C7B756 && SineOf(2) == 0x242070DB && SineOf(3) == 0xC1BDCEEE
  {
  }

  lemma Sines1b()
    ensures SineOf(4) == 0xF57C0FAF && SineOf(5) == 0x4787C62A && SineOf(6) == 0xA8304613 && SineOf(7) == 0xFD469501
  {
  }

  lemma Sines1c()
    ensures SineOf(8) == 0x698098D8 && SineOf(9) == 0x8B44F7AF && SineOf(10) == 0xFFFF5BB1 && SineOf(11) == 0x895CD7BE
  {
  }

  lemma Sines1d()
    ensures SineOf(12) == 0x6B901122 && SineOf(13) == 0xFD987193 && SineOf(14) == 0xA679438E && SineOf(15) == 0x49B40821
  {
  }

  lemma Table2()
    ensures WordOf(16) == 1 && WordOf(17) == 6 && WordOf(18) == 11 && WordOf(19) == 0
    ensures WordOf(20) == 5 && WordOf(21) == 10 && WordOf(22) == 15 && WordOf(23) == 4
    ensures WordOf(24) == 9 && WordOf(25) == 14 && WordOf(26) == 3 && WordOf(27) == 8
    ensures WordOf(28) == 13 && WordOf(29) == 2 && WordOf(30) == 7 && WordOf(31) == 12
    ensures ShiftOf(16) == 5 && ShiftOf(17) == 9 && ShiftOf(18) == 14 && ShiftOf(19) == 20
    ensures ShiftOf(20) == 5 && ShiftOf(21) == 9 && ShiftOf(22) == 14 && ShiftOf(23) == 20
    ensures ShiftOf(24) == 5 && ShiftOf(25) == 9 && ShiftOf(26) == 14 && ShiftOf(27) == 20
    ensures ShiftOf(28) == 5 && ShiftOf(29) == 9 && ShiftOf(30) == 14 && ShiftOf(31) == 20
  {
  }

  lemma Sines2a()
    ensures SineOf(16) == 0xF61E2562 && SineOf(17) == 0xC040B340 && SineOf(18) == 0x265E5A51 && SineOf(19) == 0xE9B6C7AA
  {
  }

  lemma Sines2b()
    ensures SineOf(20) == 0xD62F105D && SineOf(21) == 0x02441453 && SineOf(22) == 0xD8A1E681 && SineOf(23) == 0xE7D3FBC8
  {
  }

  lemma Sines2c()
    ensures SineOf(24) == 0x21E1CDE6 && SineOf(25) == 0xC33707D6 && SineOf(26) == 0xF4D50D87 && SineOf(27) == 0x455A14ED
  {
  }

  lemma Sines2d()
    ensures SineOf(28) == 0xA9E3E905 && SineOf(29) == 0xFCEFA3F8 && SineOf(30) == 0x676F02D9 && SineOf(31) == 0x8D2A4C8A
  {
  }

  lemma Table3()
    ensures WordOf(32) == 5 && WordOf(33) == 8 && WordOf(34) == 11 && WordOf(35) == 14
    ensures WordOf(36) == 1 && WordOf(37) == 4 && WordOf(38) == 7 && WordOf(39) == 10
    ensures WordOf(40) == 13 && WordOf(41) == 0 && WordOf(42) == 3 && WordOf(43) == 6
    ensures WordOf(44) == 9 && WordOf(45) == 12 && WordOf(46) == 15 && WordOf(47) == 2
    ensures ShiftOf(32) == 4 && ShiftOf(33) == 11 && ShiftOf(34) == 16 && ShiftOf(35) == 23
    ensures ShiftOf(36) == 4 && ShiftOf(37) == 11 && ShiftOf(38) == 16 && ShiftOf(39) == 23
    ensures ShiftOf(40) == 4 && ShiftOf(41) == 11 && ShiftOf(42) == 16 && ShiftOf(43) == 23
    ensures ShiftOf(44) == 4 && ShiftOf(45) == 11 && ShiftOf(46) == 16 && ShiftOf(47) == 23
  {
  }

  lemma Sines3a()
    ensures SineOf(32) == 0xFFFA3942 && SineOf(33) == 0x8771F681 && SineOf(34) == 0x6D9D6122 && SineOf(35) == 0xFDE5380C
  {
  }

  lemma Sines3b()
    ensures SineOf(36) == 0xA4BEEA44 && SineOf(37) == 0x4BDECFA9 && SineOf(38) == 0xF6BB4B60 && SineOf(39) == 0xBEBFBC70
  {
  }

  lemma Sines3c()
    ensures SineOf(40) == 0x289B7EC6 && SineOf(41) == 0xEAA127FA && SineOf(42) == 0xD4EF3085 && SineOf(43) == 0x04881D05
  {
  }

  lemma Sines3d()
    ensures SineOf(44) == 0xD9D4D039 && SineOf(45) == 0xE6DB99E5 && SineOf(46) == 0x1FA27CF8 && SineOf(47) == 0xC4AC5665
  {
  }

  lemma Table4()
    ensures WordOf(48) == 0 && WordOf(49) == 7 && WordOf(50) == 14 && WordOf(51) == 5
    ensures WordOf(52) == 12 && WordOf(53) == 3 && WordOf(54) == 10 && WordOf(55) == 1
    ensures WordOf(56) == 8 && WordOf(57) == 15 && WordOf(58) == 6 && WordOf(59) == 13
    ensures WordOf(60) == 4 && WordOf(61) == 11 && WordOf(62) == 2 && WordOf(63) == 9
    ensures ShiftOf(48) == 6 && ShiftOf(49) == 10 && ShiftOf(50) == 15 && ShiftOf(51) == 21
    ensures ShiftOf(52) == 6 && ShiftOf(53) == 10 && ShiftOf(54) == 15 && ShiftOf(55) == 21
    ensures ShiftOf(56) == 6 && ShiftOf(57) == 10 && ShiftOf(58) == 15 && ShiftOf(59) == 21
    ensures ShiftOf(60) == 6 && ShiftOf(61) == 10 && ShiftOf(62) == 15 && ShiftOf(63) == 21
  {
  }

  lemma Sines4a()
    ensures SineOf(48) == 0xF4292244 && SineOf(49) == 0x432AFF97 && SineOf(50) == 0xAB9423A7 && SineOf(51) == 0xFC93A039
  {
  }

  lemma Sines4b()
    ensures SineOf(52) == 0x655B59C3 && SineOf(53) == 0x8F0CCC92 && SineOf(54) == 0xFFEFF47D && SineOf(55) == 0x85845DD1
  {
  }

  lemma Sines4c()
    ensures SineOf(56) == 0x6FA87E4F && SineOf(57) == 0xFE2CE6E0 && SineOf(58) == 0xA3014314 && SineOf(59) == 0x4E0811A1
  {
  }

  lemma Sines4d()
    ensures SineOf(60) == 0xF7537E82 && SineOf(61) == 0xBD3AF235 && SineOf(62) == 0x2AD7D2BB && SineOf(63) == 0xEB86D391
  {
  }

  lemma SameRound1(st: State, X: seq<Word>, j: nat)
    requires |X| == 16 && 16 <= j <= 64
    ensures Ops(0, j, st, X) == Ops(16, j, Round1(st, X), X)
  {
    hide P, Ops, WordOf, ShiftOf, SineOf;
    Table1();
    Sines1a();
    Sines1b();
    Sines1c();
    Sines1d();
    FourOps(st, X, 0, j);
    var s1 := Four(R1, st, X, 0);
    FourOps(s1, X, 4, j);
    var s2 := Four(R1, s1, X, 4);
    FourOps(s2, X, 8, j);
    var s3 := Four(R1, s2, X, 8);
    FourOps(s3, X, 12, j);
    assert Four(R1, s3, X, 12) == Round1(st, X);
  }

  lemma SameRound2(st: State, X: seq<Word>, j: nat)
    requires |X| == 16 && 32 <= j <= 64
    ensures Ops(16, j, st, X) == Ops(32, j, Round2(st, X), X)
  {
    hide P, Ops, WordOf, ShiftOf, SineOf;
    Table2();
    Sines2a();
    Sines2b();
    Sines2c();
    Sines2d();
    FourOps(st, X, 16, j);
    var s1 := Four(R2, st, X, 16);
    FourOps(s1, X, 20, j);
    var s2 := Four(R2, s1, X, 20);
    FourOps(s2, X, 24, j);
    var s3 := Four(R2, s2, X, 24);
    FourOps(s3, X, 28, j);
    assert Four(R2, s3, X, 28) == Round2(st, X);
  }

  lemma SameRound3(st: State, X: seq<Word>, j: nat)
    requires |X| == 16 && 48 <= j <= 64
    ensures Ops(32, j, st, X) == Ops(48, j, Round3(st, X), X)
  {
    hide P, Ops, WordOf, ShiftOf, SineOf;
    Table3();
    Sines3a();
    Sines3b();
    Sines3c();
    Sines3d();
    FourOps(st, X, 32, j);
    var s1 := Four(R3, st, X, 32);
    FourOps(s1, X, 36, j);
    var s2 := Four(R3, s1, X, 36);
    FourOps(s2, X, 40, j);
    var s3 := Four(R3, s2, X, 40);
    FourOps(s3, X, 44, j);
    assert Four(R3, s3, X, 44) == Round3(st, X);
  }

  lemma SameRound4(st: State, X: seq<Word>, j: nat)
    requires |X| == 16 && 64 <= j <= 64
    ensures Ops(48, j, st, X) == Ops(64, j, Round4(st, X), X)
  {
    hide P, Ops, WordOf, ShiftOf, SineOf;
    Table4();
    Sines4a();
    Sines4b();
    Sines4c();
    Sines4d();
    FourOps(st, X, 48, j);
    var s1 := Four(R4, st, X, 48);
    FourOps(s1, X, 52, j);
    var s2 := Four(R4, s1, X, 52);
    FourOps(s2, X, 56, j);
    var s3 := Four(R4, s2, X, 56);
    FourOps(s3, X, 60, j);
    assert Four(R4, s3, X, 60) == Round4(st, X);
  }

  /** `md5_process` is the block operation of RFC 1321. */
  lemma SameBlock(st: State, X: seq<Word>)
    requires |X| == 16
    ensures Process(st, X) == RfcBlock(st, X)
  {
    hide Plus, Ops, Round1, Round2, Round3, Round4;
    SameRound1(st, X, 64);
    var r1 := Round1(st, X);
    SameRound2(r1, X, 64);
    var r2 := Round2(r1, X);
    SameRound3(r2, X, 64);
    var r3 := Round3(r2, X);
    SameRound4(r3, X, 64);
    NoOps(Round4(r3, X), X);
  }

  lemma NoOps(st: State, X: seq<Word>)
    requires |X| == 16
    ensures Ops(64, 64, st, X) == st
  {
  }
}
