// The MD5 message digest of RFC 1321: padding, rounds and output.

module Md5Spec {
  type byte = bv8

  // The four-word buffer of section 3.3.
  datatype State = State(a: bv32, b: bv32, c: bv32, d: bv32)

  const INIT := State(0x67452301, 0xefcdab89, 0x98badcfe, 0x10325476)

  // ----- section 3.4: the auxiliary functions, the tables and the 64 operations

  function F(x: bv32, y: bv32, z: bv32): bv32 { (x & y) | (!x & z) }
  function G(x: bv32, y: bv32, z: bv32): bv32 { (x & z) | (y & !z) }
  function H(x: bv32, y: bv32, z: bv32): bv32 { x ^ y ^ z }
  function I(x: bv32, y: bv32, z: bv32): bv32 { y ^ (x | !z) }

  function Aux(round: nat, x: bv32, y: bv32, z: bv32): bv32 {
    if round == 0 then F(x, y, z) else if round == 1 then G(x, y, z) else if round == 2 then H(x, y, z) else I(x, y, z)
  }

  // Which word of the block operation j of a round uses.
  function WordIndex(round: nat, j: nat): (k: nat)
    ensures k < 16
  {
    (if round == 0 then j else if round == 1 then 1 + 5 * j else if round == 2 then 5 + 3 * j else 7 * j) % 16
  }

  // The shift amounts repeat every four operations.
  function Shift(round: nat, j: nat): (s: nat)
    ensures s <= 32
  {
    match (round, j % 4)
    case (0, 0) => 7 case (0, 1) => 12 case (0, 2) => 17 case (0, _) => 22
    case (1, 0) => 5 case (1, 1) => 9 case (1, 2) => 14 case (1, _) => 20
    case (2, 0) => 4 case (2, 1) => 11 case (2, 2) => 16 case (2, _) => 23
    case (_, 0) => 6 case (_, 1) => 10 case (_, 2) => 15 case (_, _) => 21
  }

  // The table T constructed from the sine function, one function a round.
  function T0(j: nat): bv32 {
    match j
    case 0 => 0xd76aa478 case 1 => 0xe8c7b756 case 2 => 0x242070db case 3 => 0xc1bdceee
    case 4 => 0xf57c0faf case 5 => 0x4787c62a case 6 => 0xa8304613 case 7 => 0xfd469501
    case 8 => 0x698098d8 case 9 => 0x8b44f7af case 10 => 0xffff5bb1 case 11 => 0x895cd7be
    case 12 => 0x6b901122 case 13 => 0xfd987193 case 14 => 0xa679438e case _ => 0x49b40821
  }

  function T1(j: nat): bv32 {
    match j
    case 0 => 0xf61e2562 case 1 => 0xc040b340 case 2 => 0x265e5a51 case 3 => 0xe9b6c7aa
    case 4 => 0xd62f105d case 5 => 0x02441453 case 6 => 0xd8a1e681 case 7 => 0xe7d3fbc8
    case 8 => 0x21e1cde6 case 9 => 0xc33707d6 case 10 => 0xf4d50d87 case 11 => 0x455a14ed
    case 12 => 0xa9e3e905 case 13 => 0xfcefa3f8 case 14 => 0x676f02d9 case _ => 0x8d2a4c8a
  }

  function T2(j: nat): bv32 {
    match j
    case 0 => 0xfffa3942 case 1 => 0x8771f681 case 2 => 0x6d9d6122 case 3 => 0xfde5380c
    case 4 => 0xa4beea44 case 5 => 0x4bdecfa9 case 6 => 0xf6bb4b60 case 7 => 0xbebfbc70
    case 8 => 0x289b7ec6 case 9 => 0xeaa127fa case 10 => 0xd4ef3085 case 11 => 0x04881d05
    case 12 => 0xd9d4d039 case 13 => 0xe6db99e5 case 14 => 0x1fa27cf8 case _ => 0xc4ac5665
  }

  function T3(j: nat): bv32 {
    match j
    case 0 => 0xf4292244 case 1 => 0x432aff97 case 2 => 0xab9423a7 case 3 => 0xfc93a039
    case 4 => 0x655b59c3 case 5 => 0x8f0ccc92 case 6 => 0xffeff47d case 7 => 0x85845dd1
    case 8 => 0x6fa87e4f case 9 => 0xfe2ce6e0 case 10 => 0xa3014314 case 11 => 0x4e0811a1
    case 12 => 0xf7537e82 case 13 => 0xbd3af235 case 14 => 0x2ad7d2bb case _ => 0xeb86d391
  }

  function Table(round: nat, j: nat): bv32 {
    if round == 0 then T0(j) else if round == 1 then T1(j) else if round == 2 then T2(j) else T3(j)
  }

  function Rotate(w: bv32, s: nat): bv32
    requires s <= 32
  {
    (w << s) | (w >> (32 - s))
  }

  function Sum(x: bv32, y: bv32): bv32 { x + y }

  // a := b + ((a + aux(b, c, d) + X[k] + T[i]) <<< s), and the roles of the words move on by one.
  function Operation(round: nat, j: nat, x: seq<bv32>, s: State): State
    requires |x| == 16 && j < 16
  {
    var w := Sum(Sum(Sum(s.a, Aux(round, s.b, s.c, s.d)), x[WordIndex(round, j)]), Table(round, j));
    State(s.d, Sum(Rotate(w, Shift(round, j)), s.b), s.b, s.c)
  }

  // The first n operations of a round.
  function Operations(round: nat, n: nat, x: seq<bv32>, s: State): State
    requires |x| == 16 && n <= 16
  {
    if n == 0 then s else Operation(round, n - 1, x, Operations(round, n - 1, x, s))
  }

  function Rounds(n: nat, x: seq<bv32>, s: State): State
    requires |x| == 16
  {
    if n == 0 then s else Operations(n - 1, 16, x, Rounds(n - 1, x, s))
  }

  // Word j of a block, low-order byte first.
  function Word(block: seq<byte>, j: nat): bv32
    requires |block| == 64 && j < 16
  {
    (block[4 * j] as bv32) | (block[4 * j + 1] as bv32 << 8) |
    (block[4 * j + 2] as bv32 << 16) | (block[4 * j + 3] as bv32 << 24)
  }

  function Words(block: seq<byte>): (x: seq<bv32>)
    requires |block| == 64
    ensures |x| == 16
  {
    seq(16, j requires 0 <= j < 16 => Word(block, j))
  }

  function Compress(s: State, block: seq<byte>): State
    requires |block| == 64
  {
    var t := Rounds(4, Words(block), s);
    State(Sum(s.a, t.a), Sum(s.b, t.b), Sum(s.c, t.c), Sum(s.d, t.d))
  }

  predicate Whole(n: nat) { n % 64 == 0 }

  lemma WholeSum(m: nat, n: nat)
    requires Whole(m)
    ensures Whole(m + n) <==> Whole(n)
  {
  }

  // All blocks of data, in order.
  function Fold(s: State, data: seq<byte>): State
    requires Whole(|data|)
  {
    if data == [] then s else Compress(Fold(s, data[..|data| - 64]), data[|data| - 64..])
  }

  lemma {:induction false} FoldConcat(s: State, a: seq<byte>, b: seq<byte>)
    requires Whole(|a|) && Whole(|b|) && Whole(|a + b|)
    ensures Fold(s, a + b) == Fold(Fold(s, a), b)
  {
    hide Compress;
    if b == [] {
      assert a + b == a;
    } else {
      var n := |b| - 64;
      assert (a + b)[..|a + b| - 64] == a + b[..n] && (a + b)[|a + b| - 64..] == b[n..];
      FoldConcat(s, a, b[..n]);
    }
  }

  // ----- sections 3.1, 3.2 and 3.5: padding, length and output

  function Zeros(n: nat): (z: seq<byte>)
    ensures |z| == n
  {
    seq(n, i => 0)
  }

  // n modulo 2^32, low-order byte first
  function LittleEndian(n: nat): (bs: seq<byte>)
    ensures |bs| == 4
  {
    [(n % 256) as byte, (n / 256 % 256) as byte, (n / 65536 % 256) as byte, (n / 16777216 % 256) as byte]
  }

  // A one bit and the fewest zeros that leave eight bytes to the next block boundary.
  function Padding(length: nat): (p: seq<byte>)
    ensures Whole(length + |p| + 8) && 1 <= |p| <= 64
  {
    [0x80] + Zeros((119 - length % 64) % 64)
  }

  // The length in bits modulo 2^64, the low-order word first.
  function BitLength(length: nat): (bs: seq<byte>)
    ensures |bs| == 8
  {
    LittleEndian(8 * length % 0x1_0000_0000) + LittleEndian(8 * length / 0x1_0000_0000 % 0x1_0000_0000)
  }

  function Padded(m: seq<byte>): (p: seq<byte>)
    ensures Whole(|p|)
  {
    m + (Padding(|m|) + BitLength(|m|))
  }

  function Bytes(w: bv32): seq<byte> {
    [(w & 0xFF) as byte, ((w >> 8) & 0xFF) as byte, ((w >> 16) & 0xFF) as byte, (w >> 24) as byte]
  }

  function Output(s: State): seq<byte> { Bytes(s.a) + Bytes(s.b) + Bytes(s.c) + Bytes(s.d) }

  function Digest(m: seq<byte>): seq<byte> { Output(Fold(INIT, Padded(m))) }
}
