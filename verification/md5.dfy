// md5.c: the streaming computation of the digest, proved against RFC 1321.

module Md5 {
  import opened Division
  import opened Md5Spec

  const WORD := 0x1_0000_0000
  const BLOCKSIZE := 4096

  // ----- md5_process_block

  lemma Select(b: bv32, c: bv32, d: bv32)
    ensures d ^ (b & (c ^ d)) == (b & c) | (!b & d)
  {
  }

  function FF(b: bv32, c: bv32, d: bv32): (r: bv32)
    ensures r == Aux(0, b, c, d)
  {
    Select(b, c, d);
    d ^ (b & (c ^ d))
  }

  function FG(b: bv32, c: bv32, d: bv32): (r: bv32)
    ensures r == Aux(1, b, c, d)
  {
    FF(d, b, c)
  }

  function FH(b: bv32, c: bv32, d: bv32): (r: bv32)
    ensures r == Aux(2, b, c, d)
  {
    b ^ c ^ d
  }

  function FI(b: bv32, c: bv32, d: bv32): (r: bv32)
    ensures r == Aux(3, b, c, d)
  {
    c ^ (b | !d)
  }

  // SWAP( *words ): the word at p whatever the byte order of the machine
  function Load(block: seq<byte>, p: nat): (w: bv32)
    requires |block| == 64 && p % 4 == 0 && p < 64
    ensures w == Words(block)[p / 4]
  {
    Word(block, p / 4)
  }

  // The operation the OP macros write out, number j of its round. The operations before it led from
  // start to (a, b, c, d).
  method OP(ghost round: nat, ghost j: nat, ghost x: seq<bv32>, ghost start: State,
            f: bv32, a: bv32, b: bv32, c: bv32, d: bv32, w: bv32, s: nat, t: bv32)
    returns (r: bv32)
    requires |x| == 16 && j < 16 && State(a, b, c, d) == Operations(round, j, x, start)
    requires f == Aux(round, b, c, d) && w == x[WordIndex(round, j)] && s == Shift(round, j) && t == Table(round, j)
    ensures State(d, r, b, c) == Operations(round, j + 1, x, start)
  {
    hide Sum, Rotate, WordIndex, Table, Aux, Shift;
    r := Sum(Sum(Sum(a, f), w), t);
    r := Rotate(r, s);
    r := Sum(r, b);
  }

  // The macro of the first round, which reads the words of the block and keeps them in cw.
  method OP1(ghost start: State, cw: array<bv32>, block: seq<byte>, j: nat,
             a: bv32, b: bv32, c: bv32, d: bv32, s: nat, t: bv32)
    returns (r: bv32)
    requires |block| == 64 && cw.Length == 16 && j < 16
    requires forall i | 0 <= i < j :: cw[i] == Words(block)[i]
    requires State(a, b, c, d) == Operations(0, j, Words(block), start)
    requires s == Shift(0, j) && t == T0(j)
    modifies cw
    ensures forall i | 0 <= i <= j :: cw[i] == Words(block)[i]
    ensures State(d, r, b, c) == Operations(0, j + 1, Words(block), start)
  {
    hide Operations, Words, FF, Aux, Shift, T0, Load;
    cw[j] := Load(block, 4 * j);
    r := OP(0, j, Words(block), start, FF(b, c, d), a, b, c, d, cw[j], s, t);
  }

  // The macro of the other rounds.
  method OP2(ghost round: nat, ghost j: nat, ghost start: State, cw: array<bv32>,
             f: bv32, a: bv32, b: bv32, c: bv32, d: bv32, k: nat, s: nat, t: bv32)
    returns (r: bv32)
    requires cw.Length == 16 && j < 16 && State(a, b, c, d) == Operations(round, j, cw[..], start)
    requires f == Aux(round, b, c, d) && k == WordIndex(round, j) && s == Shift(round, j) && t == Table(round, j)
    ensures State(d, r, b, c) == Operations(round, j + 1, cw[..], start)
  {
    hide Operations, Aux, WordIndex, Shift, Table;
    r := OP(round, j, cw[..], start, f, a, b, c, d, cw[k], s, t);
  }

  // Four operations, after which the words are back in their places.
  method Row1(ghost start: State, cw: array<bv32>, block: seq<byte>, j: nat, a0: bv32, b0: bv32, c0: bv32, d0: bv32,
              ta: bv32, td: bv32, tc: bv32, tb: bv32)
    returns (a: bv32, b: bv32, c: bv32, d: bv32)
    requires |block| == 64 && cw.Length == 16 && j <= 12 && j % 4 == 0
    requires forall i | 0 <= i < j :: cw[i] == Words(block)[i]
    requires State(a0, b0, c0, d0) == Operations(0, j, Words(block), start)
    requires ta == T0(j) && td == T0(j + 1) && tc == T0(j + 2) && tb == T0(j + 3)
    modifies cw
    ensures forall i | 0 <= i < j + 4 :: cw[i] == Words(block)[i]
    ensures State(a, b, c, d) == Operations(0, j + 4, Words(block), start)
  {
    hide Operations, Words, T0;
    a, b, c, d := a0, b0, c0, d0;
    a := OP1(start, cw, block, j, a, b, c, d, 7, ta);
    d := OP1(start, cw, block, j + 1, d, a, b, c, 12, td);
    c := OP1(start, cw, block, j + 2, c, d, a, b, 17, tc);
    b := OP1(start, cw, block, j + 3, b, c, d, a, 22, tb);
  }

  method Round1(block: seq<byte>, cw: array<bv32>, a0: bv32, b0: bv32, c0: bv32, d0: bv32)
    returns (a: bv32, b: bv32, c: bv32, d: bv32)
    requires |block| == 64 && cw.Length == 16
    modifies cw
    ensures cw[..] == Words(block)
    ensures State(a, b, c, d) == Operations(0, 16, Words(block), State(a0, b0, c0, d0))
  {
    hide Operation, Words;
    a, b, c, d := a0, b0, c0, d0;
    ghost var start := State(a, b, c, d);
    a, b, c, d := Row1(start, cw, block, 0, a, b, c, d, 0xd76aa478, 0xe8c7b756, 0x242070db, 0xc1bdceee);
    a, b, c, d := Row1(start, cw, block, 4, a, b, c, d, 0xf57c0faf, 0x4787c62a, 0xa8304613, 0xfd469501);
    a, b, c, d := Row1(start, cw, block, 8, a, b, c, d, 0x698098d8, 0x8b44f7af, 0xffff5bb1, 0x895cd7be);
    a, b, c, d := Row1(start, cw, block, 12, a, b, c, d, 0x6b901122, 0xfd987193, 0xa679438e, 0x49b40821);
  }

  method Row2(ghost start: State, cw: array<bv32>, ghost j: nat, a0: bv32, b0: bv32, c0: bv32, d0: bv32,
              ka: nat, ta: bv32, kd: nat, td: bv32, kc: nat, tc: bv32, kb: nat, tb: bv32)
    returns (a: bv32, b: bv32, c: bv32, d: bv32)
    requires cw.Length == 16 && j <= 12 && j % 4 == 0
    requires State(a0, b0, c0, d0) == Operations(1, j, cw[..], start)
    requires ka == WordIndex(1, j) && kd == WordIndex(1, j + 1)
    requires kc == WordIndex(1, j + 2) && kb == WordIndex(1, j + 3)
    requires ta == T1(j) && td == T1(j + 1) && tc == T1(j + 2) && tb == T1(j + 3)
    ensures State(a, b, c, d) == Operations(1, j + 4, cw[..], start)
  {
    hide Operations, WordIndex, Aux, FG, T1;
    a, b, c, d := a0, b0, c0, d0;
    a := OP2(1, j, start, cw, FG(b, c, d), a, b, c, d, ka, 5, ta);
    d := OP2(1, j + 1, start, cw, FG(a, b, c), d, a, b, c, kd, 9, td);
    c := OP2(1, j + 2, start, cw, FG(d, a, b), c, d, a, b, kc, 14, tc);
    b := OP2(1, j + 3, start, cw, FG(c, d, a), b, c, d, a, kb, 20, tb);
  }

  method Round2(cw: array<bv32>, a0: bv32, b0: bv32, c0: bv32, d0: bv32)
    returns (a: bv32, b: bv32, c: bv32, d: bv32)
    requires cw.Length == 16
    ensures State(a, b, c, d) == Operations(1, 16, cw[..], State(a0, b0, c0, d0))
  {
    hide Operation;
    a, b, c, d := a0, b0, c0, d0;
    ghost var start := State(a, b, c, d);
    a, b, c, d := Row2(start, cw, 0, a, b, c, d, 1, 0xf61e2562, 6, 0xc040b340, 11, 0x265e5a51, 0, 0xe9b6c7aa);
    a, b, c, d := Row2(start, cw, 4, a, b, c, d, 5, 0xd62f105d, 10, 0x02441453, 15, 0xd8a1e681, 4, 0xe7d3fbc8);
    a, b, c, d := Row2(start, cw, 8, a, b, c, d, 9, 0x21e1cde6, 14, 0xc33707d6, 3, 0xf4d50d87, 8, 0x455a14ed);
    a, b, c, d := Row2(start, cw, 12, a, b, c, d, 13, 0xa9e3e905, 2, 0xfcefa3f8, 7, 0x676f02d9, 12, 0x8d2a4c8a);
  }

  method Row3(ghost start: State, cw: array<bv32>, ghost j: nat, a0: bv32, b0: bv32, c0: bv32, d0: bv32,
              ka: nat, ta: bv32, kd: nat, td: bv32, kc: nat, tc: bv32, kb: nat, tb: bv32)
    returns (a: bv32, b: bv32, c: bv32, d: bv32)
    requires cw.Length == 16 && j <= 12 && j % 4 == 0
    requires State(a0, b0, c0, d0) == Operations(2, j, cw[..], start)
    requires ka == WordIndex(2, j) && kd == WordIndex(2, j + 1)
    requires kc == WordIndex(2, j + 2) && kb == WordIndex(2, j + 3)
    requires ta == T2(j) && td == T2(j + 1) && tc == T2(j + 2) && tb == T2(j + 3)
    ensures State(a, b, c, d) == Operations(2, j + 4, cw[..], start)
  {
    hide Operations, WordIndex, Aux, FH, T2;
    a, b, c, d := a0, b0, c0, d0;
    a := OP2(2, j, start, cw, FH(b, c, d), a, b, c, d, ka, 4, ta);
    d := OP2(2, j + 1, start, cw, FH(a, b, c), d, a, b, c, kd, 11, td);
    c := OP2(2, j + 2, start, cw, FH(d, a, b), c, d, a, b, kc, 16, tc);
    b := OP2(2, j + 3, start, cw, FH(c, d, a), b, c, d, a, kb, 23, tb);
  }

  method Round3(cw: array<bv32>, a0: bv32, b0: bv32, c0: bv32, d0: bv32)
    returns (a: bv32, b: bv32, c: bv32, d: bv32)
    requires cw.Length == 16
    ensures State(a, b, c, d) == Operations(2, 16, cw[..], State(a0, b0, c0, d0))
  {
    hide Operation;
    a, b, c, d := a0, b0, c0, d0;
    ghost var start := State(a, b, c, d);
    a, b, c, d := Row3(start, cw, 0, a, b, c, d, 5, 0xfffa3942, 8, 0x8771f681, 11, 0x6d9d6122, 14, 0xfde5380c);
    a, b, c, d := Row3(start, cw, 4, a, b, c, d, 1, 0xa4beea44, 4, 0x4bdecfa9, 7, 0xf6bb4b60, 10, 0xbebfbc70);
    a, b, c, d := Row3(start, cw, 8, a, b, c, d, 13, 0x289b7ec6, 0, 0xeaa127fa, 3, 0xd4ef3085, 6, 0x04881d05);
    a, b, c, d := Row3(start, cw, 12, a, b, c, d, 9, 0xd9d4d039, 12, 0xe6db99e5, 15, 0x1fa27cf8, 2, 0xc4ac5665);
  }

  method Row4(ghost start: State, cw: array<bv32>, ghost j: nat, a0: bv32, b0: bv32, c0: bv32, d0: bv32,
              ka: nat, ta: bv32, kd: nat, td: bv32, kc: nat, tc: bv32, kb: nat, tb: bv32)
    returns (a: bv32, b: bv32, c: bv32, d: bv32)
    requires cw.Length == 16 && j <= 12 && j % 4 == 0
    requires State(a0, b0, c0, d0) == Operations(3, j, cw[..], start)
    requires ka == WordIndex(3, j) && kd == WordIndex(3, j + 1)
    requires kc == WordIndex(3, j + 2) && kb == WordIndex(3, j + 3)
    requires ta == T3(j) && td == T3(j + 1) && tc == T3(j + 2) && tb == T3(j + 3)
    ensures State(a, b, c, d) == Operations(3, j + 4, cw[..], start)
  {
    hide Operations, WordIndex, Aux, FI, T3;
    a, b, c, d := a0, b0, c0, d0;
    a := OP2(3, j, start, cw, FI(b, c, d), a, b, c, d, ka, 6, ta);
    d := OP2(3, j + 1, start, cw, FI(a, b, c), d, a, b, c, kd, 10, td);
    c := OP2(3, j + 2, start, cw, FI(d, a, b), c, d, a, b, kc, 15, tc);
    b := OP2(3, j + 3, start, cw, FI(c, d, a), b, c, d, a, kb, 21, tb);
  }

  method Round4(cw: array<bv32>, a0: bv32, b0: bv32, c0: bv32, d0: bv32)
    returns (a: bv32, b: bv32, c: bv32, d: bv32)
    requires cw.Length == 16
    ensures State(a, b, c, d) == Operations(3, 16, cw[..], State(a0, b0, c0, d0))
  {
    hide Operation;
    a, b, c, d := a0, b0, c0, d0;
    ghost var start := State(a, b, c, d);
    a, b, c, d := Row4(start, cw, 0, a, b, c, d, 0, 0xf4292244, 7, 0x432aff97, 14, 0xab9423a7, 5, 0xfc93a039);
    a, b, c, d := Row4(start, cw, 4, a, b, c, d, 12, 0x655b59c3, 3, 0x8f0ccc92, 10, 0xffeff47d, 1, 0x85845dd1);
    a, b, c, d := Row4(start, cw, 8, a, b, c, d, 8, 0x6fa87e4f, 15, 0xfe2ce6e0, 6, 0xa3014314, 13, 0x4e0811a1);
    a, b, c, d := Row4(start, cw, 12, a, b, c, d, 4, 0xf7537e82, 11, 0xbd3af235, 2, 0x2ad7d2bb, 9, 0xeb86d391);
  }

  // One pass of the loop over the blocks.
  method Block(block: seq<byte>, cw: array<bv32>, a0: bv32, b0: bv32, c0: bv32, d0: bv32)
    returns (a: bv32, b: bv32, c: bv32, d: bv32)
    requires |block| == 64 && cw.Length == 16
    modifies cw
    ensures State(a, b, c, d) == Compress(State(a0, b0, c0, d0), block)
  {
    hide Operations, Words, Sum;
    a, b, c, d := Round1(block, cw, a0, b0, c0, d0);
    a, b, c, d := Round2(cw, a, b, c, d);
    a, b, c, d := Round3(cw, a, b, c, d);
    a, b, c, d := Round4(cw, a, b, c, d);
    RoundsInOrder(Words(block), State(a0, b0, c0, d0));
    a, b, c, d := Sum(a0, a), Sum(b0, b), Sum(c0, c), Sum(d0, d);
  }

  lemma RoundsInOrder(x: seq<bv32>, s: State)
    requires |x| == 16
    ensures Rounds(4, x, s) ==
            Operations(3, 16, x, Operations(2, 16, x, Operations(1, 16, x, Operations(0, 16, x, s))))
  {
    hide Operations;
    assert Rounds(1, x, s) == Operations(0, 16, x, Rounds(0, x, s));
    assert Rounds(2, x, s) == Operations(1, 16, x, Rounds(1, x, s));
  }

  // The loop of md5_process_block.
  method AllBlocks(data: seq<byte>, a0: bv32, b0: bv32, c0: bv32, d0: bv32)
    returns (a: bv32, b: bv32, c: bv32, d: bv32)
    requires Whole(|data|)
    ensures State(a, b, c, d) == Fold(State(a0, b0, c0, d0), data)
  {
    hide Compress;
    var cw := new bv32[16];
    a, b, c, d := a0, b0, c0, d0;
    var words := 0;
    ghost var n, k := |data| / 64, 0;
    while words < |data|
      invariant words == 64 * k && k <= n
      invariant State(a, b, c, d) == Fold(State(a0, b0, c0, d0), data[..words])
    {
      assert data[..words + 64][..words] == data[..words];
      assert data[..words + 64][words..] == data[words..words + 64];
      a, b, c, d := Block(data[words..words + 64], cw, a, b, c, d);
      words, k := words + 64, k + 1;
    }
    assert data[..words] == data;
  }

  // ----- the two-word counter

  // What adding a length does to the counter: the carry is seen by the sum being less than the length.
  function Count(low: nat, high: nat, len: nat): (nat, nat) {
    var l := (low + len) % WORD;
    (l, if l < len then (high + 1) % WORD else high)
  }

  function Value(total: (nat, nat)): nat { total.0 + WORD * total.1 }

  function Wrap(n: nat): nat { n % (WORD * WORD) }

  // The counter counts modulo 2^64 exactly as long as the low word overflows at most once.
  lemma CountsIff(low: nat, high: nat, len: nat)
    requires low < WORD && high < WORD && len < WORD * WORD
    ensures Count(low, high, len).0 < WORD && Count(low, high, len).1 < WORD
    ensures Value(Count(low, high, len)) == Wrap(low + WORD * high + len) <==> low + len < 2 * WORD
  {
    var (l, h) := Count(low, high, len);
    var q := (low + len) / WORD;
    assert low + len == l + WORD * q;
    var sum := low + WORD * high + len;
    assert sum == l + WORD * (high + q);
    var r := (high + q) % WORD;
    Residue(sum, WORD * WORD, (high + q) / WORD, l + WORD * r);
    assert sum % (WORD * WORD) == l + WORD * r;
    if low + len < WORD {
      assert q == 0;
    } else if low + len < 2 * WORD {
      assert q == 1;
    } else {
      assert 2 <= q <= WORD;
      assert r != h;
    }
  }

  lemma WrapSum(a: nat, b: nat)
    ensures Wrap(Wrap(a) + b) == Wrap(a + b)
  {
    var m := WORD * WORD;
    var c := a % m + b;
    Residue(a + b, m, a / m + c / m, c % m);
  }

  lemma WholePart(n: nat)
    ensures n / 64 * 64 <= n && n - n / 64 * 64 == n % 64 && Whole(n / 64 * 64) && (n > 64 ==> n / 64 * 64 > 0)
    ensures Whole(n) ==> n % 64 == 0
  {
  }

  lemma Split(front: seq<byte>, s: seq<byte>, n: nat)
    requires n <= |s|
    ensures front + s[..n] + s[n..] == front + s
  {
  }

  // ----- the context

  class Context {
    var A: bv32
    var B: bv32
    var C: bv32
    var D: bv32
    var total0: nat
    var total1: nat
    var buflen: nat
    const buffer: array<byte>
    // what has gone through md5_process_block
    ghost var flushed: seq<byte>

    ghost function Chain(): State reads `A, `B, `C, `D { State(A, B, C, D) }

    ghost predicate Counters() reads `total0, `total1 { total0 < WORD && total1 < WORD }

    ghost function Total(): nat reads `total0, `total1 { Value((total0, total1)) }

    // The words of the state are the fold over the flushed blocks, the counter is their length modulo 2^64.
    ghost predicate Consistent() reads `A, `B, `C, `D, `total0, `total1, `flushed {
      && Whole(|flushed|)
      && Chain() == Fold(INIT, flushed)
      && Total() == Wrap(|flushed|)
    }

    // The buffer holds at most one full block.
    ghost predicate Valid() reads this, buffer {
      Counters() && Consistent() && buffer.Length == 128 && buflen <= 64
    }

    // All the bytes the context was fed.
    ghost function Fed(): seq<byte>
      requires buflen <= buffer.Length
      reads this, buffer
    {
      flushed + buffer[..buflen]
    }

    constructor ()
      ensures Valid() && Fed() == [] && fresh(buffer)
    {
      A, B, C, D := 0x67452301, 0xefcdab89, 0x98badcfe, 0x10325476;
      total0, total1, buflen := 0, 0, 0;
      buffer := new byte[128];
      flushed := [];
    }

    // md5_read_ctx: the words in little endian order
    method Read() returns (digest: seq<byte>)
      ensures digest == Output(Chain())
    {
      digest := Bytes(A) + Bytes(B) + Bytes(C) + Bytes(D);
    }

    method AddToTotal(len: nat)
      requires Counters() && len < WORD
      modifies this`total0, this`total1
      ensures Counters() && Total() == Wrap(old(Total()) + len)
    {
      CountsIff(total0, total1, len);
      total0 := (total0 + len) % WORD;
      if total0 < len {
        total1 := (total1 + 1) % WORD;
      }
    }

    method ProcessBlock(data: seq<byte>)
      requires Whole(|data|) && |data| < WORD && Counters()
      modifies this`A, this`B, this`C, this`D, this`total0, this`total1, this`flushed
      ensures Chain() == Fold(old(Chain()), data) && flushed == old(flushed) + data
      ensures Counters() && Total() == Wrap(old(Total()) + |data|)
      ensures old(Consistent()) ==> Consistent()
    {
      hide Fold, Value, Wrap, Whole;
      AddToTotal(|data|);
      A, B, C, D := AllBlocks(data, A, B, C, D);
      flushed := flushed + data;
      if old(Consistent()) {
        WrapSum(old(|flushed|), |data|);
        WholeSum(old(|flushed|), |data|);
        FoldConcat(INIT, old(flushed), data);
      }
    }

    // memmove( &buffer[at], bytes, |bytes| )
    method Store(at: nat, bytes: seq<byte>)
      requires at + |bytes| <= buffer.Length
      modifies buffer
      ensures buffer[..at + |bytes|] == old(buffer[..at]) + bytes
      ensures buffer[at + |bytes|..] == old(buffer[at + |bytes|..])
    {
      var i := 0;
      while i < |bytes|
        invariant i <= |bytes|
        invariant buffer[..at + i] == old(buffer[..at]) + bytes[..i]
        invariant buffer[at + i..] == old(buffer[at + i..])
      {
        buffer[at + i] := bytes[i];
        i := i + 1;
      }
    }

    // Whole blocks leave the overfull buffer.
    method Empty()
      requires Counters() && Consistent() && buffer.Length == 128 && 64 < buflen <= 128
      modifies this, buffer
      ensures Valid() && Fed() == old(Fed()) && buflen == old(buflen) % 64
    {
      hide Consistent, Fold, Total, Counters, Whole, Wrap;
      WholePart(buflen);
      var n := buflen / 64 * 64;
      Split(flushed, buffer[..buflen], n);
      ghost var tail := buffer[n..buflen];
      ghost var fed := Fed();
      ProcessBlock(buffer[..n]);
      assert flushed + tail == fed;
      Store(0, buffer[n..buflen]);
      buflen := buflen % 64;
      assert buffer[..buflen] == tail;
    }

    // The bytes that fit go behind those already in the buffer.
    method FillUp(data: seq<byte>) returns (rest: seq<byte>)
      requires Valid() && buflen > 0
      modifies this, buffer
      ensures Valid() && Fed() + rest == old(Fed()) + data && |rest| <= |data|
      ensures rest != [] ==> buflen == 0
    {
      hide Consistent, Fold, Total, Counters, Whole, Wrap;
      var leftOver := buflen;
      var add := if 128 - leftOver > |data| then |data| else 128 - leftOver;
      ghost var held := buffer[..leftOver] + data[..add];
      Store(leftOver, data[..add]);
      buflen := buflen + add;
      assert buffer[..buflen] == held;
      assert Fed() == old(Fed()) + data[..add];
      if leftOver + add > 64 {
        Empty();
      }
      rest := data[add..];
      assert data == data[..add] + rest;
    }

    // The available complete blocks, unless they are just one.
    method Complete(data: seq<byte>) returns (rest: seq<byte>)
      requires Valid() && buflen == 0 && |data| < WORD
      modifies this, buffer
      ensures Valid() && buflen == 0 && |rest| <= 64 && Fed() + rest == old(Fed()) + data
    {
      hide Consistent, Fold, Total, Counters, Whole, Wrap;
      rest := data;
      if |data| > 64 {
        WholePart(|data|);
        var n := |data| / 64 * 64;
        ProcessBlock(data[..n]);
        rest := data[n..];
        assert data == data[..n] + rest;
      }
    }

    method ProcessBytes(data: seq<byte>)
      requires Valid() && |data| < WORD
      modifies this, buffer
      ensures Valid() && Fed() == old(Fed()) + data
    {
      hide Consistent, Counters, Whole, Wrap;
      var rest := data;
      if buflen != 0 {
        rest := FillUp(data);
      }
      if rest != [] {
        rest := Complete(rest);
      }
      Keep(rest);
    }

    // What is left, at most one block, moves into the empty buffer.
    method Keep(rest: seq<byte>)
      requires Valid() && |rest| <= 64 && (rest != [] ==> buflen == 0)
      modifies this, buffer
      ensures Valid() && Fed() == old(Fed()) + rest
    {
      hide Consistent, Counters;
      if |rest| > 0 {
        Store(0, rest);
        buflen := |rest|;
        assert buffer[..buflen] == rest;
      }
    }

    // md5_finish_ctx
    method Finish() returns (digest: seq<byte>)
      requires Valid()
      modifies this, buffer
      ensures digest == Digest(old(Fed()))
    {
      hide Fold, Value, LittleEndian, Padding, BitLength, Output, Whole, Wrap;
      var bytes := buflen;
      ghost var fed := Fed();
      AddToTotal(bytes);
      WrapSum(|flushed|, bytes);
      var pad := if bytes >= 56 then 64 + 56 - bytes else 56 - bytes;
      Store(bytes, FILLBUF[..pad]);
      FillsUp(|flushed|, bytes, pad);
      Store(bytes + pad, LittleEndian(total0 * 8 % WORD));
      Store(bytes + pad + 4, LittleEndian(total1 * 8 % WORD + total0 / 0x2000_0000));
      CountsBits(total0, total1, |fed|);
      ghost var last := buffer[..bytes + pad + 8];
      assert last == old(buffer[..bytes]) + Padding(|fed|) + BitLength(|fed|);
      assert Padded(fed) == flushed + last;
      WholeSum(|flushed|, |last|);
      FoldConcat(INIT, flushed, last);
      ProcessBlock(buffer[..bytes + pad + 8]);
      digest := Read();
    }
  }

  const FILLBUF: seq<byte> := [0x80] + Zeros(63)

  // The piece of fillbuf that is taken is the padding of section 3.1.
  lemma FillsUp(flushed: nat, bytes: nat, pad: nat)
    requires Whole(flushed) && bytes <= 64 && pad == (if bytes >= 56 then 64 + 56 - bytes else 56 - bytes)
    ensures Padding(flushed + bytes) == FILLBUF[..pad] && Whole(bytes + pad + 8)
  {
    assert (flushed + bytes) % 64 == bytes % 64 by {
      Residue(flushed + bytes, 64, flushed / 64 + bytes / 64, bytes % 64);
    }
  }

  // The shifted words of the counter are the length in bits of section 3.2, modulo 2^64.
  lemma CountsBits(low: nat, high: nat, len: nat)
    requires low < WORD && high < WORD && Value((low, high)) == Wrap(len)
    ensures BitLength(len) == LittleEndian(low * 8 % WORD) + LittleEndian(high * 8 % WORD + low / 0x2000_0000)
  {
    hide LittleEndian;
    Eightfold(low);
    Eightfold(high);
    var q := len / (WORD * WORD);
    assert len == low + WORD * high + WORD * WORD * q;
    var l, h, v := low * 8 % WORD, low / 0x2000_0000, high * 8 % WORD;
    TwoWords(8 * len, l, v + h, high / 0x2000_0000 + 8 * q);
  }

  // The three bits a word loses on the left, and what is left of it.
  lemma Eightfold(n: nat)
    requires n < WORD
    ensures 8 * n == n / 0x2000_0000 * WORD + n * 8 % WORD
    ensures n / 0x2000_0000 < 8 && n * 8 % WORD <= WORD - 8
  {
    Residue(8 * n, WORD, n / 0x2000_0000, n % 0x2000_0000 * 8);
  }

  lemma TwoWords(n: nat, low: nat, high: nat, q: nat)
    requires low < WORD && high < WORD && n == low + WORD * high + WORD * WORD * q
    ensures n % WORD == low && n / WORD % WORD == high
  {
    Residue(n, WORD, high + WORD * q, low);
    Residue(high + WORD * q, WORD, q, high);
  }
}
