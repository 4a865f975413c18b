// An entry of the test suite of RFC 1321, section A.5, worked out operation by operation.

module Md5Suite {
  import opened Md5Spec

  // "abcdefghijklmnopqrstuvwxyz"
  const MESSAGE: seq<byte> := [
    97, 98, 99, 100, 101, 102, 103, 104, 105, 106, 107, 108, 109, 110, 111, 112, 113, 114, 115, 116, 117, 118, 119,
    120, 121, 122]

  // the words of its one block, with padding and length
  const WORDS: seq<bv32> := [
    0x64636261, 0x68676665, 0x6c6b6a69, 0x706f6e6d, 0x74737271, 0x78777675, 0x00807a79, 0x00000000,
    0x00000000, 0x00000000, 0x00000000, 0x00000000, 0x00000000, 0x00000000, 0x000000d0, 0x00000000]

  // c3fcd3d76192e4007dfb496cca67e13b
  const DIGEST: seq<byte> := [
    0xc3, 0xfc, 0xd3, 0xd7, 0x61, 0x92, 0xe4, 0x00, 0x7d, 0xfb, 0x49, 0x6c, 0xca, 0x67, 0xe1, 0x3b]

  // Operation j of a round on the words, with the word, the table entry and the shift that belong to it, and
  // what the auxiliary function and the sum come to.
  lemma Step(round: nat, j: nat, s: State, w: bv32, t: bv32, n: nat, aux: bv32, sum: bv32)
    requires j < 16 && WORDS[WordIndex(round, j)] == w && Table(round, j) == t && Shift(round, j) == n
    requires Aux(round, s.b, s.c, s.d) == aux && Sum(Sum(Sum(s.a, aux), w), t) == sum
    ensures Operation(round, j, WORDS, s) == State(s.d, Sum(Rotate(sum, n), s.b), s.b, s.c)
  {
    hide WordIndex, Table, Shift, Aux, Sum, Rotate;
  }

  // Operations j and j + 1.
  function Two(round: nat, j: nat, s: State): State
    requires j < 15
  {
    Operation(round, j + 1, WORDS, Operation(round, j, WORDS, s))
  }

  lemma ByTwo(round: nat, j: nat, s: State)
    requires j < 15
    ensures Operations(round, j + 2, WORDS, s) == Two(round, j, Operations(round, j, WORDS, s))
  {
    hide Operation;
    assert Operations(round, j + 1, WORDS, s) == Operation(round, j, WORDS, Operations(round, j, WORDS, s));
  }

  lemma NoStep(round: nat, s: State)
    ensures Operations(round, 0, WORDS, s) == s
  {
  }

  lemma Steps0x0()
    ensures Two(0, 0, State(0x67452301, 0xefcdab89, 0x98badcfe, 0x10325476)) ==
            State(0x98badcfe, 0xaab1aaaa, 0xd6d117a6, 0xefcdab89)
  {
    hide Operation;
    Step(0, 0, State(0x67452301, 0xefcdab89, 0x98badcfe, 0x10325476), 0x64636261, 0xd76aa478, 7,
         0x98badcfe, 0x3bce06d8);
    Step(0, 1, State(0x10325476, 0xd6d117a6, 0xefcdab89, 0x98badcfe), 0x68676665, 0xe8c7b756, 12,
         0xceebcbd8, 0x304d3e09);
  }

  lemma Steps0x2()
    ensures Two(0, 2, State(0x98badcfe, 0xaab1aaaa, 0xd6d117a6, 0xefcdab89)) ==
            State(0xd6d117a6, 0x4503b812, 0x227d8cf1, 0xaab1aaaa)
  {
    hide Operation;
    Step(0, 2, State(0x98badcfe, 0xaab1aaaa, 0xd6d117a6, 0xefcdab89), 0x6c6b6a69, 0x242070db, 17,
         0xc7dd03a3, 0xf123bbe5);
    Step(0, 3, State(0xefcdab89, 0x227d8cf1, 0xaab1aaaa, 0xd6d117a6), 0x706f6e6d, 0xc1bdceee, 22,
         0xf6b19ba6, 0x18ac848a);
  }

  lemma Steps0x4()
    ensures Two(0, 4, State(0xd6d117a6, 0x4503b812, 0x227d8cf1, 0xaab1aaaa)) ==
            State(0x227d8cf1, 0xa811b278, 0xfe15f787, 0x4503b812)
  {
    hide Operation;
    Step(0, 4, State(0xd6d117a6, 0x4503b812, 0x227d8cf1, 0xaab1aaaa), 0x74737271, 0xf57c0faf, 7,
         0xaab18ab8, 0xeb72247e);
    Step(0, 5, State(0xaab1aaaa, 0xfe15f787, 0x4503b812, 0x227d8cf1), 0x78777675, 0x4787c62a, 12,
         0x4469b872, 0xaf1a9fbb);
  }

  lemma Steps0x6()
    ensures Two(0, 6, State(0x227d8cf1, 0xa811b278, 0xfe15f787, 0x4503b812)) ==
            State(0xfe15f787, 0xda9bbb0d, 0xb71122fc, 0xa811b278)
  {
    hide Operation;
    Step(0, 6, State(0x227d8cf1, 0xa811b278, 0xfe15f787, 0x4503b812), 0x00807a79, 0xa8304613, 17,
         0xed13ba02, 0xb842077f);
    Step(0, 7, State(0x4503b812, 0xb71122fc, 0xa811b278, 0xfe15f787), 0x00000000, 0xfd469501, 22,
         0xe815f77b, 0x2a60448e);
  }

  lemma Steps0x8()
    ensures Two(0, 8, State(0xfe15f787, 0xda9bbb0d, 0xb71122fc, 0xa811b278)) ==
            State(0xb71122fc, 0x2bbe757f, 0xae752899, 0xda9bbb0d)
  {
    hide Operation;
    Step(0, 8, State(0xfe15f787, 0xda9bbb0d, 0xb71122fc, 0xa811b278), 0x00000000, 0x698098d8, 7,
         0xb211227c, 0x19a7b2db);
    Step(0, 9, State(0xa811b278, 0xae752899, 0xda9bbb0d, 0xb71122fc), 0x00000000, 0x8b44f7af, 12,
         0x9b112a6d, 0xce67d494);
  }

  lemma Steps0x10()
    ensures Two(0, 10, State(0xb71122fc, 0x2bbe757f, 0xae752899, 0xda9bbb0d)) ==
            State(0xae752899, 0x56cfa5cb, 0x7d4bd80b, 0x2bbe757f)
  {
    hide Operation;
    Step(0, 10, State(0xb71122fc, 0x2bbe757f, 0xae752899, 0xda9bbb0d), 0x00000000, 0xffff5bb1, 17,
         0xfa35aa19, 0xb14628c6);
    Step(0, 11, State(0xda9bbb0d, 0x7d4bd80b, 0x2bbe757f, 0xae752899), 0x00000000, 0x895cd7be, 22,
         0xab3e709b, 0x0f370366);
  }

  lemma Steps0x12()
    ensures Two(0, 12, State(0xae752899, 0x56cfa5cb, 0x7d4bd80b, 0x2bbe757f)) ==
            State(0x7d4bd80b, 0x85567d90, 0x1754a316, 0x56cfa5cb)
  {
    hide Operation;
    Step(0, 12, State(0xae752899, 0x56cfa5cb, 0x7d4bd80b, 0x2bbe757f), 0x00000000, 0x6b901122, 7,
         0x7d7bd03f, 0x978109fa);
    Step(0, 13, State(0x2bbe757f, 0x1754a316, 0x56cfa5cb, 0x7d4bd80b), 0x00000000, 0xfd987193, 12,
         0x7e4ff90b, 0xa7a6e01d);
  }

  lemma Steps0x14()
    ensures Two(0, 14, State(0x7d4bd80b, 0x85567d90, 0x1754a316, 0x56cfa5cb)) ==
            State(0x1754a316, 0x608d6b7e, 0x00df74d5, 0x85567d90)
  {
    hide Operation;
    Step(0, 14, State(0x7d4bd80b, 0x85567d90, 0x1754a316, 0x56cfa5cb), 0x000000d0, 0xa679438e, 17,
         0x57dda15b, 0x7ba2bdc4);
    Step(0, 15, State(0x56cfa5cb, 0x00df74d5, 0x85567d90, 0x1754a316), 0x00000000, 0x49b40821, 22,
         0x1756f792, 0xb7daa57e);
  }

  lemma Round0()
    ensures Operations(0, 16, WORDS, State(0x67452301, 0xefcdab89, 0x98badcfe, 0x10325476)) ==
            State(0x1754a316, 0x608d6b7e, 0x00df74d5, 0x85567d90)
  {
    hide Operations, Two;
    var s := State(0x67452301, 0xefcdab89, 0x98badcfe, 0x10325476);
    NoStep(0, s);
    Steps0x0();
    ByTwo(0, 0, s);
    Steps0x2();
    ByTwo(0, 2, s);
    Steps0x4();
    ByTwo(0, 4, s);
    Steps0x6();
    ByTwo(0, 6, s);
    Steps0x8();
    ByTwo(0, 8, s);
    Steps0x10();
    ByTwo(0, 10, s);
    Steps0x12();
    ByTwo(0, 12, s);
    Steps0x14();
    ByTwo(0, 14, s);
  }

  lemma Steps1x0()
    ensures Two(1, 0, State(0x1754a316, 0x608d6b7e, 0x00df74d5, 0x85567d90)) ==
            State(0x00df74d5, 0x5dcee119, 0x2d8071cc, 0x608d6b7e)
  {
    hide Operation;
    Step(1, 0, State(0x1754a316, 0x608d6b7e, 0x00df74d5, 0x85567d90), 0x68676665, 0xf61e2562, 5,
         0x008d6955, 0x76679832);
    Step(1, 1, State(0x85567d90, 0x2d8071cc, 0x608d6b7e, 0x00df74d5), 0x00807a79, 0xc040b340, 9,
         0x60807bee, 0xa6982737);
  }

  lemma Steps1x2()
    ensures Two(1, 2, State(0x00df74d5, 0x5dcee119, 0x2d8071cc, 0x608d6b7e)) ==
            State(0x2d8071cc, 0x4c2145b3, 0xedfe7e4b, 0x5dcee119)
  {
    hide Operation;
    Step(1, 2, State(0x00df74d5, 0x5dcee119, 0x2d8071cc, 0x608d6b7e), 0x00000000, 0x265e5a51, 14,
         0x4d8c7198, 0x74ca40be);
    Step(1, 3, State(0x608d6b7e, 0xedfe7e4b, 0x5dcee119, 0x2d8071cc), 0x64636261, 0xe9b6c7aa, 20,
         0x7dcef059, 0x2c7685e2);
  }

  lemma Steps1x4()
    ensures Two(1, 4, State(0x2d8071cc, 0x4c2145b3, 0xedfe7e4b, 0x5dcee119)) ==
            State(0xedfe7e4b, 0x977efd2a, 0x570c43e0, 0x4c2145b3)
  {
    hide Operation;
    Step(1, 4, State(0x2d8071cc, 0x4c2145b3, 0xedfe7e4b, 0x5dcee119), 0x78777675, 0xd62f105d, 5,
         0xec305f53, 0x685757f1);
    Step(1, 5, State(0x5dcee119, 0x570c43e0, 0x4c2145b3, 0xedfe7e4b), 0x00000000, 0x02441453, 9,
         0x450d43f0, 0xa520395c);
  }

  lemma Steps1x6()
    ensures Two(1, 6, State(0xedfe7e4b, 0x977efd2a, 0x570c43e0, 0x4c2145b3)) ==
            State(0x570c43e0, 0xc9f162d4, 0xc28ab49d, 0x977efd2a)
  {
    hide Operation;
    Step(1, 6, State(0xedfe7e4b, 0x977efd2a, 0x570c43e0, 0x4c2145b3), 0x00000000, 0xd8a1e681, 14,
         0x172c4762, 0xddccac2e);
    Step(1, 7, State(0x4c2145b3, 0xc28ab49d, 0x977efd2a, 0x570c43e0), 0x74737271, 0xe7d3fbc8, 20,
         0xc27abc8a, 0x6ae37076);
  }

  lemma Steps1x8()
    ensures Two(1, 8, State(0x570c43e0, 0xc9f162d4, 0xc28ab49d, 0x977efd2a)) ==
            State(0xc28ab49d, 0x89980104, 0x25bfae3b, 0xc9f162d4)
  {
    hide Operation;
    Step(1, 8, State(0x570c43e0, 0xc9f162d4, 0xc28ab49d, 0x977efd2a), 0x00000000, 0x21e1cde6, 5,
         0xc1f06095, 0x3ade725b);
    Step(1, 9, State(0x977efd2a, 0x25bfae3b, 0xc9f162d4, 0xc28ab49d), 0x000000d0, 0xc33707d6, 9,
         0x09fbe659, 0x64b1ec29);
  }

  lemma Steps1x10()
    ensures Two(1, 10, State(0xc28ab49d, 0x89980104, 0x25bfae3b, 0xc9f162d4)) ==
            State(0x25bfae3b, 0xe6d3b398, 0xf8c8365f, 0x89980104)
  {
    hide Operation;
    Step(1, 10, State(0xc28ab49d, 0x89980104, 0x25bfae3b, 0xc9f162d4), 0x706f6e6d, 0xf4d50d87, 14,
         0xad9e8c2f, 0xd56dbcc0);
    Step(1, 11, State(0xc9f162d4, 0xf8c8365f, 0x89980104, 0x25bfae3b), 0x00000000, 0x455a14ed, 20,
         0xa888271f, 0xb7d39ee0);
  }

  lemma Steps1x12()
    ensures Two(1, 12, State(0x25bfae3b, 0xe6d3b398, 0xf8c8365f, 0x89980104)) ==
            State(0xf8c8365f, 0x927b72e2, 0xf54d8710, 0xe6d3b398)
  {
    hide Operation;
    Step(1, 12, State(0x25bfae3b, 0xe6d3b398, 0xf8c8365f, 0x89980104), 0x00000000, 0xa9e3e905, 5,
         0xf0d0375b, 0xc073ce9b);
    Step(1, 13, State(0x89980104, 0xf54d8710, 0xe6d3b398, 0xf8c8365f), 0x6c6b6a69, 0xfcefa3f8, 9,
         0xf65b8790, 0xe94e96f5);
  }

  lemma Steps1x14()
    ensures Two(1, 14, State(0xf8c8365f, 0x927b72e2, 0xf54d8710, 0xe6d3b398)) ==
            State(0xf54d8710, 0xaeb35766, 0x2e69afc7, 0x927b72e2)
  {
    hide Operation;
    Step(1, 14, State(0xf8c8365f, 0x927b72e2, 0xf54d8710, 0xe6d3b398), 0x00000000, 0x676f02d9, 14,
         0x935f3680, 0xf3966fb8);
    Step(1, 15, State(0xe6d3b398, 0x2e69afc7, 0x927b72e2, 0xf54d8710), 0x00000000, 0x8d2a4c8a, 20,
         0x267bf7e2, 0x9a79f804);
  }

  lemma Round1()
    ensures Operations(1, 16, WORDS, State(0x1754a316, 0x608d6b7e, 0x00df74d5, 0x85567d90)) ==
            State(0xf54d8710, 0xaeb35766, 0x2e69afc7, 0x927b72e2)
  {
    hide Operations, Two;
    var s := State(0x1754a316, 0x608d6b7e, 0x00df74d5, 0x85567d90);
    NoStep(1, s);
    Steps1x0();
    ByTwo(1, 0, s);
    Steps1x2();
    ByTwo(1, 2, s);
    Steps1x4();
    ByTwo(1, 4, s);
    Steps1x6();
    ByTwo(1, 6, s);
    Steps1x8();
    ByTwo(1, 8, s);
    Steps1x10();
    ByTwo(1, 10, s);
    Steps1x12();
    ByTwo(1, 12, s);
    Steps1x14();
    ByTwo(1, 14, s);
  }

  lemma Steps2x0()
    ensures Two(2, 0, State(0xf54d8710, 0xaeb35766, 0x2e69afc7, 0x927b72e2)) ==
            State(0x2e69afc7, 0x4c8ffa80, 0xb4bf680e, 0xaeb35766)
  {
    hide Operation;
    Step(2, 0, State(0xf54d8710, 0xaeb35766, 0x2e69afc7, 0x927b72e2), 0x78777675, 0xfffa3942, 4,
         0x12a18a43, 0x8060c10a);
    Step(2, 1, State(0x927b72e2, 0xb4bf680e, 0xaeb35766, 0x2e69afc7), 0x00000000, 0x8771f681, 11,
         0x346590af, 0x4e52fa12);
  }

  lemma Steps2x2()
    ensures Two(2, 2, State(0x2e69afc7, 0x4c8ffa80, 0xb4bf680e, 0xaeb35766)) ==
            State(0xb4bf680e, 0x06a5e211, 0x2361ed0a, 0x4c8ffa80)
  {
    hide Operation;
    Step(2, 2, State(0x2e69afc7, 0x4c8ffa80, 0xb4bf680e, 0xaeb35766), 0x00000000, 0x6d9d6122, 16,
         0x5683c5e8, 0xf28ad6d1);
    Step(2, 3, State(0xaeb35766, 0x2361ed0a, 0x4c8ffa80, 0xb4bf680e), 0x000000d0, 0xfde5380c, 23,
         0xdb517f84, 0x87ea0fc6);
  }

  lemma Steps2x4()
    ensures Two(2, 4, State(0xb4bf680e, 0x06a5e211, 0x2361ed0a, 0x4c8ffa80)) ==
            State(0x2361ed0a, 0xf1e6dc7a, 0xb9c0c733, 0x06a5e211)
  {
    hide Operation;
    Step(2, 4, State(0xb4bf680e, 0x06a5e211, 0x2361ed0a, 0x4c8ffa80), 0x68676665, 0xa4beea44, 4,
         0x694bf59b, 0x2b31ae52);
    Step(2, 5, State(0x4c8ffa80, 0xb9c0c733, 0x06a5e211, 0x2361ed0a), 0x74737271, 0x4bdecfa9, 11,
         0x9c04c828, 0xa8e704c2);
  }

  lemma Steps2x6()
    ensures Two(2, 6, State(0x2361ed0a, 0xf1e6dc7a, 0xb9c0c733, 0x06a5e211)) ==
            State(0xb9c0c733, 0x8d41bf99, 0x23a9451b, 0xf1e6dc7a)
  {
    hide Operation;
    Step(2, 6, State(0x2361ed0a, 0xf1e6dc7a, 0xb9c0c733, 0x06a5e211), 0x00000000, 0xf6bb4b60, 16,
         0x4e83f958, 0x68a131c2);
    Step(2, 7, State(0x06a5e211, 0x23a9451b, 0xf1e6dc7a, 0xb9c0c733), 0x00000000, 0xbebfbc70, 23,
         0x6b8f5e52, 0x30f4fcd3);
  }

  lemma Steps2x8()
    ensures Two(2, 8, State(0xb9c0c733, 0x8d41bf99, 0x23a9451b, 0xf1e6dc7a)) ==
            State(0x23a9451b, 0x02c0b11c, 0xa3e88ead, 0x8d41bf99)
  {
    hide Operation;
    Step(2, 8, State(0xb9c0c733, 0x8d41bf99, 0x23a9451b, 0xf1e6dc7a), 0x00000000, 0x289b7ec6, 4,
         0x5f0e26f8, 0x416a6cf1);
    Step(2, 9, State(0xf1e6dc7a, 0xa3e88ead, 0x8d41bf99, 0x23a9451b), 0x64636261, 0xeaa127fa, 11,
         0x0d00742f, 0x4debdb04);
  }

  lemma Steps2x10()
    ensures Two(2, 10, State(0x23a9451b, 0x02c0b11c, 0xa3e88ead, 0x8d41bf99)) ==
            State(0xa3e88ead, 0x90a35af5, 0x66f6468d, 0x02c0b11c)
  {
    hide Operation;
    Step(2, 10, State(0x23a9451b, 0x02c0b11c, 0xa3e88ead, 0x8d41bf99), 0x706f6e6d, 0xd4ef3085, 16,
         0x2c698028, 0x95716435);
    Step(2, 11, State(0x8d41bf99, 0x66f6468d, 0x02c0b11c, 0xa3e88ead), 0x00807a79, 0x04881d05, 23,
         0xc7de793c, 0x5a28d053);
  }

  lemma Steps2x12()
    ensures Two(2, 12, State(0xa3e88ead, 0x90a35af5, 0x66f6468d, 0x02c0b11c)) ==
            State(0x66f6468d, 0xa04b4904, 0xb5d41f9c, 0x90a35af5)
  {
    hide Operation;
    Step(2, 12, State(0xa3e88ead, 0x90a35af5, 0x66f6468d, 0x02c0b11c), 0x00000000, 0xd9d4d039, 4,
         0xf495ad64, 0x72530c4a);
    Step(2, 13, State(0x02c0b11c, 0xb5d41f9c, 0x90a35af5, 0x66f6468d), 0x00000000, 0xe6db99e5, 11,
         0x438103e4, 0x2d1d4ee5);
  }

  lemma Steps2x14()
    ensures Two(2, 14, State(0x66f6468d, 0xa04b4904, 0xb5d41f9c, 0x90a35af5)) ==
            State(0xb5d41f9c, 0x71d10367, 0x703d54d8, 0xa04b4904)
  {
    hide Operation;
    Step(2, 14, State(0x66f6468d, 0xa04b4904, 0xb5d41f9c, 0x90a35af5), 0x00000000, 0x1fa27cf8, 16,
         0x853c0c6d, 0x0bd4cff2);
    Step(2, 15, State(0x90a35af5, 0x703d54d8, 0xa04b4904, 0xb5d41f9c), 0x6c6b6a69, 0xc4ac5665, 23,
         0x65a20240, 0x275d1e03);
  }

  lemma Round2()
    ensures Operations(2, 16, WORDS, State(0xf54d8710, 0xaeb35766, 0x2e69afc7, 0x927b72e2)) ==
            State(0xb5d41f9c, 0x71d10367, 0x703d54d8, 0xa04b4904)
  {
    hide Operations, Two;
    var s := State(0xf54d8710, 0xaeb35766, 0x2e69afc7, 0x927b72e2);
    NoStep(2, s);
    Steps2x0();
    ByTwo(2, 0, s);
    Steps2x2();
    ByTwo(2, 2, s);
    Steps2x4();
    ByTwo(2, 4, s);
    Steps2x6();
    ByTwo(2, 6, s);
    Steps2x8();
    ByTwo(2, 8, s);
    Steps2x10();
    ByTwo(2, 10, s);
    Steps2x12();
    ByTwo(2, 12, s);
    Steps2x14();
    ByTwo(2, 14, s);
  }

  lemma Steps3x0()
    ensures Two(3, 0, State(0xb5d41f9c, 0x71d10367, 0x703d54d8, 0xa04b4904)) ==
            State(0x703d54d8, 0x65456b34, 0xfc32dd6e, 0x71d10367)
  {
    hide Operation;
    Step(3, 0, State(0xb5d41f9c, 0x71d10367, 0x703d54d8, 0xa04b4904), 0x64636261, 0xf4292244, 6,
         0x0fc8e327, 0x1e298768);
    Step(3, 1, State(0xa04b4904, 0xfc32dd6e, 0x71d10367, 0x703d54d8), 0x00000000, 0x432aff97, 10,
         0x8e23fc08, 0x719a44a3);
  }

  lemma Steps3x2()
    ensures Two(3, 2, State(0x703d54d8, 0x65456b34, 0xfc32dd6e, 0x71d10367)) ==
            State(0xfc32dd6e, 0x33edb197, 0xb35602cb, 0x65456b34)
  {
    hide Operation;
    Step(3, 2, State(0x703d54d8, 0x65456b34, 0xfc32dd6e, 0x71d10367), 0x000000d0, 0xab9423a7, 15,
         0x135d22d2, 0x2f2e9c21);
    Step(3, 3, State(0x71d10367, 0xb35602cb, 0x65456b34, 0xfc32dd6e), 0x78777675, 0xfc93a039, 21,
         0xd69a49ef, 0xbd766404);
  }

  lemma Steps3x4()
    ensures Two(3, 4, State(0xfc32dd6e, 0x33edb197, 0xb35602cb, 0x65456b34)) ==
            State(0xb35602cb, 0xd9bb987c, 0xc1e942f1, 0x33edb197)
  {
    hide Operation;
    Step(3, 4, State(0xfc32dd6e, 0x33edb197, 0xb35602cb, 0x65456b34), 0x00000000, 0x655b59c3, 6,
         0x08a9b714, 0x6a37ee45);
    Step(3, 5, State(0x65456b34, 0xc1e942f1, 0x33edb197, 0xb35602cb), 0x706f6e6d, 0x8f0ccc92, 10,
         0xfe044e62, 0x62c5f495);
  }

  lemma Steps3x6()
    ensures Two(3, 6, State(0xb35602cb, 0xd9bb987c, 0xc1e942f1, 0x33edb197)) ==
            State(0xc1e942f1, 0x83877d1b, 0x23a68048, 0xd9bb987c)
  {
    hide Operation;
    Step(3, 6, State(0xb35602cb, 0xd9bb987c, 0xc1e942f1, 0x33edb197), 0x00000000, 0xffeff47d, 15,
         0x1c529c8d, 0xcf9893d5);
    Step(3, 7, State(0x33edb197, 0x23a68048, 0xd9bb987c, 0xc1e942f1), 0x68676665, 0x85845dd1, 21,
         0xe60d2532, 0x07e69aff);
  }

  lemma Steps3x8()
    ensures Two(3, 8, State(0xc1e942f1, 0x83877d1b, 0x23a68048, 0xd9bb987c)) ==
            State(0x23a68048, 0x847fc2e7, 0x0077c208, 0x83877d1b)
  {
    hide Operation;
    Step(3, 8, State(0xc1e942f1, 0x83877d1b, 0x23a68048, 0xd9bb987c), 0x00000000, 0x6fa87e4f, 6,
         0x8461ffd3, 0xb5f3c113);
    Step(3, 9, State(0xd9bb987c, 0x0077c208, 0x83877d1b, 0x23a68048), 0x00000000, 0xfe2ce6e0, 10,
         0x5ff882a4, 0x37e10200);
  }

  lemma Steps3x10()
    ensures Two(3, 10, State(0x23a68048, 0x847fc2e7, 0x0077c208, 0x83877d1b)) ==
            State(0x0077c208, 0x5e6bc930, 0xa3e2247f, 0x847fc2e7)
  {
    hide Operation;
    Step(3, 10, State(0x23a68048, 0x847fc2e7, 0x0077c208, 0x83877d1b), 0x00807a79, 0xa3014314, 15,
         0xfc0800ef, 0xc3303ec4);
    Step(3, 11, State(0x83877d1b, 0xa3e2247f, 0x847fc2e7, 0x0077c208), 0x00000000, 0x4e0811a1, 21,
         0x7b95ff18, 0x4d258dd4);
  }

  lemma Steps3x12()
    ensures Two(3, 12, State(0x0077c208, 0x5e6bc930, 0xa3e2247f, 0x847fc2e7)) ==
            State(0xa3e2247f, 0x2baf1354, 0x708ed9c2, 0x5e6bc930)
  {
    hide Operation;
    Step(3, 12, State(0x0077c208, 0x5e6bc930, 0xa3e2247f, 0x847fc2e7), 0x74737271, 0xf7537e82, 6,
         0xdc09d947, 0x48488c42);
    Step(3, 13, State(0x847fc2e7, 0x708ed9c2, 0x5e6bc930, 0xa3e2247f), 0x00000000, 0xbd3af235, 10,
         0x22f412f2, 0x64aec80e);
  }

  lemma Steps3x14()
    ensures Two(3, 14, State(0xa3e2247f, 0x2baf1354, 0x708ed9c2, 0x5e6bc930)) ==
            State(0x708ed9c2, 0x1116e6d8, 0xd38f1e7f, 0x2baf1354)
  {
    hide Operation;
    Step(3, 14, State(0xa3e2247f, 0x2baf1354, 0x708ed9c2, 0x5e6bc930), 0x6c6b6a69, 0x2ad7d2bb, 15,
         0xdb31ee1d, 0x16574fc0);
    Step(3, 15, State(0x5e6bc930, 0xd38f1e7f, 0x2baf1354, 0x708ed9c2), 0x00000000, 0xeb86d391, 21,
         0xf4502d2b, 0x3e42c9ec);
  }

  lemma Round3()
    ensures Operations(3, 16, WORDS, State(0xb5d41f9c, 0x71d10367, 0x703d54d8, 0xa04b4904)) ==
            State(0x708ed9c2, 0x1116e6d8, 0xd38f1e7f, 0x2baf1354)
  {
    hide Operations, Two;
    var s := State(0xb5d41f9c, 0x71d10367, 0x703d54d8, 0xa04b4904);
    NoStep(3, s);
    Steps3x0();
    ByTwo(3, 0, s);
    Steps3x2();
    ByTwo(3, 2, s);
    Steps3x4();
    ByTwo(3, 4, s);
    Steps3x6();
    ByTwo(3, 6, s);
    Steps3x8();
    ByTwo(3, 8, s);
    Steps3x10();
    ByTwo(3, 10, s);
    Steps3x12();
    ByTwo(3, 12, s);
    Steps3x14();
    ByTwo(3, 14, s);
  }

  lemma AllRounds()
    ensures Rounds(4, WORDS, INIT) == State(0x708ed9c2, 0x1116e6d8, 0xd38f1e7f, 0x2baf1354)
  {
    hide Operations;
    Round0();
    Round1();
    Round2();
    Round3();
    assert Rounds(0, WORDS, INIT) == INIT;
    assert Rounds(1, WORDS, INIT) == State(0x1754a316, 0x608d6b7e, 0x00df74d5, 0x85567d90);
    assert Rounds(2, WORDS, INIT) == State(0xf54d8710, 0xaeb35766, 0x2e69afc7, 0x927b72e2);
    assert Rounds(3, WORDS, INIT) == State(0xb5d41f9c, 0x71d10367, 0x703d54d8, 0xa04b4904);
  }

  lemma WordAt(p: seq<byte>, j: nat, a: byte, b: byte, c: byte, d: byte, w: bv32)
    requires |p| == 64 && j < 16 && p[4 * j] == a && p[4 * j + 1] == b && p[4 * j + 2] == c && p[4 * j + 3] == d
    requires (a as bv32) | (b as bv32 << 8) | (c as bv32 << 16) | (d as bv32 << 24) == w
    ensures Words(p)[j] == w
  {
  }

  // What is in the one block: the message, a one bit, zeros, and 208, the length in bits.
  function ByteAt(i: nat): byte
    requires i < 64
  {
    if i < 26 then MESSAGE[i] else if i == 26 then 0x80 else if i == 56 then 208 else 0
  }

  lemma PaddedAt(i: nat)
    requires i < 64
    ensures |Padded(MESSAGE)| == 64 && Padded(MESSAGE)[i] == ByteAt(i)
  {
    hide Padding, BitLength, ByteAt;
    var a, p, tail := MESSAGE, Padding(26), BitLength(26);
    PaddingIs();
    TailIs();
    MessageAt(i);
    if i < 26 {
      assert (a + (p + tail))[i] == a[i];
    } else if i < 56 {
      assert (a + (p + tail))[i] == p[i - 26];
    } else {
      assert (a + (p + tail))[i] == tail[i - 56];
    }
  }

  lemma MessageAt(i: nat)
    ensures |MESSAGE| == 26 && (i < 26 ==> MESSAGE[i] == ByteAt(i))
  {
  }

  lemma PaddingIs()
    ensures |Padding(26)| == 30 && forall i | 26 <= i < 56 :: Padding(26)[i - 26] == ByteAt(i)
  {
  }

  // The length in bits is 208, low-order byte first.
  lemma TailIs()
    ensures forall i | 56 <= i < 64 :: BitLength(26)[i - 56] == ByteAt(i)
  {
    hide LittleEndian;
    var low, high := LittleEndian(208), LittleEndian(0);
    assert BitLength(26) == low + high;
    LowWord();
    HighWord();
    forall i | 56 <= i < 64 ensures BitLength(26)[i - 56] == ByteAt(i) {
      if i < 60 {
        assert (low + high)[i - 56] == low[i - 56];
      } else {
        assert (low + high)[i - 56] == high[i - 60];
      }
    }
  }

  lemma LowWord()
    ensures |LittleEndian(208)| == 4 && LittleEndian(208)[0] == 208
    ensures forall i | 1 <= i < 4 :: LittleEndian(208)[i] == 0
  {
    hide LittleEndian;
    BytesOf(208, 208, 0, 0, 0);
  }

  lemma HighWord()
    ensures |LittleEndian(0)| == 4 && forall i | 0 <= i < 4 :: LittleEndian(0)[i] == 0
  {
    hide LittleEndian;
    BytesOf(0, 0, 0, 0, 0);
  }

  lemma BytesOf(n: nat, first: nat, second: nat, third: nat, fourth: nat)
    requires first < 256 && second < 256 && third < 256 && fourth < 256
    requires n % 256 == first && n / 256 % 256 == second && n / 65536 % 256 == third && n / 16777216 % 256 == fourth
    ensures LittleEndian(n) == [first as byte, second as byte, third as byte, fourth as byte]
  {
  }

  lemma WordOf(j: nat, a: byte, b: byte, c: byte, d: byte, w: bv32)
    requires j < 16 && ByteAt(4 * j) == a && ByteAt(4 * j + 1) == b && ByteAt(4 * j + 2) == c && ByteAt(4 * j + 3) == d
    requires (a as bv32) | (b as bv32 << 8) | (c as bv32 << 16) | (d as bv32 << 24) == w
    ensures |Padded(MESSAGE)| == 64 && Words(Padded(MESSAGE))[j] == w
  {
    hide ByteAt, Padded;
    PaddedAt(4 * j);
    PaddedAt(4 * j + 1);
    PaddedAt(4 * j + 2);
    PaddedAt(4 * j + 3);
  }

  lemma FirstWords()
    ensures |Padded(MESSAGE)| == 64 && Words(Padded(MESSAGE))[..4] == WORDS[..4]
  {
    hide Words, Padded;
    WordOf(0, 97, 98, 99, 100, 0x64636261);
    WordOf(1, 101, 102, 103, 104, 0x68676665);
    WordOf(2, 105, 106, 107, 108, 0x6c6b6a69);
    WordOf(3, 109, 110, 111, 112, 0x706f6e6d);
  }

  lemma MoreWords()
    ensures |Padded(MESSAGE)| == 64 && Words(Padded(MESSAGE))[4..8] == WORDS[4..8]
  {
    hide Words, Padded;
    WordOf(4, 113, 114, 115, 116, 0x74737271);
    WordOf(5, 117, 118, 119, 120, 0x78777675);
    WordOf(6, 121, 122, 128, 0, 0x00807a79);
    WordOf(7, 0, 0, 0, 0, 0x00000000);
  }

  lemma LastWords()
    ensures |Padded(MESSAGE)| == 64 && Words(Padded(MESSAGE))[8..] == WORDS[8..]
  {
    hide Words, Padded;
    WordOf(8, 0, 0, 0, 0, 0x00000000);
    WordOf(9, 0, 0, 0, 0, 0x00000000);
    WordOf(10, 0, 0, 0, 0, 0x00000000);
    WordOf(11, 0, 0, 0, 0, 0x00000000);
    WordOf(12, 0, 0, 0, 0, 0x00000000);
    WordOf(13, 0, 0, 0, 0, 0x00000000);
    WordOf(14, 208, 0, 0, 0, 0x000000d0);
    WordOf(15, 0, 0, 0, 0, 0x00000000);
  }

  lemma WordsOfMessage()
    ensures |Padded(MESSAGE)| == 64 && Words(Padded(MESSAGE)) == WORDS
  {
    hide Words, Padded;
    FirstWords();
    MoreWords();
    LastWords();
    assert WORDS == WORDS[..4] + WORDS[4..8] + WORDS[8..];
  }

  // The digest of the message is the one in the suite.
  lemma SuiteEntry()
    ensures Digest(MESSAGE) == DIGEST
  {
    hide Words, Rounds, Padded;
    WordsOfMessage();
    AllRounds();
    var p := Padded(MESSAGE);
    assert p[..0] == [] && p[0..] == p && Fold(INIT, []) == INIT;
    assert Fold(INIT, p) == Compress(INIT, p);
    assert Compress(INIT, p) == State(0xd7d3fcc3, 0x00e49261, 0x6c49fb7d, 0x3be167ca);
  }
}
