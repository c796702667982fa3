// The test suite of RFC 1321, appendix A.5: the digest of "abcdefghijklmnopqrstuvwxyz", one operation after
// the other.
module Rfc1321Suite {
  import opened Rfc1321
  import opened Md5Digest

  // The bytes from 'a' on.
  const ALPHABET: seq<bv8> := [
    0x61, 0x62, 0x63, 0x64, 0x65, 0x66, 0x67, 0x68, 0x69, 0x6a, 0x6b, 0x6c, 0x6d,
    0x6e, 0x6f, 0x70, 0x71, 0x72, 0x73, 0x74, 0x75, 0x76, 0x77, 0x78, 0x79, 0x7a]

  // The words of its one block: the letters, a one bit and, from word 14 on, the length in bits.
  const BLOCK: seq<bv32> := [
    0x64636261, 0x68676665, 0x6c6b6a69, 0x706f6e6d, 0x74737271, 0x78777675, 0x00807a79, 0x00000000,
    0x00000000, 0x00000000, 0x00000000, 0x00000000, 0x00000000, 0x00000000, 0x000000d0, 0x00000000]

  lemma BlockWords()
    ensures |BLOCK| == 16
    ensures BLOCK[0] == 0x64636261 && BLOCK[1] == 0x68676665 && BLOCK[2] == 0x6c6b6a69 && BLOCK[3] == 0x706f6e6d
    ensures BLOCK[4] == 0x74737271 && BLOCK[5] == 0x78777675 && BLOCK[6] == 0x00807a79 && BLOCK[7] == 0x00000000
    ensures BLOCK[8] == 0x00000000 && BLOCK[9] == 0x00000000 && BLOCK[10] == 0x00000000 && BLOCK[11] == 0x00000000
    ensures BLOCK[12] == 0x00000000 && BLOCK[13] == 0x00000000 && BLOCK[14] == 0x000000d0 && BLOCK[15] == 0x00000000
  {
  }

  // ----- Round 1 -----

  lemma Tables0()
    ensures Sine(0) == 0xd76aa478 && Sine(1) == 0xe8c7b756 && Sine(2) == 0x242070db && Sine(3) == 0xc1bdceee
    ensures Shift(0) == 7 && Shift(1) == 12 && Shift(2) == 17 && Shift(3) == 22
  {
  }

  lemma Operations0()
    ensures Operation(0, 0x67452301, 0xefcdab89, 0x98badcfe, 0x10325476, 0x64636261, 7, 0xd76aa478) == 0xd6d117a6
    ensures Operation(0, 0x10325476, 0xd6d117a6, 0xefcdab89, 0x98badcfe, 0x68676665, 12, 0xe8c7b756) == 0xaab1aaaa
    ensures Operation(0, 0x98badcfe, 0xaab1aaaa, 0xd6d117a6, 0xefcdab89, 0x6c6b6a69, 17, 0x242070db) == 0x227d8cf1
    ensures Operation(0, 0xefcdab89, 0x227d8cf1, 0xaab1aaaa, 0xd6d117a6, 0x706f6e6d, 22, 0xc1bdceee) == 0x4503b812
  {
  }

  lemma Row0()
    ensures |BLOCK| == 16 && Row(0, Registers(0x67452301, 0xefcdab89, 0x98badcfe, 0x10325476), BLOCK, 0, 0, 1, 2, 3)
         == Registers(0xd6d117a6, 0x4503b812, 0x227d8cf1, 0xaab1aaaa)
  {
    hide Operation, Sine, Shift;
    BlockWords();
    Tables0();
    Operations0();
  }

  lemma Tables4()
    ensures Sine(4) == 0xf57c0faf && Sine(5) == 0x4787c62a && Sine(6) == 0xa8304613 && Sine(7) == 0xfd469501
    ensures Shift(4) == 7 && Shift(5) == 12 && Shift(6) == 17 && Shift(7) == 22
  {
  }

  lemma Operations4()
    ensures Operation(0, 0xd6d117a6, 0x4503b812, 0x227d8cf1, 0xaab1aaaa, 0x74737271, 7, 0xf57c0faf) == 0xfe15f787
    ensures Operation(0, 0xaab1aaaa, 0xfe15f787, 0x4503b812, 0x227d8cf1, 0x78777675, 12, 0x4787c62a) == 0xa811b278
    ensures Operation(0, 0x227d8cf1, 0xa811b278, 0xfe15f787, 0x4503b812, 0x00807a79, 17, 0xa8304613) == 0xb71122fc
    ensures Operation(0, 0x4503b812, 0xb71122fc, 0xa811b278, 0xfe15f787, 0x00000000, 22, 0xfd469501) == 0xda9bbb0d
  {
  }

  lemma Row4()
    ensures |BLOCK| == 16 && Row(0, Registers(0xd6d117a6, 0x4503b812, 0x227d8cf1, 0xaab1aaaa), BLOCK, 4, 4, 5, 6, 7)
         == Registers(0xfe15f787, 0xda9bbb0d, 0xb71122fc, 0xa811b278)
  {
    hide Operation, Sine, Shift;
    BlockWords();
    Tables4();
    Operations4();
  }

  lemma Tables8()
    ensures Sine(8) == 0x698098d8 && Sine(9) == 0x8b44f7af && Sine(10) == 0xffff5bb1 && Sine(11) == 0x895cd7be
    ensures Shift(8) == 7 && Shift(9) == 12 && Shift(10) == 17 && Shift(11) == 22
  {
  }

  lemma Operations8()
    ensures Operation(0, 0xfe15f787, 0xda9bbb0d, 0xb71122fc, 0xa811b278, 0x00000000, 7, 0x698098d8) == 0xae752899
    ensures Operation(0, 0xa811b278, 0xae752899, 0xda9bbb0d, 0xb71122fc, 0x00000000, 12, 0x8b44f7af) == 0x2bbe757f
    ensures Operation(0, 0xb71122fc, 0x2bbe757f, 0xae752899, 0xda9bbb0d, 0x00000000, 17, 0xffff5bb1) == 0x7d4bd80b
    ensures Operation(0, 0xda9bbb0d, 0x7d4bd80b, 0x2bbe757f, 0xae752899, 0x00000000, 22, 0x895cd7be) == 0x56cfa5cb
  {
  }

  lemma Row8()
    ensures |BLOCK| == 16 && Row(0, Registers(0xfe15f787, 0xda9bbb0d, 0xb71122fc, 0xa811b278), BLOCK, 8, 8, 9, 10, 11)
         == Registers(0xae752899, 0x56cfa5cb, 0x7d4bd80b, 0x2bbe757f)
  {
    hide Operation, Sine, Shift;
    BlockWords();
    Tables8();
    Operations8();
  }

  lemma Tables12()
    ensures Sine(12) == 0x6b901122 && Sine(13) == 0xfd987193 && Sine(14) == 0xa679438e && Sine(15) == 0x49b40821
    ensures Shift(12) == 7 && Shift(13) == 12 && Shift(14) == 17 && Shift(15) == 22
  {
  }

  lemma Operations12()
    ensures Operation(0, 0xae752899, 0x56cfa5cb, 0x7d4bd80b, 0x2bbe757f, 0x00000000, 7, 0x6b901122) == 0x1754a316
    ensures Operation(0, 0x2bbe757f, 0x1754a316, 0x56cfa5cb, 0x7d4bd80b, 0x00000000, 12, 0xfd987193) == 0x85567d90
    ensures Operation(0, 0x7d4bd80b, 0x85567d90, 0x1754a316, 0x56cfa5cb, 0x000000d0, 17, 0xa679438e) == 0x00df74d5
    ensures Operation(0, 0x56cfa5cb, 0x00df74d5, 0x85567d90, 0x1754a316, 0x00000000, 22, 0x49b40821) == 0x608d6b7e
  {
  }

  lemma Row12()
    ensures |BLOCK| == 16 && Row(0, Registers(0xae752899, 0x56cfa5cb, 0x7d4bd80b, 0x2bbe757f), BLOCK, 12, 12, 13, 14, 15)
         == Registers(0x1754a316, 0x608d6b7e, 0x00df74d5, 0x85567d90)
  {
    hide Operation, Sine, Shift;
    BlockWords();
    Tables12();
    Operations12();
  }

  lemma Round0OfAlphabet()
    ensures |BLOCK| == 16 && Round0(Registers(0x67452301, 0xefcdab89, 0x98badcfe, 0x10325476), BLOCK)
         == Registers(0x1754a316, 0x608d6b7e, 0x00df74d5, 0x85567d90)
  {
    hide Row;
    Row0();
    Row4();
    Row8();
    Row12();
  }

  // ----- Round 2 -----

  lemma Tables16()
    ensures Sine(16) == 0xf61e2562 && Sine(17) == 0xc040b340 && Sine(18) == 0x265e5a51 && Sine(19) == 0xe9b6c7aa
    ensures Shift(16) == 5 && Shift(17) == 9 && Shift(18) == 14 && Shift(19) == 20
  {
  }

  lemma Operations16()
    ensures Operation(1, 0x1754a316, 0x608d6b7e, 0x00df74d5, 0x85567d90, 0x68676665, 5, 0xf61e2562) == 0x2d8071cc
    ensures Operation(1, 0x85567d90, 0x2d8071cc, 0x608d6b7e, 0x00df74d5, 0x00807a79, 9, 0xc040b340) == 0x5dcee119
    ensures Operation(1, 0x00df74d5, 0x5dcee119, 0x2d8071cc, 0x608d6b7e, 0x00000000, 14, 0x265e5a51) == 0xedfe7e4b
    ensures Operation(1, 0x608d6b7e, 0xedfe7e4b, 0x5dcee119, 0x2d8071cc, 0x64636261, 20, 0xe9b6c7aa) == 0x4c2145b3
  {
  }

  lemma Row16()
    ensures |BLOCK| == 16 && Row(1, Registers(0x1754a316, 0x608d6b7e, 0x00df74d5, 0x85567d90), BLOCK, 16, 1, 6, 11, 0)
         == Registers(0x2d8071cc, 0x4c2145b3, 0xedfe7e4b, 0x5dcee119)
  {
    hide Operation, Sine, Shift;
    BlockWords();
    Tables16();
    Operations16();
  }

  lemma Tables20()
    ensures Sine(20) == 0xd62f105d && Sine(21) == 0x02441453 && Sine(22) == 0xd8a1e681 && Sine(23) == 0xe7d3fbc8
    ensures Shift(20) == 5 && Shift(21) == 9 && Shift(22) == 14 && Shift(23) == 20
  {
  }

  lemma Operations20()
    ensures Operation(1, 0x2d8071cc, 0x4c2145b3, 0xedfe7e4b, 0x5dcee119, 0x78777675, 5, 0xd62f105d) == 0x570c43e0
    ensures Operation(1, 0x5dcee119, 0x570c43e0, 0x4c2145b3, 0xedfe7e4b, 0x00000000, 9, 0x02441453) == 0x977efd2a
    ensures Operation(1, 0xedfe7e4b, 0x977efd2a, 0x570c43e0, 0x4c2145b3, 0x00000000, 14, 0xd8a1e681) == 0xc28ab49d
    ensures Operation(1, 0x4c2145b3, 0xc28ab49d, 0x977efd2a, 0x570c43e0, 0x74737271, 20, 0xe7d3fbc8) == 0xc9f162d4
  {
  }

  lemma Row20()
    ensures |BLOCK| == 16 && Row(1, Registers(0x2d8071cc, 0x4c2145b3, 0xedfe7e4b, 0x5dcee119), BLOCK, 20, 5, 10, 15, 4)
         == Registers(0x570c43e0, 0xc9f162d4, 0xc28ab49d, 0x977efd2a)
  {
    hide Operation, Sine, Shift;
    BlockWords();
    Tables20();
    Operations20();
  }

  lemma Tables24()
    ensures Sine(24) == 0x21e1cde6 && Sine(25) == 0xc33707d6 && Sine(26) == 0xf4d50d87 && Sine(27) == 0x455a14ed
    ensures Shift(24) == 5 && Shift(25) == 9 && Shift(26) == 14 && Shift(27) == 20
  {
  }

  lemma Operations24()
    ensures Operation(1, 0x570c43e0, 0xc9f162d4, 0xc28ab49d, 0x977efd2a, 0x00000000, 5, 0x21e1cde6) == 0x25bfae3b
    ensures Operation(1, 0x977efd2a, 0x25bfae3b, 0xc9f162d4, 0xc28ab49d, 0x000000d0, 9, 0xc33707d6) == 0x89980104
    ensures Operation(1, 0xc28ab49d, 0x89980104, 0x25bfae3b, 0xc9f162d4, 0x706f6e6d, 14, 0xf4d50d87) == 0xf8c8365f
    ensures Operation(1, 0xc9f162d4, 0xf8c8365f, 0x89980104, 0x25bfae3b, 0x00000000, 20, 0x455a14ed) == 0xe6d3b398
  {
  }

  lemma Row24()
    ensures |BLOCK| == 16 && Row(1, Registers(0x570c43e0, 0xc9f162d4, 0xc28ab49d, 0x977efd2a), BLOCK, 24, 9, 14, 3, 8)
         == Registers(0x25bfae3b, 0xe6d3b398, 0xf8c8365f, 0x89980104)
  {
    hide Operation, Sine, Shift;
    BlockWords();
    Tables24();
    Operations24();
  }

  lemma Tables28()
    ensures Sine(28) == 0xa9e3e905 && Sine(29) == 0xfcefa3f8 && Sine(30) == 0x676f02d9 && Sine(31) == 0x8d2a4c8a
    ensures Shift(28) == 5 && Shift(29) == 9 && Shift(30) == 14 && Shift(31) == 20
  {
  }

  lemma Operations28()
    ensures Operation(1, 0x25bfae3b, 0xe6d3b398, 0xf8c8365f, 0x89980104, 0x00000000, 5, 0xa9e3e905) == 0xf54d8710
    ensures Operation(1, 0x89980104, 0xf54d8710, 0xe6d3b398, 0xf8c8365f, 0x6c6b6a69, 9, 0xfcefa3f8) == 0x927b72e2
    ensures Operation(1, 0xf8c8365f, 0x927b72e2, 0xf54d8710, 0xe6d3b398, 0x00000000, 14, 0x676f02d9) == 0x2e69afc7
    ensures Operation(1, 0xe6d3b398, 0x2e69afc7, 0x927b72e2, 0xf54d8710, 0x00000000, 20, 0x8d2a4c8a) == 0xaeb35766
  {
  }

  lemma Row28()
    ensures |BLOCK| == 16 && Row(1, Registers(0x25bfae3b, 0xe6d3b398, 0xf8c8365f, 0x89980104), BLOCK, 28, 13, 2, 7, 12)
         == Registers(0xf54d8710, 0xaeb35766, 0x2e69afc7, 0x927b72e2)
  {
    hide Operation, Sine, Shift;
    BlockWords();
    Tables28();
    Operations28();
  }

  lemma Round1OfAlphabet()
    ensures |BLOCK| == 16 && Round1(Registers(0x1754a316, 0x608d6b7e, 0x00df74d5, 0x85567d90), BLOCK)
         == Registers(0xf54d8710, 0xaeb35766, 0x2e69afc7, 0x927b72e2)
  {
    hide Row;
    Row16();
    Row20();
    Row24();
    Row28();
  }

  // ----- Round 3 -----

  lemma Tables32()
    ensures Sine(32) == 0xfffa3942 && Sine(33) == 0x8771f681 && Sine(34) == 0x6d9d6122 && Sine(35) == 0xfde5380c
    ensures Shift(32) == 4 && Shift(33) == 11 && Shift(34) == 16 && Shift(35) == 23
  {
  }

  lemma Operations32()
    ensures Operation(2, 0xf54d8710, 0xaeb35766, 0x2e69afc7, 0x927b72e2, 0x78777675, 4, 0xfffa3942) == 0xb4bf680e
    ensures Operation(2, 0x927b72e2, 0xb4bf680e, 0xaeb35766, 0x2e69afc7, 0x00000000, 11, 0x8771f681) == 0x4c8ffa80
    ensures Operation(2, 0x2e69afc7, 0x4c8ffa80, 0xb4bf680e, 0xaeb35766, 0x00000000, 16, 0x6d9d6122) == 0x2361ed0a
    ensures Operation(2, 0xaeb35766, 0x2361ed0a, 0x4c8ffa80, 0xb4bf680e, 0x000000d0, 23, 0xfde5380c) == 0x06a5e211
  {
  }

  lemma Row32()
    ensures |BLOCK| == 16 && Row(2, Registers(0xf54d8710, 0xaeb35766, 0x2e69afc7, 0x927b72e2), BLOCK, 32, 5, 8, 11, 14)
         == Registers(0xb4bf680e, 0x06a5e211, 0x2361ed0a, 0x4c8ffa80)
  {
    hide Operation, Sine, Shift;
    BlockWords();
    Tables32();
    Operations32();
  }

  lemma Tables36()
    ensures Sine(36) == 0xa4beea44 && Sine(37) == 0x4bdecfa9 && Sine(38) == 0xf6bb4b60 && Sine(39) == 0xbebfbc70
    ensures Shift(36) == 4 && Shift(37) == 11 && Shift(38) == 16 && Shift(39) == 23
  {
  }

  lemma Operations36()
    ensures Operation(2, 0xb4bf680e, 0x06a5e211, 0x2361ed0a, 0x4c8ffa80, 0x68676665, 4, 0xa4beea44) == 0xb9c0c733
    ensures Operation(2, 0x4c8ffa80, 0xb9c0c733, 0x06a5e211, 0x2361ed0a, 0x74737271, 11, 0x4bdecfa9) == 0xf1e6dc7a
    ensures Operation(2, 0x2361ed0a, 0xf1e6dc7a, 0xb9c0c733, 0x06a5e211, 0x00000000, 16, 0xf6bb4b60) == 0x23a9451b
    ensures Operation(2, 0x06a5e211, 0x23a9451b, 0xf1e6dc7a, 0xb9c0c733, 0x00000000, 23, 0xbebfbc70) == 0x8d41bf99
  {
  }

  lemma Row36()
    ensures |BLOCK| == 16 && Row(2, Registers(0xb4bf680e, 0x06a5e211, 0x2361ed0a, 0x4c8ffa80), BLOCK, 36, 1, 4, 7, 10)
         == Registers(0xb9c0c733, 0x8d41bf99, 0x23a9451b, 0xf1e6dc7a)
  {
    hide Operation, Sine, Shift;
    BlockWords();
    Tables36();
    Operations36();
  }

  lemma Tables40()
    ensures Sine(40) == 0x289b7ec6 && Sine(41) == 0xeaa127fa && Sine(42) == 0xd4ef3085 && Sine(43) == 0x04881d05
    ensures Shift(40) == 4 && Shift(41) == 11 && Shift(42) == 16 && Shift(43) == 23
  {
  }

  lemma Operations40()
    ensures Operation(2, 0xb9c0c733, 0x8d41bf99, 0x23a9451b, 0xf1e6dc7a, 0x00000000, 4, 0x289b7ec6) == 0xa3e88ead
    ensures Operation(2, 0xf1e6dc7a, 0xa3e88ead, 0x8d41bf99, 0x23a9451b, 0x64636261, 11, 0xeaa127fa) == 0x02c0b11c
    ensures Operation(2, 0x23a9451b, 0x02c0b11c, 0xa3e88ead, 0x8d41bf99, 0x706f6e6d, 16, 0xd4ef3085) == 0x66f6468d
    ensures Operation(2, 0x8d41bf99, 0x66f6468d, 0x02c0b11c, 0xa3e88ead, 0x00807a79, 23, 0x04881d05) == 0x90a35af5
  {
  }

  lemma Row40()
    ensures |BLOCK| == 16 && Row(2, Registers(0xb9c0c733, 0x8d41bf99, 0x23a9451b, 0xf1e6dc7a), BLOCK, 40, 13, 0, 3, 6)
         == Registers(0xa3e88ead, 0x90a35af5, 0x66f6468d, 0x02c0b11c)
  {
    hide Operation, Sine, Shift;
    BlockWords();
    Tables40();
    Operations40();
  }

  lemma Tables44()
    ensures Sine(44) == 0xd9d4d039 && Sine(45) == 0xe6db99e5 && Sine(46) == 0x1fa27cf8 && Sine(47) == 0xc4ac5665
    ensures Shift(44) == 4 && Shift(45) == 11 && Shift(46) == 16 && Shift(47) == 23
  {
  }

  lemma Operations44()
    ensures Operation(2, 0xa3e88ead, 0x90a35af5, 0x66f6468d, 0x02c0b11c, 0x00000000, 4, 0xd9d4d039) == 0xb5d41f9c
    ensures Operation(2, 0x02c0b11c, 0xb5d41f9c, 0x90a35af5, 0x66f6468d, 0x00000000, 11, 0xe6db99e5) == 0xa04b4904
    ensures Operation(2, 0x66f6468d, 0xa04b4904, 0xb5d41f9c, 0x90a35af5, 0x00000000, 16, 0x1fa27cf8) == 0x703d54d8
    ensures Operation(2, 0x90a35af5, 0x703d54d8, 0xa04b4904, 0xb5d41f9c, 0x6c6b6a69, 23, 0xc4ac5665) == 0x71d10367
  {
  }

  lemma Row44()
    ensures |BLOCK| == 16 && Row(2, Registers(0xa3e88ead, 0x90a35af5, 0x66f6468d, 0x02c0b11c), BLOCK, 44, 9, 12, 15, 2)
         == Registers(0xb5d41f9c, 0x71d10367, 0x703d54d8, 0xa04b4904)
  {
    hide Operation, Sine, Shift;
    BlockWords();
    Tables44();
    Operations44();
  }

  lemma Round2OfAlphabet()
    ensures |BLOCK| == 16 && Round2(Registers(0xf54d8710, 0xaeb35766, 0x2e69afc7, 0x927b72e2), BLOCK)
         == Registers(0xb5d41f9c, 0x71d10367, 0x703d54d8, 0xa04b4904)
  {
    hide Row;
    Row32();
    Row36();
    Row40();
    Row44();
  }

  // ----- Round 4 -----

  lemma Tables48()
    ensures Sine(48) == 0xf4292244 && Sine(49) == 0x432aff97 && Sine(50) == 0xab9423a7 && Sine(51) == 0xfc93a039
    ensures Shift(48) == 6 && Shift(49) == 10 && Shift(50) == 15 && Shift(51) == 21
  {
  }

  lemma Operations48()
    ensures Operation(3, 0xb5d41f9c, 0x71d10367, 0x703d54d8, 0xa04b4904, 0x64636261, 6, 0xf4292244) == 0xfc32dd6e
    ensures Operation(3, 0xa04b4904, 0xfc32dd6e, 0x71d10367, 0x703d54d8, 0x00000000, 10, 0x432aff97) == 0x65456b34
    ensures Operation(3, 0x703d54d8, 0x65456b34, 0xfc32dd6e, 0x71d10367, 0x000000d0, 15, 0xab9423a7) == 0xb35602cb
    ensures Operation(3, 0x71d10367, 0xb35602cb, 0x65456b34, 0xfc32dd6e, 0x78777675, 21, 0xfc93a039) == 0x33edb197
  {
  }

  lemma Row48()
    ensures |BLOCK| == 16 && Row(3, Registers(0xb5d41f9c, 0x71d10367, 0x703d54d8, 0xa04b4904), BLOCK, 48, 0, 7, 14, 5)
         == Registers(0xfc32dd6e, 0x33edb197, 0xb35602cb, 0x65456b34)
  {
    hide Operation, Sine, Shift;
    BlockWords();
    Tables48();
    Operations48();
  }

  lemma Tables52()
    ensures Sine(52) == 0x655b59c3 && Sine(53) == 0x8f0ccc92 && Sine(54) == 0xffeff47d && Sine(55) == 0x85845dd1
    ensures Shift(52) == 6 && Shift(53) == 10 && Shift(54) == 15 && Shift(55) == 21
  {
  }

  lemma Operations52()
    ensures Operation(3, 0xfc32dd6e, 0x33edb197, 0xb35602cb, 0x65456b34, 0x00000000, 6, 0x655b59c3) == 0xc1e942f1
    ensures Operation(3, 0x65456b34, 0xc1e942f1, 0x33edb197, 0xb35602cb, 0x706f6e6d, 10, 0x8f0ccc92) == 0xd9bb987c
    ensures Operation(3, 0xb35602cb, 0xd9bb987c, 0xc1e942f1, 0x33edb197, 0x00000000, 15, 0xffeff47d) == 0x23a68048
    ensures Operation(3, 0x33edb197, 0x23a68048, 0xd9bb987c, 0xc1e942f1, 0x68676665, 21, 0x85845dd1) == 0x83877d1b
  {
  }

  lemma Row52()
    ensures |BLOCK| == 16 && Row(3, Registers(0xfc32dd6e, 0x33edb197, 0xb35602cb, 0x65456b34), BLOCK, 52, 12, 3, 10, 1)
         == Registers(0xc1e942f1, 0x83877d1b, 0x23a68048, 0xd9bb987c)
  {
    hide Operation, Sine, Shift;
    BlockWords();
    Tables52();
    Operations52();
  }

  lemma Tables56()
    ensures Sine(56) == 0x6fa87e4f && Sine(57) == 0xfe2ce6e0 && Sine(58) == 0xa3014314 && Sine(59) == 0x4e0811a1
    ensures Shift(56) == 6 && Shift(57) == 10 && Shift(58) == 15 && Shift(59) == 21
  {
  }

  lemma Operations56()
    ensures Operation(3, 0xc1e942f1, 0x83877d1b, 0x23a68048, 0xd9bb987c, 0x00000000, 6, 0x6fa87e4f) == 0x0077c208
    ensures Operation(3, 0xd9bb987c, 0x0077c208, 0x83877d1b, 0x23a68048, 0x00000000, 10, 0xfe2ce6e0) == 0x847fc2e7
    ensures Operation(3, 0x23a68048, 0x847fc2e7, 0x0077c208, 0x83877d1b, 0x00807a79, 15, 0xa3014314) == 0xa3e2247f
    ensures Operation(3, 0x83877d1b, 0xa3e2247f, 0x847fc2e7, 0x0077c208, 0x00000000, 21, 0x4e0811a1) == 0x5e6bc930
  {
  }

  lemma Row56()
    ensures |BLOCK| == 16 && Row(3, Registers(0xc1e942f1, 0x83877d1b, 0x23a68048, 0xd9bb987c), BLOCK, 56, 8, 15, 6, 13)
         == Registers(0x0077c208, 0x5e6bc930, 0xa3e2247f, 0x847fc2e7)
  {
    hide Operation, Sine, Shift;
    BlockWords();
    Tables56();
    Operations56();
  }

  lemma Tables60()
    ensures Sine(60) == 0xf7537e82 && Sine(61) == 0xbd3af235 && Sine(62) == 0x2ad7d2bb && Sine(63) == 0xeb86d391
    ensures Shift(60) == 6 && Shift(61) == 10 && Shift(62) == 15 && Shift(63) == 21
  {
  }

  lemma Operations60()
    ensures Operation(3, 0x0077c208, 0x5e6bc930, 0xa3e2247f, 0x847fc2e7, 0x74737271, 6, 0xf7537e82) == 0x708ed9c2
    ensures Operation(3, 0x847fc2e7, 0x708ed9c2, 0x5e6bc930, 0xa3e2247f, 0x00000000, 10, 0xbd3af235) == 0x2baf1354
    ensures Operation(3, 0xa3e2247f, 0x2baf1354, 0x708ed9c2, 0x5e6bc930, 0x6c6b6a69, 15, 0x2ad7d2bb) == 0xd38f1e7f
    ensures Operation(3, 0x5e6bc930, 0xd38f1e7f, 0x2baf1354, 0x708ed9c2, 0x00000000, 21, 0xeb86d391) == 0x1116e6d8
  {
  }

  lemma Row60()
    ensures |BLOCK| == 16 && Row(3, Registers(0x0077c208, 0x5e6bc930, 0xa3e2247f, 0x847fc2e7), BLOCK, 60, 4, 11, 2, 9)
         == Registers(0x708ed9c2, 0x1116e6d8, 0xd38f1e7f, 0x2baf1354)
  {
    hide Operation, Sine, Shift;
    BlockWords();
    Tables60();
    Operations60();
  }

  lemma Round3OfAlphabet()
    ensures |BLOCK| == 16 && Round3(Registers(0xb5d41f9c, 0x71d10367, 0x703d54d8, 0xa04b4904), BLOCK)
         == Registers(0x708ed9c2, 0x1116e6d8, 0xd38f1e7f, 0x2baf1354)
  {
    hide Row;
    Row48();
    Row52();
    Row56();
    Row60();
  }

  // ----- The digest -----

  lemma BlockIsProcessed()
    ensures |BLOCK| == 16 && Process(INITIAL, BLOCK) == Registers(0xd7d3fcc3, 0x00e49261, 0x6c49fb7d, 0x3be167ca)
  {
    hide Round0, Round1, Round2, Round3;
    Round0OfAlphabet();
    Round1OfAlphabet();
    Round2OfAlphabet();
    Round3OfAlphabet();
  }

  const ZEROS: seq<bv8> := seq(29, i => 0)

  // The message with its padding and its length.
  const COMPLETED: seq<bv8> := ALPHABET + [0x80] + ZEROS + [0xd0, 0, 0, 0, 0, 0, 0, 0]

  const DIGEST: seq<bv8> := [
    0xc3, 0xfc, 0xd3, 0xd7, 0x61, 0x92, 0xe4, 0x00,
    0x7d, 0xfb, 0x49, 0x6c, 0xca, 0x67, 0xe1, 0x3b]

  lemma OutputIs()
    ensures Output(Registers(0xd7d3fcc3, 0x00e49261, 0x6c49fb7d, 0x3be167ca)) == DIGEST
  {
  }

  lemma NoLength(k: nat)
    ensures LowFirst(0, k) == seq(k, i => 0 as bv8)
  {
  }

  lemma LengthIs()
    ensures LowFirst(208, 8) == [0xd0] + LowFirst(0, 7)
  {
    assert 208 / 256 == 0 && 208 % 256 == 208;
  }

  lemma CompletedParts()
    ensures |COMPLETED| == 64 && COMPLETED[..56] == ALPHABET + [0x80] + ZEROS && COMPLETED[56..] == [0xd0] + LowFirst(0, 7)
  {
    hide LowFirst;
    NoLength(7);
  }

  lemma AlphabetIsPadded()
    ensures IsPadded(ALPHABET, ALPHABET + [0x80] + ZEROS)
  {
  }

  lemma AlphabetIsCompleted()
    ensures IsComplete(ALPHABET, COMPLETED)
  {
    hide LowFirst, IsPadded;
    LengthIs();
    CompletedParts();
    AlphabetIsPadded();
  }

  lemma WordOf(p: seq<bv8>, j: nat, b0: bv8, b1: bv8, b2: bv8, b3: bv8)
    requires |p| == 64 && j < 16 && p[4 * j] == b0 && p[4 * j + 1] == b1 && p[4 * j + 2] == b2 && p[4 * j + 3] == b3
    ensures Words(p)[j] == Word([b0, b1, b2, b3])
  {
    assert p[4 * j..4 * j + 4] == [b0, b1, b2, b3];
  }

  lemma LetterWords()
    ensures Word([0x61, 0x62, 0x63, 0x64]) == 0x64636261
    ensures Word([0x65, 0x66, 0x67, 0x68]) == 0x68676665
    ensures Word([0x69, 0x6a, 0x6b, 0x6c]) == 0x6c6b6a69
    ensures Word([0x6d, 0x6e, 0x6f, 0x70]) == 0x706f6e6d
    ensures Word([0x71, 0x72, 0x73, 0x74]) == 0x74737271
    ensures Word([0x75, 0x76, 0x77, 0x78]) == 0x78777675
    ensures Word([0x79, 0x7a, 0x80, 0x00]) == 0x00807a79
    ensures Word([0xd0, 0, 0, 0]) == 0xd0 && Word([0, 0, 0, 0]) == 0
  {
  }

  lemma LettersToL()
    ensures |ALPHABET| == 26
    ensures ALPHABET[0] == 0x61 && ALPHABET[1] == 0x62 && ALPHABET[2] == 0x63 && ALPHABET[3] == 0x64
    ensures ALPHABET[4] == 0x65 && ALPHABET[5] == 0x66 && ALPHABET[6] == 0x67 && ALPHABET[7] == 0x68
    ensures ALPHABET[8] == 0x69 && ALPHABET[9] == 0x6a && ALPHABET[10] == 0x6b && ALPHABET[11] == 0x6c
  {
  }

  lemma LettersFromM()
    ensures |ALPHABET| == 26
    ensures ALPHABET[12] == 0x6d && ALPHABET[13] == 0x6e && ALPHABET[14] == 0x6f && ALPHABET[15] == 0x70
    ensures ALPHABET[16] == 0x71 && ALPHABET[17] == 0x72 && ALPHABET[18] == 0x73 && ALPHABET[19] == 0x74
    ensures ALPHABET[20] == 0x75 && ALPHABET[21] == 0x76 && ALPHABET[22] == 0x77 && ALPHABET[23] == 0x78
    ensures ALPHABET[24] == 0x79 && ALPHABET[25] == 0x7a
  {
  }

  lemma CompletedBytes()
    ensures |COMPLETED| == 64
    ensures forall i :: 0 <= i < 26 ==> COMPLETED[i] == ALPHABET[i]
    ensures COMPLETED[26] == 0x80 && COMPLETED[56] == 0xd0
    ensures forall i :: 27 <= i < 64 && i != 56 ==> COMPLETED[i] == 0
  {
    hide ALPHABET;
    assert |ALPHABET| == 26 by { LettersToL(); }
    assert COMPLETED == ALPHABET + ([0x80] + ZEROS + [0xd0, 0, 0, 0, 0, 0, 0, 0]);
  }

  lemma LetterWordsOfBlock()
    ensures |COMPLETED| == 64 && |BLOCK| == 16 && forall j :: 0 <= j < 7 ==> Words(COMPLETED)[j] == BLOCK[j]
  {
    hide Word, ALPHABET, COMPLETED, BLOCK;
    LettersToL();
    LettersFromM();
    CompletedBytes();
    LetterWords();
    BlockWords();
    WordOf(COMPLETED, 0, 0x61, 0x62, 0x63, 0x64);
    WordOf(COMPLETED, 1, 0x65, 0x66, 0x67, 0x68);
    WordOf(COMPLETED, 2, 0x69, 0x6a, 0x6b, 0x6c);
    WordOf(COMPLETED, 3, 0x6d, 0x6e, 0x6f, 0x70);
    WordOf(COMPLETED, 4, 0x71, 0x72, 0x73, 0x74);
    WordOf(COMPLETED, 5, 0x75, 0x76, 0x77, 0x78);
    WordOf(COMPLETED, 6, 0x79, 0x7a, 0x80, 0x00);
  }

  lemma OtherWordsOfBlock()
    ensures |COMPLETED| == 64 && |BLOCK| == 16 && forall j :: 7 <= j < 16 ==> Words(COMPLETED)[j] == BLOCK[j]
  {
    hide Word, ALPHABET, COMPLETED, BLOCK;
    CompletedBytes();
    LetterWords();
    BlockWords();
    forall j | 7 <= j < 16 && j != 14 ensures Words(COMPLETED)[j] == 0 {
      WordOf(COMPLETED, j, 0, 0, 0, 0);
    }
    WordOf(COMPLETED, 14, 0xd0, 0, 0, 0);
  }

  lemma CompletedWords()
    ensures |COMPLETED| == 64 && Words(COMPLETED) == BLOCK
  {
    hide Word, ALPHABET, COMPLETED, BLOCK;
    LetterWordsOfBlock();
    OtherWordsOfBlock();
  }

  // The digest of the letters is the one of the test suite, and they have no other.
  lemma AlphabetDigest(digest: seq<bv8>)
    ensures IsDigest(ALPHABET, digest) <==> digest == DIGEST
  {
    hide Process, Words, Output, IsComplete;
    CompletedWords();
    assert COMPLETED[..64] == COMPLETED && COMPLETED[64..] == [];
    BlockIsProcessed();
    OutputIs();
    AlphabetIsCompleted();
    assert Output(ProcessAll(INITIAL, COMPLETED)) == DIGEST;
    if IsDigest(ALPHABET, digest) { DigestIsUnique(ALPHABET, DIGEST, digest); }
  }
}
