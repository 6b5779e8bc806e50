/** The reference digests that the badge script checks itself against, computed step by step: they
    fix every constant, rotation and shift of the hash. */
module Murmur3Vectors {
  import opened Bits
  import opened ByteOrder
  import opened Murmur3

  // ---- Exclusive or on hexadecimal digits -----------------------------------------

  /** A digit, by its four bits. */
  datatype Hex = Hex(p: bool, q: bool, r: bool, s: bool)

  const H0 := Hex(false, false, false, false)
  const H1 := Hex(false, false, false, true)
  const H2 := Hex(false, false, true, false)
  const H3 := Hex(false, false, true, true)
  const H4 := Hex(false, true, false, false)
  const H5 := Hex(false, true, false, true)
  const H6 := Hex(false, true, true, false)
  const H7 := Hex(false, true, true, true)
  const H8 := Hex(true, false, false, false)
  const H9 := Hex(true, false, false, true)
  const HA := Hex(true, false, true, false)
  const HB := Hex(true, false, true, true)
  const HC := Hex(true, true, false, false)
  const HD := Hex(true, true, false, true)
  const HE := Hex(true, true, true, false)
  const HF := Hex(true, true, true, true)

  function Bit(b: bool): nat {
    if b then 1 else 0
  }

  function Digit(h: Hex): nat {
    (if h.p then 8 else 0) + (if h.q then 4 else 0) + (if h.r then 2 else 0) + (if h.s then 1 else 0)
  }

  function XorDigits(x: Hex, y: Hex): Hex {
    Hex(x.p != y.p, x.q != y.q, x.r != y.r, x.s != y.s)
  }

  /** A word of eight digits. */
  datatype Octet = Octet(h7: Hex, h6: Hex, h5: Hex, h4: Hex, h3: Hex, h2: Hex, h1: Hex, h0: Hex)

  function Half(a: Hex, b: Hex, c: Hex, d: Hex): nat {
    4096 * Digit(a) + 256 * Digit(b) + 16 * Digit(c) + Digit(d)
  }

  function Value(w: Octet): nat {
    0x1_0000 * Half(w.h7, w.h6, w.h5, w.h4) + Half(w.h3, w.h2, w.h1, w.h0)
  }

  function XorOctets(u: Octet, w: Octet): Octet {
    Octet(XorDigits(u.h7, w.h7), XorDigits(u.h6, w.h6), XorDigits(u.h5, w.h5), XorDigits(u.h4, w.h4),
          XorDigits(u.h3, w.h3), XorDigits(u.h2, w.h2), XorDigits(u.h1, w.h1), XorDigits(u.h0, w.h0))
  }

  lemma XorBit(a: nat, b: nat, x: bool, y: bool)
    ensures Xor(2 * a + Bit(x), 2 * b + Bit(y)) == 2 * Xor(a, b) + Bit(x != y)
  {
    hide Xor;
    var u, v := Bit(x), Bit(y);
    XorHalf(2 * a + u, 2 * b + v);
    assert (2 * a + u) / 2 == a && (2 * b + v) / 2 == b;
    assert (2 * a + u + (2 * b + v)) % 2 == (u + v) % 2;
  }

  lemma DigitBits(h: Hex)
    ensures Digit(h) == 8 * Bit(h.p) + 4 * Bit(h.q) + 2 * Bit(h.r) + Bit(h.s)
  {
  }

  lemma XorDigitBits(x: Hex, y: Hex)
    ensures Digit(XorDigits(x, y)) == 8 * Bit(x.p != y.p) + 4 * Bit(x.q != y.q) + 2 * Bit(x.r != y.r) + Bit(x.s != y.s)
  {
    hide Bit;
    DigitBits(XorDigits(x, y));
    hide Digit;
  }

  lemma XorTwo(a: nat, b: nat, i: nat, j: nat, p: bool, q: bool, r: bool, s: bool)
    requires i == 4 * a + 2 * Bit(p) + Bit(q) && j == 4 * b + 2 * Bit(r) + Bit(s)
    ensures Xor(i, j) == 4 * Xor(a, b) + 2 * Bit(p != r) + Bit(q != s)
  {
    hide Xor, Bit;
    XorBit(a, b, p, r);
    XorBit(2 * a + Bit(p), 2 * b + Bit(r), q, s);
    assert 2 * (2 * a + Bit(p)) + Bit(q) == i && 2 * (2 * b + Bit(r)) + Bit(s) == j;
  }

  lemma XorFour(a: nat, b: nat, i: nat, j: nat, p: bool, q: bool, r: bool, s: bool, p': bool, q': bool, r': bool, s': bool)
    requires i == 16 * a + 8 * Bit(p) + 4 * Bit(q) + 2 * Bit(r) + Bit(s)
    requires j == 16 * b + 8 * Bit(p') + 4 * Bit(q') + 2 * Bit(r') + Bit(s')
    ensures Xor(i, j) == 16 * Xor(a, b) + 8 * Bit(p != p') + 4 * Bit(q != q') + 2 * Bit(r != r') + Bit(s != s')
  {
    hide Xor, Bit;
    var u, v := 4 * a + 2 * Bit(p) + Bit(q), 4 * b + 2 * Bit(p') + Bit(q');
    XorTwo(a, b, u, v, p, q, p', q');
    XorTwo(u, v, i, j, r, s, r', s');
  }

  lemma XorHex(a: nat, b: nat, i: nat, j: nat, x: Hex, y: Hex)
    requires i == 16 * a + Digit(x) && j == 16 * b + Digit(y)
    ensures Xor(i, j) == 16 * Xor(a, b) + Digit(XorDigits(x, y))
  {
    hide Xor, Bit, Digit, XorDigits;
    DigitBits(x);
    DigitBits(y);
    XorDigitBits(x, y);
    XorFour(a, b, i, j, x.p, x.q, x.r, x.s, y.p, y.q, y.r, y.s);
  }

  lemma XorHalves(a: nat, b: nat, u: Octet, w: Octet)
    ensures Xor(0x1_0000 * a + Half(u.h3, u.h2, u.h1, u.h0), 0x1_0000 * b + Half(w.h3, w.h2, w.h1, w.h0))
         == 0x1_0000 * Xor(a, b) + Half(XorOctets(u, w).h3, XorOctets(u, w).h2, XorOctets(u, w).h1, XorOctets(u, w).h0)
  {
    hide Xor, Digit, XorDigits;
    var a1, b1 := 16 * a + Digit(u.h3), 16 * b + Digit(w.h3);
    var a2, b2 := 16 * a1 + Digit(u.h2), 16 * b1 + Digit(w.h2);
    var a3, b3 := 16 * a2 + Digit(u.h1), 16 * b2 + Digit(w.h1);
    XorHex(a, b, a1, b1, u.h3, w.h3);
    XorHex(a1, b1, a2, b2, u.h2, w.h2);
    XorHex(a2, b2, a3, b3, u.h1, w.h1);
    XorHex(a3, b3, 16 * a3 + Digit(u.h0), 16 * b3 + Digit(w.h0), u.h0, w.h0);
  }

  /** `^` on words, digit by digit. */
  lemma XorIs(a: nat, b: nat, c: nat, u: Octet, w: Octet)
    requires a == Value(u) && b == Value(w) && c == Value(XorOctets(u, w))
    ensures Xor(a, b) == c
  {
    hide Xor, Half, XorDigits;
    XorZero(0);
    var up := Octet(u.h3, u.h2, u.h1, u.h0, u.h7, u.h6, u.h5, u.h4);
    var wp := Octet(w.h3, w.h2, w.h1, w.h0, w.h7, w.h6, w.h5, w.h4);
    XorHalves(0, 0, up, wp);
    XorHalves(Half(u.h7, u.h6, u.h5, u.h4), Half(w.h7, w.h6, w.h5, w.h4), u, w);
  }

  // ---- The steps on words in two parts --------------------------------------------

  lemma RotIs(x: Word, r: nat, s: nat, l: nat)
    requires 0 < r < 32 && x == s * Pow2(32 - r) + l && l < Pow2(32 - r)
    ensures Rot(x, r) == l * Pow2(r) + s
  {
    hide Rot, Pow2, Shr, Lo;
    WordParts(x, r);
    RotParts(x, r);
    DigitsUnique(s, l, Shr(x, 32 - r), Lo(x, 32 - r), Pow2(32 - r));
  }

  lemma ScrambleIs(k: nat, p: nat, s: nat, l: nat, q: nat, c: nat)
    requires k * 0xcc9e2d51 == p * 0x1_0000_0000 + s * 0x2_0000 + l && s < 0x8000 && l < 0x2_0000
    requires (l * 0x8000 + s) * 0x1b873593 == q * 0x1_0000_0000 + c && c < 0x1_0000_0000
    ensures Scramble(k) == c
  {
    hide Rot, Pow2, Mask;
    assert Pow2(17) == 0x2_0000 && Pow2(15) == 0x8000 by { PowSum(8, 9); PowSum(8, 7); SmallPowers(); }
    ModIs(k * 0xcc9e2d51, p, s * 0x2_0000 + l);
    RotIs(MulC1(k), 15, s, l);
    ModIs((l * 0x8000 + s) * 0x1b873593, q, c);
  }

  lemma AbsorbIs(h: nat, k: nat, s: nat, l: nat, q: nat, c: nat)
    requires Xor(h, Scramble(k)) == s * 0x8_0000 + l && l < 0x8_0000 && s < 0x2000
    requires (l * 0x2000 + s) * 5 + 0xe6546b64 == q * 0x1_0000_0000 + c && c < 0x1_0000_0000
    ensures Absorb(h, k) == c
  {
    hide Rot, Pow2, Xor, Scramble, Mask;
    assert Pow2(19) == 0x8_0000 && Pow2(13) == 0x2000 by { PowSum(8, 11); PowSum(8, 5); SmallPowers(); }
    RotIs(Xor(h, Scramble(k)), 13, s, l);
    ModIs((l * 0x2000 + s) * 5 + 0xe6546b64, q, c);
  }

  lemma SmallPowers()
    ensures Pow2(5) == 32 && Pow2(7) == 128 && Pow2(8) == 256 && Pow2(9) == 512 && Pow2(11) == 2048
  {
  }

  lemma FinishIs(h: nat, a: nat, p: nat, m: nat, b: nat, q: nat, n: nat, c: nat)
    requires Xor(h, h / 0x1_0000) == a && a * 0x85ebca6b == p * 0x1_0000_0000 + m && m < 0x1_0000_0000
    requires Xor(m, m / 0x2000) == b && b * 0xc2b2ae35 == q * 0x1_0000_0000 + n && n < 0x1_0000_0000
    requires Xor(n, n / 0x1_0000) == c
    ensures Finish(h) == c
  {
    hide Xor, Shr, Mask;
    Shr16(h);
    ModIs(a * 0x85ebca6b, p, m);
    Shr13(m);
    ModIs(b * 0xc2b2ae35, q, n);
    Shr16(n);
  }

  lemma Shr13(n: nat)
    ensures Shr(n, 13) == n / 0x2000
  {
    hide Shr, Lo, Pow2;
    Split(n, 13);
    assert Pow2(13) == 0x2000 by { PowSum(8, 5); SmallPowers(); }
  }

  // ---- The digests ----------------------------------------------------------------

  /** One block, by its four bytes. */
  lemma FoldIs(d: Bytes, n: nat, h: nat, k: nat)
    requires 4 * n + 4 <= |d| && Fold(Step(), 0, Words(d, n)) == h
    requires k == d[4 * n] as nat + 0x100 * d[4 * n + 1] as nat + 0x1_0000 * d[4 * n + 2] as nat + 0x100_0000 * d[4 * n + 3] as nat
    ensures Fold(Step(), 0, Words(d, n + 1)) == Absorb(h, k)
  {
    hide Absorb, Words, Fold, LittleEndian;
    FoldStep(d, 0, n);
    LittleEndianParts(d[4 * n..4 * n + 4]);
  }

  /** The last byte, where there is one. */
  lemma TailIs(d: Bytes, n: nat, k: nat)
    requires |d| == 4 * n + 1 && k == d[4 * n] as nat
    ensures Digest(d, 0) == Xor(Fold(Step(), 0, Words(d, n)), Scramble(k))
  {
    hide Words, Fold, Scramble, Xor, LittleEndian;
    LittleEndianParts(TailOf(d));
  }

  /** `""` */
  function Nothing(): Bytes {
    []
  }

  lemma NothingState()
    ensures Digest(Nothing(), 0) == 0x0
  {
  }

  lemma NothingFinish()
    ensures Finish(Xor(0x0, 0)) == 0x00000000
  {
    hide Xor, Finish;
    XorZero(0);
    FinishIs(0x0, 0x0, 0x0, 0x0, 0x0, 0x0, 0x0, 0x0);
  }

  /** `"a"` */
  function A(): Bytes {
    [0x61]
  }

  lemma ATail()
    ensures Xor(0x0, Scramble(0x61)) == 0x504ba9d5
  {
    hide Xor, Scramble;
    assert Scramble(0x61) == 0x504ba9d5 by { ScrambleIs(0x61, 0x4d, 0x43f7, 0x12bb1, 0x101d0156, 0x504ba9d5); }
    XorZero(0x504ba9d5);
  }

  lemma AState()
    ensures Digest(A(), 0) == 0x504ba9d5
  {
    assert Words(A(), 0) == [];
    ATail();
    hide Absorb, Words, Fold, Digest, Xor, Scramble;
    TailIs(A(), 0, 0x61);
  }

  lemma AFinish()
    ensures Finish(Xor(0x504ba9d5, 1)) == 0x3c2569b2
  {
    hide Xor, Finish;
    assert Xor(0x504ba9d5, 0x1) == 0x504ba9d4 by {
      XorIs(0x504ba9d5, 0x1, 0x504ba9d4, Octet(H5, H0, H4, HB, HA, H9, HD, H5), Octet(H0, H0, H0, H0, H0, H0, H0, H1));
    }
    assert Xor(0x504ba9d4, 0x504b) == 0x504bf99f by {
      XorIs(0x504ba9d4, 0x504b, 0x504bf99f, Octet(H5, H0, H4, HB, HA, H9, HD, H4), Octet(H0, H0, H0, H0, H5, H0, H4, HB));
    }
    assert Xor(0x42adcb75, 0x2156e) == 0x42afde1b by {
      XorIs(0x42adcb75, 0x2156e, 0x42afde1b, Octet(H4, H2, HA, HD, HC, HB, H7, H5), Octet(H0, H0, H0, H2, H1, H5, H6, HE));
    }
    assert Xor(0x3c255597, 0x3c25) == 0x3c2569b2 by {
      XorIs(0x3c255597, 0x3c25, 0x3c2569b2, Octet(H3, HC, H2, H5, H5, H5, H9, H7), Octet(H0, H0, H0, H0, H3, HC, H2, H5));
    }
    FinishIs(0x504ba9d4, 0x504bf99f, 0x2a016deb, 0x42adcb75, 0x42afde1b, 0x32b7d1fa, 0x3c255597, 0x3c2569b2);
  }

  /** `"hello"` */
  function Hello(): Bytes {
    [0x68, 0x65, 0x6c, 0x6c, 0x6f]
  }

  lemma HelloBlock0()
    ensures Absorb(0x0, 0x6c6c6568) == 0xef13efcd
  {
    hide Xor, Scramble, Absorb;
    assert Scramble(0x6c6c6568) == 0xa0ae7465 by { ScrambleIs(0x6c6c6568, 0x56a95ee6, 0x6927, 0x15de8, 0x12d02e97, 0xa0ae7465); }
    XorZero(0xa0ae7465);
    AbsorbIs(0x0, 0x6c6c6568, 0x1415, 0x67465, 0x4, 0xef13efcd);
  }

  lemma HelloFold0()
    ensures Fold(Step(), 0, Words(Hello(), 1)) == 0xef13efcd
  {
    assert Words(Hello(), 0) == [];
    HelloBlock0();
    hide Absorb, Words, Fold;
    FoldIs(Hello(), 0, 0x0, 0x6c6c6568);
  }

  lemma HelloTail()
    ensures Xor(0xef13efcd, Scramble(0x6f)) == 0x9caf3fb3
  {
    hide Xor, Scramble;
    assert Scramble(0x6f) == 0x73bcd07e by { ScrambleIs(0x6f, 0x58, 0x5c4a, 0x1a61f, 0x16b225c4, 0x73bcd07e); }
    assert Xor(0xef13efcd, 0x73bcd07e) == 0x9caf3fb3 by {
      XorIs(0xef13efcd, 0x73bcd07e, 0x9caf3fb3, Octet(HE, HF, H1, H3, HE, HF, HC, HD), Octet(H7, H3, HB, HC, HD, H0, H7, HE));
    }
  }

  lemma HelloState()
    ensures Digest(Hello(), 0) == 0x9caf3fb3
  {
    HelloFold0();
    HelloTail();
    hide Absorb, Words, Fold, Digest, Xor, Scramble;
    TailIs(Hello(), 1, 0x6f);
  }

  lemma HelloFinish()
    ensures Finish(Xor(0x9caf3fb3, 5)) == 0x248bfa47
  {
    hide Xor, Finish;
    assert Xor(0x9caf3fb3, 0x5) == 0x9caf3fb6 by {
      XorIs(0x9caf3fb3, 0x5, 0x9caf3fb6, Octet(H9, HC, HA, HF, H3, HF, HB, H3), Octet(H0, H0, H0, H0, H0, H0, H0, H5));
    }
    assert Xor(0x9caf3fb6, 0x9caf) == 0x9cafa319 by {
      XorIs(0x9caf3fb6, 0x9caf, 0x9cafa319, Octet(H9, HC, HA, HF, H3, HF, HB, H6), Octet(H0, H0, H0, H0, H9, HC, HA, HF));
    }
    assert Xor(0xc90de573, 0x6486f) == 0xc90bad1c by {
      XorIs(0xc90de573, 0x6486f, 0xc90bad1c, Octet(HC, H9, H0, HD, HE, H5, H7, H3), Octet(H0, H0, H0, H6, H4, H8, H6, HF));
    }
    assert Xor(0x248bdecc, 0x248b) == 0x248bfa47 by {
      XorIs(0x248bdecc, 0x248b, 0x248bfa47, Octet(H2, H4, H8, HB, HD, HE, HC, HC), Octet(H0, H0, H0, H0, H2, H4, H8, HB));
    }
    FinishIs(0x9caf3fb6, 0x9cafa319, 0x51f790da, 0xc90de573, 0xc90bad1c, 0x98e72c1d, 0x248bdecc, 0x248bfa47);
  }

  /** `"Hello, world!"` */
  function HelloWorld(): Bytes {
    [0x48, 0x65, 0x6c, 0x6c, 0x6f, 0x2c, 0x20, 0x77, 0x6f, 0x72, 0x6c, 0x64, 0x21]
  }

  lemma HelloWorldBlock0()
    ensures Absorb(0x0, 0x6c6c6548) == 0xcb5bec36
  {
    hide Xor, Scramble, Absorb;
    assert Scramble(0x6c6c6548) == 0x153080c by { ScrambleIs(0x6c6c6548, 0x56a95ecd, 0x1f44, 0x1b3c8, 0x176e2432, 0x153080c); }
    XorZero(0x153080c);
    AbsorbIs(0x0, 0x6c6c6548, 0x2a, 0x3080c, 0x2, 0xcb5bec36);
  }

  lemma HelloWorldFold0()
    ensures Fold(Step(), 0, Words(HelloWorld(), 1)) == 0xcb5bec36
  {
    assert Words(HelloWorld(), 0) == [];
    HelloWorldBlock0();
    hide Absorb, Words, Fold;
    FoldIs(HelloWorld(), 0, 0x0, 0x6c6c6548);
  }

  lemma HelloWorldBlock1()
    ensures Absorb(0xcb5bec36, 0x77202c6f) == 0x22b5bd6f
  {
    hide Xor, Scramble, Absorb;
    assert Scramble(0x77202c6f) == 0x7d238cad by { ScrambleIs(0x77202c6f, 0x5f373e5a, 0x1cbf, 0x1921f, 0x159ed6d7, 0x7d238cad); }
    assert Xor(0xcb5bec36, 0x7d238cad) == 0xb678609b by {
      XorIs(0xcb5bec36, 0x7d238cad, 0xb678609b, Octet(HC, HB, H5, HB, HE, HC, H3, H6), Octet(H7, HD, H2, H3, H8, HC, HA, HD));
    }
    AbsorbIs(0xcb5bec36, 0x77202c6f, 0x16cf, 0x609b, 0x1, 0x22b5bd6f);
  }

  lemma HelloWorldFold1()
    ensures Fold(Step(), 0, Words(HelloWorld(), 2)) == 0x22b5bd6f
  {
    HelloWorldFold0();
    HelloWorldBlock1();
    hide Absorb, Words, Fold;
    FoldIs(HelloWorld(), 1, 0xcb5bec36, 0x77202c6f);
  }

  lemma HelloWorldBlock2()
    ensures Absorb(0x22b5bd6f, 0x646c726f) == 0xa1590249
  {
    hide Xor, Scramble, Absorb;
    assert Scramble(0x646c726f) == 0xa9bc9655 by { ScrambleIs(0x646c726f, 0x504477e5, 0x7577, 0x1b81f, 0x17a9e95b, 0xa9bc9655); }
    assert Xor(0x22b5bd6f, 0xa9bc9655) == 0x8b092b3a by {
      XorIs(0x22b5bd6f, 0xa9bc9655, 0x8b092b3a, Octet(H2, H2, HB, H5, HB, HD, H6, HF), Octet(HA, H9, HB, HC, H9, H6, H5, H5));
    }
    AbsorbIs(0x22b5bd6f, 0x646c726f, 0x1161, 0x12b3a, 0x1, 0xa1590249);
  }

  lemma HelloWorldFold2()
    ensures Fold(Step(), 0, Words(HelloWorld(), 3)) == 0xa1590249
  {
    HelloWorldFold1();
    HelloWorldBlock2();
    hide Absorb, Words, Fold;
    FoldIs(HelloWorld(), 2, 0x22b5bd6f, 0x646c726f);
  }

  lemma HelloWorldTail()
    ensures Xor(0xa1590249, Scramble(0x21)) == 0xd07536a
  {
    hide Xor, Scramble;
    assert Scramble(0x21) == 0xac5e5123 by { ScrambleIs(0x21, 0x1a, 0x3031, 0x1d771, 0x1958fa4e, 0xac5e5123); }
    assert Xor(0xa1590249, 0xac5e5123) == 0xd07536a by {
      XorIs(0xa1590249, 0xac5e5123, 0xd07536a, Octet(HA, H1, H5, H9, H0, H2, H4, H9), Octet(HA, HC, H5, HE, H5, H1, H2, H3));
    }
  }

  lemma HelloWorldState()
    ensures Digest(HelloWorld(), 0) == 0xd07536a
  {
    HelloWorldFold2();
    HelloWorldTail();
    hide Absorb, Words, Fold, Digest, Xor, Scramble;
    TailIs(HelloWorld(), 3, 0x21);
  }

  lemma HelloWorldFinish()
    ensures Finish(Xor(0xd07536a, 13)) == 0xc0363e43
  {
    hide Xor, Finish;
    assert Xor(0xd07536a, 0xd) == 0xd075367 by {
      XorIs(0xd07536a, 0xd, 0xd075367, Octet(H0, HD, H0, H7, H5, H3, H6, HA), Octet(H0, H0, H0, H0, H0, H0, H0, HD));
    }
    assert Xor(0xd075367, 0xd07) == 0xd075e60 by {
      XorIs(0xd075367, 0xd07, 0xd075e60, Octet(H0, HD, H0, H7, H5, H3, H6, H7), Octet(H0, H0, H0, H0, H0, HD, H0, H7));
    }
    assert Xor(0xc4ac3220, 0x62561) == 0xc4aa1741 by {
      XorIs(0xc4ac3220, 0x62561, 0xc4aa1741, Octet(HC, H4, HA, HC, H3, H2, H2, H0), Octet(H0, H0, H0, H6, H2, H5, H6, H1));
    }
    assert Xor(0xc036fe75, 0xc036) == 0xc0363e43 by {
      XorIs(0xc036fe75, 0xc036, 0xc0363e43, Octet(HC, H0, H3, H6, HF, HE, H7, H5), Octet(H0, H0, H0, H0, HC, H0, H3, H6));
    }
    FinishIs(0xd075367, 0xd075e60, 0x6d0d418, 0xc4ac3220, 0xc4aa1741, 0x959229b7, 0xc036fe75, 0xc0363e43);
  }

  /** The four digests, whether the length is masked or not. */
  lemma KnownDigests()
    ensures HashUnmasked(Nothing(), 0) == Hash(Nothing(), 0) == 0
    ensures HashUnmasked(A(), 0) == Hash(A(), 0) == 0x3c2569b2
    ensures HashUnmasked(Hello(), 0) == Hash(Hello(), 0) == 0x248bfa47
    ensures HashUnmasked(HelloWorld(), 0) == Hash(HelloWorld(), 0) == 0xc0363e43
  {
    NothingState();
    AState();
    HelloState();
    HelloWorldState();
    NothingFinish();
    AFinish();
    HelloFinish();
    HelloWorldFinish();
    hide Digest, Finish, Xor;
  }
}
