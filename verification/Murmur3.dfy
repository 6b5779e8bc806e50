/** The four copies of MurmurHash3 x86_32, on Python's unbounded integers with the masks
    where each copy writes them, and what the construction guarantees. */
module Murmur3 {
  import opened Bits
  import opened ByteOrder

  type Word = x: nat | x < 0x1_0000_0000

  const M: nat := 0x1_0000_0000

  /** `x & 0xFFFFFFFF` */
  function Mask(x: nat): Word {
    x % 0x1_0000_0000
  }

  lemma MaskIsAnd(x: nat)
    ensures Mask(x) == Lo(x, 32)
  {
    hide Lo, Shr, Pow2, Mask;
    Split(x, 32);
    Powers();
    ModIs(x, Shr(x, 32), Lo(x, 32));
  }

  // ---- The steps ------------------------------------------------------------------

  function Rot(x: nat, r: nat): Word
    requires 0 < r < 32
  {
    Mask(Or(Shl(x, r), Shr(x, 32 - r)))
  }

  function MulC1(k: nat): Word { Mask(k * 0xcc9e2d51) }

  function MulC2(k: nat): Word { Mask(k * 0x1b873593) }

  function MulAdd(h: nat): Word { Mask(h * 5 + 0xe6546b64) }

  function MulM1(h: nat): Word { Mask(h * 0x85ebca6b) }

  function MulM2(h: nat): Word { Mask(h * 0xc2b2ae35) }

  function XorShift(h: nat, k: nat): nat { Xor(h, Shr(h, k)) }

  function Scramble(k: nat): Word {
    MulC2(Rot(MulC1(k), 15))
  }

  function Absorb(h: nat, k: nat): Word {
    MulAdd(Rot(Xor(h, Scramble(k)), 13))
  }

  /** The finalizer, from the state with the length mixed in. */
  function Finish(h: nat): nat {
    XorShift(MulM2(XorShift(MulM1(XorShift(h, 16)), 13)), 16)
  }

  // ---- The hash -------------------------------------------------------------------

  /** The first `n` whole blocks of the input, as words. */
  function Words(d: Bytes, n: nat): seq<nat>
    requires 4 * n <= |d|
  {
    if n == 0 then [] else Words(d, n - 1) + [LittleEndian(d[4 * n - 4..4 * n])]
  }

  function Fold(f: (nat, nat) -> nat, s: nat, ks: seq<nat>): nat {
    if ks == [] then s else f(Fold(f, s, ks[..|ks| - 1]), ks[|ks| - 1])
  }

  function Step(): (nat, nat) -> nat {
    (h: nat, k: nat) => Absorb(h, k)
  }

  function TailOf(d: Bytes): (t: Bytes)
    ensures |t| == |d| % 4
  {
    d[|d| / 4 * 4..]
  }

  /** A last incomplete block is mixed in without the rotation of the state. */
  function AbsorbTail(h: nat, t: Bytes): nat {
    if t == [] then h else Xor(h, Scramble(LittleEndian(t)))
  }

  /** The state just before the length is mixed in. */
  function Digest(d: Bytes, seed: nat): nat {
    AbsorbTail(Fold(Step(), seed, Words(d, |d| / 4)), TailOf(d))
  }

  /** MurmurHash3 x86_32: the length is a word. */
  function Hash(d: Bytes, seed: nat): nat {
    Finish(Xor(Digest(d, seed), Mask(|d|)))
  }

  /** What a copy computes that mixes the length in unmasked. */
  function HashUnmasked(d: Bytes, seed: nat): nat {
    Finish(Xor(Digest(d, seed), |d|))
  }

  // ---- Every step is injective on words -------------------------------------------

  lemma ModIs(x: nat, q: int, r: nat)
    requires x == q * 0x1_0000_0000 + r && r < M
    ensures Mask(x) == r
  {
  }

  /** The multipliers are odd, so each has an inverse modulo 2**32. */
  lemma MulInverse(x: Word)
    ensures Mask(MulC1(x) * 0xdee13bb1) == x && Mask(MulC2(x) * 0x56ed309b) == x
    ensures Mask(MulM1(x) * 0xa5cb9243) == x && Mask(MulM2(x) * 0x7ed1b41d) == x
  {
    Unit(x, 0xcc9e2d51, 0xdee13bb1, (0xcc9e2d51 * 0xdee13bb1 - 1) / M);
    Unit(x, 0x1b873593, 0x56ed309b, (0x1b873593 * 0x56ed309b - 1) / M);
    Unit(x, 0x85ebca6b, 0xa5cb9243, (0x85ebca6b * 0xa5cb9243 - 1) / M);
    Unit(x, 0xc2b2ae35, 0x7ed1b41d, (0xc2b2ae35 * 0x7ed1b41d - 1) / M);
  }

  lemma Unit(x: Word, c: nat, d: nat, q: nat)
    requires c * d == q * M + 1
    ensures Mask(Mask(x * c) * d) == x
  {
    var a, r := x * c / M, Mask(x * c);
    assert r == x * c - a * M;
    calc {
      r * d;
      x * c * d - a * M * d;
      { assert x * c * d == x * (c * d); }
      x * (q * M + 1) - a * M * d;
      { assert x * (q * M + 1) == x * q * M + x && a * M * d == a * d * M; }
      (x * q - a * d) * M + x;
    }
    ModIs(r * d, x * q - a * d, x);
  }

  lemma MulInjective(x: Word, y: Word)
    ensures MulC1(x) == MulC1(y) ==> x == y
    ensures MulC2(x) == MulC2(y) ==> x == y
    ensures MulM1(x) == MulM1(y) ==> x == y
    ensures MulM2(x) == MulM2(y) ==> x == y
  {
    MulInverse(x);
    MulInverse(y);
  }

  lemma MulAddInjective(x: Word, y: Word)
    requires MulAdd(x) == MulAdd(y)
    ensures x == y
  {
  }

  lemma Recombine(s: nat, l: nat, p: nat, q: nat)
    requires l < q && s * q + l < p * q
    ensures s < p && 0 <= l * p + s < p * q
    ensures (s * q + l) * p == s * (p * q) + l * p
  {
    SmallerFactor(s, p, q);
    SmallerFactor(l, q, p);
    assert s * q * p == s * (p * q);
  }

  lemma SmallerFactor(s: nat, p: nat, q: nat)
    ensures s * q < p * q ==> s < p
    ensures s < p ==> s * q + q <= p * q
  {
    assert s < p ==> (s + 1) * q <= p * q;
    assert p <= s ==> p * q <= s * q;
  }

  lemma WordParts(x: Word, r: nat)
    requires 0 < r < 32
    ensures Lo(x, 32 - r) < Pow2(32 - r) && Pow2(r) * Pow2(32 - r) == M
    ensures x == Shr(x, 32 - r) * Pow2(32 - r) + Lo(x, 32 - r)
  {
    hide Lo, Shr, Pow2;
    Powers();
    Split(x, 32 - r);
    PowSum(r, 32 - r);
  }

  /** Rotation exchanges the two parts of the word. */
  lemma RotParts(x: Word, r: nat)
    requires 0 < r < 32
    ensures Shr(x, 32 - r) < Pow2(r)
    ensures Rot(x, r) == Lo(x, 32 - r) * Pow2(r) + Shr(x, 32 - r)
  {
    hide Lo, Shr, Or, Pow2, Mask;
    var s, l, p, q := Shr(x, 32 - r), Lo(x, 32 - r), Pow2(r), Pow2(32 - r);
    WordParts(x, r);
    Recombine(s, l, p, q);
    DisjointSum(x, s, r);
    assert Shl(x, r) == s * M + l * p;
    ModIs(x * p + s, s, l * p + s);
  }

  lemma RotInjective(x: Word, y: Word, r: nat)
    requires 0 < r < 32 && Rot(x, r) == Rot(y, r)
    ensures x == y
  {
    hide Lo, Shr, Rot, Pow2;
    WordParts(x, r);
    WordParts(y, r);
    RotParts(x, r);
    RotParts(y, r);
    DigitsUnique(Lo(x, 32 - r), Shr(x, 32 - r), Lo(y, 32 - r), Shr(y, 32 - r), Pow2(r));
  }

  lemma DigitsUnique(a: nat, b: nat, c: nat, d: nat, p: nat)
    requires b < p && d < p && a * p + b == c * p + d
    ensures a == c && b == d
  {
    assert a < c ==> (a + 1) * p <= c * p;
    assert c < a ==> (c + 1) * p <= a * p;
  }

  lemma XorWord(a: Word, b: Word)
    ensures Xor(a, b) < M
  {
    Powers();
    XorBound(a, b, 32);
  }

  lemma ScrambleInjective(j: Word, k: Word)
    requires Scramble(j) == Scramble(k)
    ensures j == k
  {
    hide MulC1, MulC2, Rot;
    MulInjective(Rot(MulC1(j), 15), Rot(MulC1(k), 15));
    RotInjective(MulC1(j), MulC1(k), 15);
    MulInjective(j, k);
  }

  /** The state before a block and the block each decide the state after it. */
  lemma AbsorbInjective(g: Word, h: Word, j: Word, k: Word)
    requires Absorb(g, j) == Absorb(h, k)
    ensures g == h <==> j == k
  {
    hide MulAdd, Rot, Scramble, Xor;
    XorWord(g, Scramble(j));
    XorWord(h, Scramble(k));
    MulAddInjective(Rot(Xor(g, Scramble(j)), 13), Rot(Xor(h, Scramble(k)), 13));
    RotInjective(Xor(g, Scramble(j)), Xor(h, Scramble(k)), 13);
    if g == h {
      XorInjective(Scramble(j), Scramble(k), g);
      ScrambleInjective(j, k);
    }
    if j == k {
      XorInjective(g, h, Scramble(j));
    }
  }

  lemma XorShiftWord(h: Word, k: nat)
    ensures XorShift(h, k) < M
  {
    XorWord(h, Shr(h, k));
  }

  /** After the first xor-shift only the low word matters, and it decides the hash. */
  lemma FinishTells(x: nat, y: nat)
    ensures Finish(x) == Finish(y) <==> Mask(XorShift(x, 16)) == Mask(XorShift(y, 16))
  {
    hide MulM1, MulM2, Mask, Xor, Shr;
    var a, b := XorShift(x, 16), XorShift(y, 16);
    MulM1OfMask(a);
    MulM1OfMask(b);
    if Finish(x) == Finish(y) {
      var c, d := MulM1(a), MulM1(b);
      XorShiftWord(c, 13);
      XorShiftWord(d, 13);
      XorShiftInjective(MulM2(XorShift(c, 13)), MulM2(XorShift(d, 13)), 16);
      MulInjective(XorShift(c, 13), XorShift(d, 13));
      XorShiftInjective(c, d, 13);
      MulInjective(Mask(a), Mask(b));
    }
  }

  lemma MulM1OfMask(x: nat)
    ensures MulM1(x) == MulM1(Mask(x))
  {
    var q, m, c := x / M, Mask(x), 0x85ebca6b;
    assert x * c == q * c * M + m * c;
    ModIs(x * c, q * c + m * c / M, Mask(m * c));
  }

  lemma WordFinishTells(x: Word, y: Word)
    ensures Finish(x) == Finish(y) <==> x == y
  {
    hide Finish, Xor, Shr;
    FinishTells(x, y);
    XorShiftWord(x, 16);
    XorShiftWord(y, 16);
    if Finish(x) == Finish(y) {
      XorShiftInjective(x, y, 16);
    }
  }

  // ---- No collisions inside one block ---------------------------------------------

  /** Each argument of the step is determined by the other and the result. */
  ghost predicate StepInjective(f: (nat, nat) -> nat) {
    forall g: Word, h: Word, j: Word, k: Word :: f(g, j) == f(h, k) ==> (g == h <==> j == k)
  }

  ghost predicate StaysWord(f: (nat, nat) -> nat) {
    forall g, k :: f(g, k) < M
  }

  lemma AbsorbStep()
    ensures StepInjective(Step()) && StaysWord(Step())
  {
    hide Absorb;
    forall g: Word, h: Word, j: Word, k: Word | Absorb(g, j) == Absorb(h, k) ensures g == h <==> j == k {
      AbsorbInjective(g, h, j, k);
    }
  }

  lemma {:induction false} FoldWord(f: (nat, nat) -> nat, s: Word, ks: seq<nat>)
    requires StaysWord(f)
    ensures Fold(f, s, ks) < M
  {
  }

  /** Sequences of words that differ in one place lead to different states. */
  lemma {:induction false} FoldTells(f: (nat, nat) -> nat, s: Word, js: seq<nat>, ks: seq<nat>, i: nat)
    requires StepInjective(f) && StaysWord(f) && i < |js| == |ks| && js[i] != ks[i]
    requires forall n :: 0 <= n < |js| ==> js[n] < M && ks[n] < M && (n != i ==> js[n] == ks[n])
    ensures Fold(f, s, js) != Fold(f, s, ks)
    decreases |js|
  {
    var n := |js| - 1;
    FoldWord(f, s, js[..n]);
    FoldWord(f, s, ks[..n]);
    if i == n {
      assert js[..n] == ks[..n];
    } else {
      FoldTells(f, s, js[..n], ks[..n], i);
    }
    var g: Word, h: Word, j: Word, k: Word := Fold(f, s, js[..n]), Fold(f, s, ks[..n]), js[n], ks[n];
    assert f(g, j) == f(h, k) ==> (g == h <==> j == k);
  }

  lemma ValueWord(b: Bytes)
    requires |b| <= 4
    ensures LittleEndian(b) < M
  {
    hide LittleEndian, Encoded;
    EncodeDecoded(false, b);
    Powers();
    PowSum(8 * |b|, 32 - 8 * |b|);
    assert Pow2(8 * |b|) * Pow2(32 - 8 * |b|) >= Pow2(8 * |b|);
  }

  lemma ValueInjective(a: Bytes, b: Bytes)
    requires |a| == |b| && LittleEndian(a) == LittleEndian(b)
    ensures a == b
  {
    EncodeDecoded(false, a);
    EncodeDecoded(false, b);
  }

  lemma {:induction false} WordsAt(d: Bytes, n: nat)
    requires 4 * n <= |d|
    ensures |Words(d, n)| == n
    ensures forall i :: 0 <= i < n ==> Words(d, n)[i] == LittleEndian(d[4 * i..4 * i + 4]) < M
  {
    if n > 0 {
      WordsAt(d, n - 1);
      ValueWord(d[4 * n - 4..4 * n]);
    }
  }

  /** The two inputs differ, and only inside `[lo, hi)`. */
  ghost predicate DifferWithin(a: Bytes, b: Bytes, lo: nat, hi: nat) {
    |a| == |b| && lo <= hi <= |a| && a[..lo] == b[..lo] && a[hi..] == b[hi..] && a != b
  }

  /** Bits 32 to 47 of the length are zero, as for every input under four gigabytes. */
  predicate LengthFits(d: Bytes) {
    |d| / 0x1_0000_0000 % 0x1_0000 == 0
  }

  lemma DigestWord(d: Bytes, seed: Word)
    ensures Digest(d, seed) < M
  {
    hide Absorb, Words, Scramble, Xor;
    AbsorbStep();
    FoldWord(Step(), seed, Words(d, |d| / 4));
    XorWord(Fold(Step(), seed, Words(d, |d| / 4)), Scramble(LittleEndian(TailOf(d))));
  }

  lemma DigestsDecide(a: Bytes, b: Bytes, seed: Word)
    requires |a| == |b|
    ensures Digest(a, seed) != Digest(b, seed) ==> Hash(a, seed) != Hash(b, seed)
  {
    hide Digest, Finish, Xor, Mask;
    var x, y, len := Digest(a, seed), Digest(b, seed), Mask(|a|);
    DigestWord(a, seed);
    DigestWord(b, seed);
    XorWord(x, len);
    XorWord(y, len);
    XorInjective(x, y, len);
    WordFinishTells(Xor(x, len), Xor(y, len));
  }

  /** So they do where the length is mixed in unmasked, however long the inputs are. */
  lemma UnmaskedDigestsDecide(a: Bytes, b: Bytes, seed: Word)
    requires |a| == |b|
    ensures Digest(a, seed) != Digest(b, seed) ==> HashUnmasked(a, seed) != HashUnmasked(b, seed)
  {
    hide Digest, Finish, Xor, Mask, Shr, Lo, XorShift;
    var x, y, n := Digest(a, seed), Digest(b, seed), |a|;
    DigestWord(a, seed);
    DigestWord(b, seed);
    FinishTells(Xor(x, n), Xor(y, n));
    if HashUnmasked(a, seed) == HashUnmasked(b, seed) { LowShiftTells(x, y, n); }
  }

  lemma LowShiftTells(x: Word, y: Word, n: nat)
    requires Mask(XorShift(Xor(x, n), 16)) == Mask(XorShift(Xor(y, n), 16))
    ensures x == y
  {
    hide Mask, Xor, Shr, Lo;
    var m, c := Mask(n), Lo(Shr(n, 16), 32);
    LowShift(x, n);
    LowShift(y, n);
    XorSwap(x, m, Shr(x, 16), c);
    XorSwap(y, m, Shr(y, 16), c);
    XorInjective(Xor(x, Shr(x, 16)), Xor(y, Shr(y, 16)), Xor(m, c));
    XorShiftInjective(x, y, 16);
  }

  /** Inputs of equal length that differ only inside one aligned block never collide. */
  lemma NoCollisionInBlock(a: Bytes, b: Bytes, seed: Word, i: nat)
    requires 4 * i + 4 <= |a| && DifferWithin(a, b, 4 * i, 4 * i + 4)
    ensures Hash(a, seed) != Hash(b, seed) && HashUnmasked(a, seed) != HashUnmasked(b, seed)
  {
    hide Absorb, Words, LittleEndian, Hash, HashUnmasked, Fold, Scramble, Xor;
    var n := |a| / 4;
    var js, ks := Words(a, n), Words(b, n);
    WordsAt(a, n);
    WordsAt(b, n);
    OneWordDiffers(a, b, i);
    AbsorbStep();
    FoldTells(Step(), seed, js, ks, i);
    var lo, hi := 4 * i + 4, 4 * n;
    assert TailOf(a) == a[lo..][hi - lo..] && TailOf(b) == b[lo..][hi - lo..];
    XorInjective(Fold(Step(), seed, js), Fold(Step(), seed, ks), Scramble(LittleEndian(TailOf(a))));
    DigestsDecide(a, b, seed);
    UnmaskedDigestsDecide(a, b, seed);
  }

  lemma OneWordDiffers(a: Bytes, b: Bytes, i: nat)
    requires 4 * i + 4 <= |a| && DifferWithin(a, b, 4 * i, 4 * i + 4)
    ensures LittleEndian(a[4 * i..4 * i + 4]) != LittleEndian(b[4 * i..4 * i + 4])
    ensures forall n :: 0 <= n < |a| / 4 && n != i ==> LittleEndian(a[4 * n..4 * n + 4]) == LittleEndian(b[4 * n..4 * n + 4])
  {
    hide LittleEndian;
    var lo, hi := 4 * i, 4 * i + 4;
    assert a == a[..lo] + a[lo..hi] + a[hi..] && b == b[..lo] + b[lo..hi] + b[hi..];
    if LittleEndian(a[lo..hi]) == LittleEndian(b[lo..hi]) {
      ValueInjective(a[lo..hi], b[lo..hi]);
    }
    forall n | 0 <= n < |a| / 4 && n != i ensures a[4 * n..4 * n + 4] == b[4 * n..4 * n + 4] {
      if n < i {
        assert a[4 * n..4 * n + 4] == a[..lo][4 * n..4 * n + 4] && b[4 * n..4 * n + 4] == b[..lo][4 * n..4 * n + 4];
      } else {
        var m := 4 * n - hi;
        assert a[4 * n..4 * n + 4] == a[hi..][m..m + 4] && b[4 * n..4 * n + 4] == b[hi..][m..m + 4];
      }
    }
  }

  /** Nor do inputs of equal length that differ only in the tail. */
  lemma NoCollisionInTail(a: Bytes, b: Bytes, seed: Word)
    requires DifferWithin(a, b, |a| / 4 * 4, |a|)
    ensures Hash(a, seed) != Hash(b, seed) && HashUnmasked(a, seed) != HashUnmasked(b, seed)
  {
    hide Absorb, Words, LittleEndian, Hash, HashUnmasked, Fold, Scramble, Xor;
    var n := |a| / 4;
    var ta, tb := TailOf(a), TailOf(b);
    assert a == a[..4 * n] + ta && b == b[..4 * n] + tb;
    SameWords(a, b, n);
    ValueWord(ta);
    ValueWord(tb);
    if LittleEndian(ta) == LittleEndian(tb) { ValueInjective(ta, tb); }
    if Scramble(LittleEndian(ta)) == Scramble(LittleEndian(tb)) { ScrambleInjective(LittleEndian(ta), LittleEndian(tb)); }
    XorInjective(Scramble(LittleEndian(ta)), Scramble(LittleEndian(tb)), Fold(Step(), seed, Words(a, n)));
    DigestsDecide(a, b, seed);
    UnmaskedDigestsDecide(a, b, seed);
  }

  lemma {:induction false} SameWords(a: Bytes, b: Bytes, n: nat)
    requires 4 * n <= |a| && 4 * n <= |b| && a[..4 * n] == b[..4 * n]
    ensures Words(a, n) == Words(b, n)
  {
    hide LittleEndian;
    if n > 0 {
      assert a[..4 * n - 4] == a[..4 * n][..4 * n - 4] == b[..4 * n - 4];
      assert a[4 * n - 4..4 * n] == a[..4 * n][4 * n - 4..] == b[4 * n - 4..4 * n];
      SameWords(a, b, n - 1);
    }
  }

  // ---- Masked and unmasked length -------------------------------------------------

  /** The copies that mix the length in unmasked agree with the standard hash exactly when
      the length fits. */
  lemma UnmaskedAgreesIff(d: Bytes, seed: Word)
    ensures HashUnmasked(d, seed) == Hash(d, seed) <==> LengthFits(d)
  {
    hide Digest, Finish, Xor, Mask, Shr, Lo, XorShift;
    var x, n := Digest(d, seed), |d|;
    var low, u, v := Xor(x, Mask(n)), Lo(Shr(n, 16), 32), Lo(Shr(Mask(n), 16), 32);
    DigestWord(d, seed);
    FinishTells(Xor(x, n), low);
    LowShift(x, n);
    LowShift(x, Mask(n));
    MaskTwice(n);
    XorInjective(Xor(Shr(x, 16), u), Xor(Shr(x, 16), v), low);
    XorInjective(u, v, Shr(x, 16));
    SpilledBits(n);
  }

  lemma MaskTwice(n: nat)
    ensures Mask(Mask(n)) == Mask(n)
  {
  }

  /** The low word of the first xor-shift, operand by operand. */
  lemma LowShift(x: Word, n: nat)
    ensures Mask(XorShift(Xor(x, n), 16)) == Xor(Xor(x, Mask(n)), Xor(Shr(x, 16), Lo(Shr(n, 16), 32)))
  {
    hide Mask, Xor, Shr, Lo;
    Powers();
    MaskIsAnd(XorShift(Xor(x, n), 16));
    MaskIsAnd(n);
    XorLo(Xor(x, n), Shr(Xor(x, n), 16), 32);
    XorLo(x, n, 32);
    XorShr(x, n, 16);
    XorLo(Shr(x, 16), Shr(n, 16), 32);
    LoSmall(x, 32);
    LoSmall(Shr(x, 16), 32);
  }

  lemma Shr16(n: nat)
    ensures Shr(n, 16) == n / 0x1_0000
  {
    hide Shr, Lo;
    Powers();
    Split(n, 16);
  }

  /** Shifting the unmasked length brings the bits above the word down into it. */
  lemma SpilledBits(n: nat)
    ensures Lo(Shr(n, 16), 32) == Lo(Shr(Mask(n), 16), 32) <==> n / 0x1_0000_0000 % 0x1_0000 == 0
  {
    hide Shr, Lo;
    Shr16(n);
    Shr16(Mask(n));
    MaskIsAnd(n / 0x1_0000);
    MaskIsAnd(Mask(n) / 0x1_0000);
    var q, r := n / 0x1_0000_0000, Mask(n);
    var a, b := q / 0x1_0000, q % 0x1_0000;
    assert n / 0x1_0000 == a * 0x1_0000_0000 + b * 0x1_0000 + r / 0x1_0000;
    ModIs(n / 0x1_0000, a, b * 0x1_0000 + r / 0x1_0000);
  }

  // ---- The four copies ------------------------------------------------------------

  lemma Mixed(b0: Byte, b1: Byte, b2: Byte)
    ensures Xor(0, b0) == b0
    ensures Xor(Xor(0, Shl(b1, 8)), b0) == b0 + 0x100 * b1
    ensures Xor(Xor(Xor(0, Shl(b2, 16)), Shl(b1, 8)), b0) == b0 + 0x100 * b1 + 0x1_0000 * b2
  {
    hide Xor, Pow2;
    Powers();
    XorZero(b0);
    XorZero(Shl(b1, 8));
    XorZero(Shl(b2, 16));
    DisjointSum(b1, b0, 8);
    DisjointSum(b2, Shl(b1, 8), 16);
    DisjointSum(0x100 * b2 + b1, b0, 8);
    assert Shl(b2, 16) + Shl(b1, 8) == Shl(0x100 * b2 + b1, 8);
  }

  lemma LowTwo(n: nat)
    ensures Lo(n, 2) == n % 4
  {
    Split(n, 2);
    assert Pow2(2) == 4;
  }

  lemma FoldStep(d: Bytes, seed: nat, n: nat)
    requires 4 * n + 4 <= |d|
    ensures Fold(Step(), seed, Words(d, n + 1)) == Absorb(Fold(Step(), seed, Words(d, n)), LittleEndian(d[4 * n..4 * n + 4]))
  {
    hide Absorb, LittleEndian;
    assert Words(d, n + 1)[..n] == Words(d, n) by { WordsAt(d, n); }
    WordsAt(d, n + 1);
  }

  lemma FinishWord(h: nat)
    ensures Finish(h) < M
  {
    hide MulM1, MulM2, Xor, Shr;
    XorShiftWord(MulM2(XorShift(MulM1(XorShift(h, 16)), 13)), 16);
  }

  /** The copy that counts blocks and mixes the tail in from its last byte down. */
  method BadgeHash(data: Bytes, seed: nat) returns (h: nat)
    ensures h == HashUnmasked(data, Mask(seed))
  {
    hide Or, Xor, Shl, Shr, Mask, LittleEndian;
    h := Mask(seed);
    var length := |data|;
    var blocks := length / 4;
    for i := 0 to blocks
      invariant h == Fold(Step(), Mask(seed), Words(data, i))
    {
      FoldStep(data, Mask(seed), i);
      var k := LittleEndian(data[i * 4..i * 4 + 4]);
      k := Mask(k * 0xcc9e2d51);
      k := Mask(Or(Shl(k, 15), Shr(k, 17)));
      k := Mask(k * 0x1b873593);
      h := Xor(h, k);
      h := Mask(Or(Shl(h, 13), Shr(h, 19)));
      h := Mask(h * 5 + 0xe6546b64);
    }
    var tailStart := blocks * 4;
    var k := 0;
    var rem := length - tailStart;
    if rem >= 3 { k := Xor(k, Shl(data[tailStart + 2], 16)); }
    if rem >= 2 { k := Xor(k, Shl(data[tailStart + 1], 8)); }
    if rem >= 1 {
      k := Xor(k, data[tailStart]);
      Mixed(data[tailStart], if rem >= 2 then data[tailStart + 1] else 0, if rem >= 3 then data[tailStart + 2] else 0);
      LittleEndianParts(TailOf(data));
      assert k == LittleEndian(TailOf(data));
      k := Mask(k * 0xcc9e2d51);
      k := Mask(Or(Shl(k, 15), Shr(k, 17)));
      k := Mask(k * 0x1b873593);
      h := Xor(h, k);
    }
    assert h == Digest(data, Mask(seed));
    h := Xor(h, length);
    h := Xor(h, Shr(h, 16));
    h := Mask(h * 0x85ebca6b);
    h := Xor(h, Shr(h, 13));
    h := Mask(h * 0xc2b2ae35);
    h := Xor(h, Shr(h, 16));
  }

  /** The copy that reads byte by byte, tests the tail length by equality and masks the length. */
  method CourseHash(data: Bytes, seed: nat) returns (h: nat)
    ensures h == Hash(data, Mask(seed))
  {
    hide Or, Xor, Shl, Shr, Mask, LittleEndian, Lo;
    h := Mask(seed);
    var length := |data|;
    var blocks := length / 4;
    for i := 0 to blocks
      invariant h == Fold(Step(), Mask(seed), Words(data, i))
    {
      FoldStep(data, Mask(seed), i);
      var b0, b1, b2, b3 := Lo(data[i * 4], 8), Lo(data[i * 4 + 1], 8), Lo(data[i * 4 + 2], 8), Lo(data[i * 4 + 3], 8);
      LowByte(data[i * 4..i * 4 + 4]);
      Assembled(b0, b1, b2, b3);
      LittleEndianParts(data[i * 4..i * 4 + 4]);
      var k := Or(Or(Or(b0, Shl(b1, 8)), Shl(b2, 16)), Shl(b3, 24));
      k := Mask(k * 0xcc9e2d51);
      k := Mask(Or(Shl(k, 15), Shr(k, 17)));
      k := Mask(k * 0x1b873593);
      h := Xor(h, k);
      h := Mask(Or(Shl(h, 13), Shr(h, 19)));
      h := Mask(h * 5 + 0xe6546b64);
    }
    var tail := blocks * 4;
    var rem := Lo(length, 2);
    LowTwo(length);
    LowByte(TailOf(data));
    LittleEndianParts(TailOf(data));
    AssembledDown(if rem >= 1 then data[tail] else 0, if rem >= 2 then data[tail + 1] else 0, if rem >= 3 then data[tail + 2] else 0);
    var k := 0;
    if rem == 3 {
      k := Or(Or(Shl(Lo(data[tail + 2], 8), 16), Shl(Lo(data[tail + 1], 8), 8)), Lo(data[tail], 8));
    } else if rem == 2 {
      k := Or(Shl(Lo(data[tail + 1], 8), 8), Lo(data[tail], 8));
    } else if rem == 1 {
      k := Lo(data[tail], 8);
    }
    assert rem != 0 ==> k == LittleEndian(TailOf(data));
    if rem != 0 {
      k := Mask(k * 0xcc9e2d51);
      k := Mask(Or(Shl(k, 15), Shr(k, 17)));
      k := Mask(k * 0x1b873593);
      h := Xor(h, k);
    }
    assert h == Digest(data, Mask(seed));
    h := Xor(h, Mask(length));
    h := Xor(h, Shr(h, 16));
    h := Mask(h * 0x85ebca6b);
    h := Xor(h, Shr(h, 13));
    h := Mask(h * 0xc2b2ae35);
    h := Xor(h, Shr(h, 16));
    FinishWord(Xor(Digest(data, Mask(seed)), Mask(length)));
    MaskSmall(h);
    h := Mask(h);
  }

  lemma MaskSmall(h: nat)
    requires h < M
    ensures Mask(h) == h
  {
  }

  lemma LowByte(b: Bytes)
    ensures forall i :: 0 <= i < |b| ==> Lo(b[i], 8) == b[i]
  {
    hide Lo, Pow2;
    Powers();
    forall i | 0 <= i < |b| ensures Lo(b[i], 8) == b[i] {
      LoSmall(b[i], 8);
    }
  }

  /** The copy that walks byte offsets. */
  method SeedFieldHash(key: Bytes, seed: nat) returns (h: nat)
    ensures h == HashUnmasked(key, Mask(seed))
  {
    hide Or, Xor, Shl, Shr, Mask, LittleEndian, Lo;
    var length := |key|;
    h := Mask(seed);
    var rounded := length / 4 * 4;
    ghost var n := length / 4;
    var i := 0;
    ghost var blocks := 0;
    while i < rounded
      invariant i == 4 * blocks && blocks <= n
      invariant h == Fold(Step(), Mask(seed), Words(key, blocks))
    {
      FoldStep(key, Mask(seed), blocks);
      var k := LittleEndian(key[i..i + 4]);
      k := Mask(k * 0xcc9e2d51);
      k := Mask(Or(Shl(k, 15), Shr(k, 17)));
      k := Mask(k * 0x1b873593);
      h := Xor(h, k);
      h := Mask(Or(Shl(h, 13), Shr(h, 19)));
      h := Mask(h * 5 + 0xe6546b64);
      i, blocks := i + 4, blocks + 1;
    }
    var tailSize := Lo(length, 2);
    LowTwo(length);
    assert blocks == n && TailOf(key) == key[rounded..];
    var k := 0;
    if tailSize >= 3 { k := Xor(k, Shl(key[rounded + 2], 16)); }
    if tailSize >= 2 { k := Xor(k, Shl(key[rounded + 1], 8)); }
    if tailSize >= 1 {
      k := Xor(k, key[rounded]);
      Mixed(key[rounded], if tailSize >= 2 then key[rounded + 1] else 0, if tailSize >= 3 then key[rounded + 2] else 0);
      LittleEndianParts(TailOf(key));
      assert k == LittleEndian(TailOf(key));
      k := Mask(k * 0xcc9e2d51);
      k := Mask(Or(Shl(k, 15), Shr(k, 17)));
      k := Mask(k * 0x1b873593);
      h := Xor(h, k);
    }
    assert h == Digest(key, Mask(seed));
    h := Xor(h, length);
    h := Xor(h, Shr(h, 16));
    h := Mask(h * 0x85ebca6b);
    h := Xor(h, Shr(h, 13));
    h := Mask(h * 0xc2b2ae35);
    h := Xor(h, Shr(h, 16));
  }

  /** The copy that slices the tail off; it does not mask the seed. */
  method LookupHash(data: Bytes, seed: nat) returns (h: nat)
    ensures h == HashUnmasked(data, seed)
  {
    hide Or, Xor, Shl, Shr, Mask, LittleEndian;
    h := seed;
    var n := |data|;
    ghost var whole := n / 4;
    assert n - n % 4 == 4 * whole;
    var i := 0;
    ghost var blocks := 0;
    while i < n - n % 4
      invariant i == 4 * blocks && blocks <= whole
      invariant h == Fold(Step(), seed, Words(data, blocks))
    {
      FoldStep(data, seed, blocks);
      var k := LittleEndian(data[i..i + 4]);
      k := Mask(k * 0xcc9e2d51);
      k := Mask(Or(Shl(k, 15), Shr(k, 17)));
      k := Mask(k * 0x1b873593);
      h := Xor(h, k);
      h := Mask(Or(Shl(h, 13), Shr(h, 19)));
      h := Mask(h * 5 + 0xe6546b64);
      i, blocks := i + 4, blocks + 1;
    }
    assert blocks == whole;
    var k, tail := 0, data[n - n % 4..];
    if |tail| >= 3 { k := Xor(k, Shl(tail[2], 16)); }
    if |tail| >= 2 { k := Xor(k, Shl(tail[1], 8)); }
    if |tail| >= 1 {
      k := Xor(k, tail[0]);
      Mixed(tail[0], if |tail| >= 2 then tail[1] else 0, if |tail| >= 3 then tail[2] else 0);
      LittleEndianParts(tail);
      assert k == LittleEndian(tail);
      k := Mask(k * 0xcc9e2d51);
      k := Mask(Or(Shl(k, 15), Shr(k, 17)));
      k := Mask(k * 0x1b873593);
      h := Xor(h, k);
    }
    assert h == Digest(data, seed);
    h := Xor(h, n);
    h := Xor(h, Shr(h, 16));
    h := Mask(h * 0x85ebca6b);
    h := Xor(h, Shr(h, 13));
    h := Mask(h * 0xc2b2ae35);
    h := Xor(h, Shr(h, 16));
  }
}
