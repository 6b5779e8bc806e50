/** Numbers as bytes, in either order. */
module ByteOrder {
  import opened Bits

  type Byte = b: nat | b < 256
  type Bytes = seq<Byte>

  function LittleEndian(b: Bytes): nat {
    if b == [] then 0 else b[0] + 0x100 * LittleEndian(b[1..])
  }

  function BigEndian(b: Bytes): nat {
    if b == [] then 0 else 0x100 * BigEndian(b[..|b| - 1]) + b[|b| - 1]
  }

  /** The `k` bytes of a number. */
  function Encoded(big: bool, n: nat, k: nat): (b: Bytes)
    ensures |b| == k
    decreases k
  {
    if k == 0 then []
    else if big then Encoded(big, n / 0x100, k - 1) + [n % 0x100]
    else [n % 0x100] + Encoded(big, n / 0x100, k - 1)
  }

  function Decoded(big: bool, b: Bytes): nat {
    if big then BigEndian(b) else LittleEndian(b)
  }

  /** Reading undoes writing. */
  lemma {:induction false} DecodeEncoded(big: bool, n: nat, k: nat)
    requires n < Pow2(8 * k)
    ensures Decoded(big, Encoded(big, n, k)) == n
    decreases k
  {
    if k > 0 {
      PowSum(8, 8 * (k - 1));
      Powers();
      var b, part := Encoded(big, n, k), Encoded(big, n / 0x100, k - 1);
      assert b == if big then part + [n % 0x100] else [n % 0x100] + part;
      assert Decoded(big, b) == 0x100 * Decoded(big, part) + n % 0x100 by {
        assert if big then b[..k - 1] == part else b[1..] == part;
      }
      hide Decoded, Encoded, Pow2;
      DecodeEncoded(big, n / 0x100, k - 1);
    }
  }

  /** And writing undoes reading. */
  lemma {:induction false} EncodeDecoded(big: bool, b: Bytes)
    ensures Decoded(big, b) < Pow2(8 * |b|) && Encoded(big, Decoded(big, b), |b|) == b
    decreases |b|
  {
    if b != [] {
      var part, digit := if big then b[..|b| - 1] else b[1..], if big then b[|b| - 1] else b[0];
      assert Decoded(big, b) == 0x100 * Decoded(big, part) + digit;
      assert b == if big then part + [digit] else [digit] + part;
      hide Decoded, Pow2;
      EncodeDecoded(big, part);
      PowSum(8, 8 * |part|);
      Powers();
      Digits(Decoded(big, part), digit, Pow2(8 * |part|));
    }
  }

  lemma Digits(n: nat, digit: Byte, p: nat)
    requires n < p
    ensures (0x100 * n + digit) / 0x100 == n && (0x100 * n + digit) % 0x100 == digit
    ensures 0x100 * n + digit < 0x100 * p
  {
  }

  lemma {:induction false} LittleEndianParts(b: Bytes)
    requires |b| <= 4
    ensures LittleEndian(b)
         == (if |b| >= 1 then b[0] as nat else 0) + (if |b| >= 2 then 0x100 * (b[1] as nat) else 0)
          + (if |b| >= 3 then 0x1_0000 * (b[2] as nat) else 0) + if |b| >= 4 then 0x100_0000 * (b[3] as nat) else 0
  {
    if b != [] {
      var c := b[1..];
      assert forall i :: 0 <= i < |c| ==> c[i] == b[i + 1];
      LittleEndianParts(c);
    }
  }

  lemma BigEndianThree(b: Bytes)
    requires |b| == 3
    ensures BigEndian(b) == 0x1_0000 * (b[0] as nat) + 0x100 * (b[1] as nat) + b[2] as nat
  {
    assert b[..2][..1] == [b[0]] && [b[0]][..0] == [];
    assert BigEndian([b[0]]) == b[0];
  }

  /** Bytes put together with shifts and `|`. */
  lemma Assembled(b0: Byte, b1: Byte, b2: Byte, b3: Byte)
    ensures Or(b0, Shl(b1, 8)) == b0 + 0x100 * b1
    ensures Or(Or(b0, Shl(b1, 8)), Shl(b2, 16)) == b0 + 0x100 * b1 + 0x1_0000 * b2
    ensures Or(Or(Or(b0, Shl(b1, 8)), Shl(b2, 16)), Shl(b3, 24)) == b0 + 0x100 * b1 + 0x1_0000 * b2 + 0x100_0000 * b3
  {
    hide Or, Pow2;
    Powers();
    DisjointSum(b1, b0, 8);
    DisjointSum(b2, b0 + 0x100 * b1, 16);
    DisjointSum(b3, b0 + 0x100 * b1 + 0x1_0000 * b2, 24);
  }

  /** The same from the last byte down. */
  lemma AssembledDown(b0: Byte, b1: Byte, b2: Byte)
    ensures Or(Shl(b1, 8), b0) == b0 + 0x100 * b1
    ensures Or(Or(Shl(b2, 16), Shl(b1, 8)), b0) == b0 + 0x100 * b1 + 0x1_0000 * b2
  {
    hide Or, Pow2;
    Powers();
    DisjointSum(b1, b0, 8);
    DisjointSum(b2, Shl(b1, 8), 16);
    DisjointSum(0x100 * b2 + b1, b0, 8);
    assert Shl(b2, 16) + Shl(b1, 8) == Shl(0x100 * b2 + b1, 8);
  }
}
