/** The 64-bit FNV-1a checksum that the generator stores in the blob header and the
    reader recomputes.  Bytes are naturals below 256 and `Xor` is the bitwise exclusive
    or of naturals, so the model has no word size of its own: the truncation to 64 bits
    is the explicit `% MODULUS`. */
module Fnv {
  import opened Powers

  type Byte = x: nat | x < 256

  const OFFSET: nat := 0xCBF2_9CE4_8422_2325
  const PRIME: nat := 0x100_0000_01B3
  const MODULUS: nat := 0x1_0000_0000_0000_0000

  // The inverse of PRIME modulo 2^64; it exists because PRIME is odd.
  const PRIME_INVERSE: nat := 0xCE96_5057_AFF6_957B

  function Xor(a: nat, b: nat): nat
  {
    if a == 0 then b
    else if b == 0 then a
    else 2 * Xor(a / 2, b / 2) + (a + b) % 2
  }

  // Each bit of the result is the sum of the two bits without carry.
  lemma {:induction false} XorBits(a: nat, b: nat, k: nat)
    ensures Bit(Xor(a, b), k) == (Bit(a, k) + Bit(b, k)) % 2
    decreases k
  {
    hide Xor;
    XorUnfold(a, b);
    if a == 0 || b == 0 {
      XorZero(a, b);
      BitOfZero(k);
      BitIsBit(a + b, k);
    } else {
      Halves(Xor(a / 2, b / 2), (a + b) % 2);
      if k > 0 {
        XorBits(a / 2, b / 2, k - 1);
      }
    }
  }

  lemma XorZero(a: nat, b: nat)
    requires a == 0 || b == 0
    ensures Xor(a, b) == a + b
  {
  }

  lemma {:induction false} XorUndo(a: nat, b: nat)
    ensures Xor(Xor(a, b), b) == a
  {
    if a == 0 {
      XorSelf(b);
    } else if b != 0 {
      XorUndo(a / 2, b / 2);
      XorUndoStep(a, b, Xor(a / 2, b / 2));
    }
  }

  lemma XorUnfold(a: nat, b: nat)
    ensures a == 0 ==> Xor(a, b) == b
    ensures a != 0 && b != 0 ==> Xor(a, b) == 2 * Xor(a / 2, b / 2) + (a + b) % 2
  {
  }

  lemma Halves(x: nat, p: nat)
    requires p < 2
    ensures (2 * x + p) / 2 == x && (2 * x + p) % 2 == p
  {
  }

  lemma XorUndoStep(a: nat, b: nat, x: nat)
    requires a != 0 && b != 0 && Xor(x, b / 2) == a / 2
    ensures Xor(2 * x + (a + b) % 2, b) == a
  {
    hide Xor;
    var p := (a + b) % 2;
    Halves(x, p);
    XorUnfold(2 * x + p, b);
    XorUnfold(x, b / 2);
  }

  lemma {:induction false} XorSelf(b: nat)
    ensures Xor(b, b) == 0
  {
    if b != 0 {
      XorSelf(b / 2);
    }
  }

  lemma {:induction false} XorSymmetric(a: nat, b: nat)
    ensures Xor(a, b) == Xor(b, a)
  {
    if a != 0 && b != 0 {
      XorSymmetric(a / 2, b / 2);
    }
  }

  lemma {:induction false} XorBelow(a: nat, b: nat, n: nat)
    requires a < Pow2(n) && b < Pow2(n)
    ensures Xor(a, b) < Pow2(n)
  {
    if a != 0 && b != 0 {
      XorBelow(a / 2, b / 2, n - 1);
    }
  }

  lemma ModulusIsPow2()
    ensures Pow2(64) == MODULUS
  {
    assert Pow2(8) == 256;
    assert Pow2(16) == 65536;
    assert Pow2(24) == 0x100_0000;
    assert Pow2(32) == 0x1_0000_0000;
    assert Pow2(40) == 0x100_0000_0000;
    assert Pow2(48) == 0x1_0000_0000_0000;
    assert Pow2(56) == 0x100_0000_0000_0000;
  }

  // One round: fold a byte in, multiply, keep the low 64 bits.
  function Round(h: nat, b: Byte): (r: nat)
    ensures r < MODULUS
  {
    (Xor(h, b) * PRIME) % MODULUS
  }

  // Multiplication by PRIME loses nothing modulo 2^64.
  lemma MultiplyInjective(x: nat, y: nat)
    requires x < MODULUS && y < MODULUS
    requires (x * PRIME) % MODULUS == (y * PRIME) % MODULUS
    ensures x == y
  {
    var q, p := (x * PRIME) / MODULUS, (y * PRIME) / MODULUS;
    assert (x - y) * PRIME == MODULUS * (q - p);
    var t := (PRIME * PRIME_INVERSE) / MODULUS;
    assert PRIME * PRIME_INVERSE == 1 + MODULUS * t;
    assert x - y == MODULUS * ((q - p) * PRIME_INVERSE - (x - y) * t);
  }

  // Different states stay different under the same byte ...
  lemma RoundInjectiveInState(h: nat, g: nat, b: Byte)
    requires h < MODULUS && g < MODULUS && Round(h, b) == Round(g, b)
    ensures h == g
  {
    ModulusIsPow2();
    XorBelow(h, b, 64);
    XorBelow(g, b, 64);
    MultiplyInjective(Xor(h, b), Xor(g, b));
    XorUndo(h, b);
    XorUndo(g, b);
  }

  // ... and different bytes separate the same state.
  lemma RoundInjectiveInByte(h: nat, b: Byte, c: Byte)
    requires h < MODULUS && Round(h, b) == Round(h, c)
    ensures b == c
  {
    ModulusIsPow2();
    XorBelow(h, b, 64);
    XorBelow(h, c, 64);
    MultiplyInjective(Xor(h, b), Xor(h, c));
    XorSymmetric(h, b);
    XorSymmetric(h, c);
    XorUndo(b, h);
    XorUndo(c, h);
  }

  // The checksum as a fold; `Hash` below is the loop both programs run.
  function Fnv1a(buf: seq<Byte>): (h: nat)
    ensures h < MODULUS
  {
    if buf == [] then OFFSET else Round(Fnv1a(buf[..|buf| - 1]), buf[|buf| - 1])
  }

  method Hash(buf: seq<Byte>) returns (h: nat)
    ensures h == Fnv1a(buf)
  {
    h := OFFSET;
    for i := 0 to |buf|
      invariant h == Fnv1a(buf[..i])
    {
      assert buf[..i + 1][..i] == buf[..i];
      h := (Xor(h, buf[i]) * PRIME) % MODULUS;
    }
    assert buf[..|buf|] == buf;
  }

  lemma XorStep(a: nat, b: nat, x: nat)
    requires a != 0 && b != 0 && (if b / 2 == 0 then x == a / 2 else Xor(a / 2, b / 2) == x)
    ensures Xor(a, b) == 2 * x + (a + b) % 2
  {
  }

  // The lowest byte of the offset basis is 0x25, and 0x25 xor 0x61 is 0x44.
  lemma FirstXor()
    ensures Xor(0xCBF2_9CE4_8422_2325, 97) == 0xCBF2_9CE4_8422_2344
  {
    hide Xor;
    XorStep(0x32F_CA73_9210_888C, 1, 0x197_E539_C908_4446);
    XorStep(0x65F_94E7_2421_1119, 3, 0x32F_CA73_9210_888D);
    XorStep(0xCBF_29CE_4842_2232, 6, 0x65F_94E7_2421_111A);
    XorStep(0x197E_539C_9084_4464, 12, 0xCBF_29CE_4842_2234);
    XorStep(0x32FC_A739_2108_88C9, 24, 0x197E_539C_9084_4468);
    XorStep(0x65F9_4E72_4211_1192, 48, 0x32FC_A739_2108_88D1);
    XorStep(0xCBF2_9CE4_8422_2325, 97, 0x65F9_4E72_4211_11A2);
  }

  /** The published check values of 64-bit FNV-1a for the empty text and for "a". */
  lemma KnownAnswers()
    ensures Fnv1a([]) == 0xCBF2_9CE4_8422_2325
    ensures Fnv1a([97]) == 0xAF63_DC4C_8601_EC8C
  {
    hide Xor;
    FirstXor();
    assert [97][..0] == [];
    assert Round(0xCBF2_9CE4_8422_2325, 97) == 0xAF63_DC4C_8601_EC8C;
  }

  /** FNV-1a detects every single-byte change: two buffers of equal length that
      differ in exactly one position never share a checksum. */
  lemma {:induction false} DetectsSingleByteChange(x: seq<Byte>, y: seq<Byte>, i: nat)
    requires |x| == |y| && i < |x| && x[i] != y[i]
    requires forall j :: 0 <= j < |x| && j != i ==> x[j] == y[j]
    ensures Fnv1a(x) != Fnv1a(y)
  {
    var n := |x| - 1;
    if i == n {
      assert x[..n] == y[..n];
      if Fnv1a(x) == Fnv1a(y) {
        RoundInjectiveInByte(Fnv1a(x[..n]), x[n], y[n]);
      }
    } else {
      DetectsSingleByteChange(x[..n], y[..n], i);
      if Fnv1a(x) == Fnv1a(y) {
        RoundInjectiveInState(Fnv1a(x[..n]), Fnv1a(y[..n]), x[n]);
      }
    }
  }
}
