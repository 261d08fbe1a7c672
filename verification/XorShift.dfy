/** The xorshift generator behind random eviction, on 64-bit words. */
module XorShift {
  import opened Doubles

  /** A 64-bit word as its bits, the least significant first. */
  type Word = w: seq<bool> | |w| == 64 witness seq(64, _ => false)

  const ZERO: Word := seq(64, _ => false)
  const SEED: nat := 0x9e37_79b9_7f4a_7c15
  const MULTIPLIER: nat := 0x2545_f491_4f6c_dd1d

  function Bits(n: nat, width: nat): (bits: seq<bool>)
    ensures |bits| == width
  {
    if width == 0 then [] else [n % 2 == 1] + Bits(n / 2, width - 1)
  }

  function ToNat(bits: seq<bool>): nat {
    if bits == [] then 0 else (if bits[0] then 1 else 0) + 2 * ToNat(bits[1..])
  }

  lemma DoubleModulo(n: nat, p: nat)
    requires p >= 1
    ensures n % (2 * p) == 2 * (n / 2 % p) + n % 2
  {
    var half, q := n / 2, 2 * p;
    var e, r := half / p, half % p;
    assert half == e * p + r;
    Associate(e, 2, p);
    assert e * q == 2 * (e * p);
    EuclidUnique(n / q, n % q, e, 2 * r + n % 2, q);
  }

  /** The bits are the number's binary digits: reading them back gives its residue. */
  lemma {:induction false} BitsAreBinary(n: nat, width: nat)
    ensures ToNat(Bits(n, width)) == n % Pow2(width)
  {
    if width > 0 {
      BitsAreBinary(n / 2, width - 1);
      DoubleModulo(n, Pow2(width - 1));
      assert Bits(n, width)[1..] == Bits(n / 2, width - 1);
    }
  }

  function Xor(a: Word, b: Word): Word {
    seq(64, i requires 0 <= i < 64 => a[i] != b[i])
  }

  function ShiftRight(w: Word, n: nat): Word {
    seq(64, i requires 0 <= i < 64 => i + n < 64 && w[i + n])
  }

  function ShiftLeft(w: Word, n: nat): Word {
    seq(64, i requires 0 <= i < 64 => i >= n && w[i - n])
  }

  function NextState(x: Word): Word {
    var a := Xor(x, ShiftRight(x, 12));
    var b := Xor(a, ShiftLeft(a, 25));
    Xor(b, ShiftRight(b, 27))
  }

  /** The number drawn from a state: a wrapping multiplication. */
  function Draw(x: Word): nat {
    ToNat(x) * MULTIPLIER % TWO_64
  }

  // ----- one step undone, bit by bit -----

  function UndoRightBit(y: Word, n: nat, i: nat): bool
    requires n > 0 && i < 64
    decreases 64 - i
  {
    y[i] != (i + n < 64 && UndoRightBit(y, n, i + n))
  }

  function UndoLeftBit(y: Word, n: nat, i: nat): bool
    requires n > 0 && i < 64
  {
    y[i] != (i >= n && UndoLeftBit(y, n, i - n))
  }

  function UndoRight(y: Word, n: nat): Word
    requires n > 0
  {
    seq(64, i requires 0 <= i < 64 => UndoRightBit(y, n, i))
  }

  function UndoLeft(y: Word, n: nat): Word
    requires n > 0
  {
    seq(64, i requires 0 <= i < 64 => UndoLeftBit(y, n, i))
  }

  function PreviousState(y: Word): Word {
    UndoRight(UndoLeft(UndoRight(y, 27), 25), 12)
  }

  lemma {:induction false} RightBitUndone(x: Word, n: nat, i: nat)
    requires n > 0 && i < 64
    ensures UndoRightBit(Xor(x, ShiftRight(x, n)), n, i) == x[i]
    decreases 64 - i
  {
    if i + n < 64 {
      RightBitUndone(x, n, i + n);
    }
  }

  lemma {:induction false} LeftBitUndone(x: Word, n: nat, i: nat)
    requires n > 0 && i < 64
    ensures UndoLeftBit(Xor(x, ShiftLeft(x, n)), n, i) == x[i]
  {
    if i >= n {
      LeftBitUndone(x, n, i - n);
    }
  }

  /** A xor with the own right shift is undone by UndoRight, and undoes it. */
  lemma RightInverts(x: Word, n: nat)
    requires n > 0
    ensures UndoRight(Xor(x, ShiftRight(x, n)), n) == x
    ensures var u := UndoRight(x, n); Xor(u, ShiftRight(u, n)) == x
  {
    forall i | 0 <= i < 64 ensures UndoRightBit(Xor(x, ShiftRight(x, n)), n, i) == x[i] {
      RightBitUndone(x, n, i);
    }
  }

  lemma LeftInverts(x: Word, n: nat)
    requires n > 0
    ensures UndoLeft(Xor(x, ShiftLeft(x, n)), n) == x
    ensures var u := UndoLeft(x, n); Xor(u, ShiftLeft(u, n)) == x
  {
    forall i | 0 <= i < 64 ensures UndoLeftBit(Xor(x, ShiftLeft(x, n)), n, i) == x[i] {
      LeftBitUndone(x, n, i);
    }
  }

  /** The generator's step is a bijection on 64-bit words. */
  lemma NextStateIsBijective(x: Word)
    ensures PreviousState(NextState(x)) == x
    ensures NextState(PreviousState(x)) == x
  {
    var a := Xor(x, ShiftRight(x, 12));
    var b := Xor(a, ShiftLeft(a, 25));
    RightInverts(x, 12);
    LeftInverts(a, 25);
    RightInverts(b, 27);
    var c := UndoRight(x, 27);
    var d := UndoLeft(c, 25);
    RightInverts(x, 27);
    LeftInverts(c, 25);
    RightInverts(d, 12);
  }

  /** So only the zero state leads to the zero state. */
  lemma NextStateKeepsNonZero(x: Word)
    ensures NextState(x) == ZERO <==> x == ZERO
  {
    NextStateIsBijective(x);
    NextStateIsBijective(ZERO);
    assert Xor(ZERO, ShiftRight(ZERO, 12)) == ZERO;
    assert Xor(ZERO, ShiftLeft(ZERO, 25)) == ZERO;
    assert Xor(ZERO, ShiftRight(ZERO, 27)) == ZERO;
  }

  lemma SeedIsNonZero()
    ensures Bits(SEED, 64) != ZERO
  {
    assert Bits(SEED, 64)[0];
  }
}
