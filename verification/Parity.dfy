/** PARITY(x) of x86emu_int.h, from the table at the top of prim_ops.c. */
module Parity {
  import opened Words
  import opened Bits

  /** x86emu_parity_tab: eight words of 32 bits each. */
  function ParityTab(k: nat): u32
    requires k < 8
  {
    if k == 0 || k == 3 || k == 5 || k == 6 then 0x96696996 else 0x69969669
  }

  /** `((x86emu_parity_tab[x / 32] >> (x % 32)) & 1) == 0` */
  predicate EvenParity(x: u8) { ParityTab(x / 32) / Pow2(x % 32) % 2 == 0 }

  /** The number of one bits among the low `n`. */
  function Ones(n: nat, x: nat): nat { if n == 0 then 0 else x % 2 + Ones(n - 1, x / 2) }

  /** The word of 2^n bits whose bit `j` is the parity of `j`: each half is the complement of the other. */
  function Row(n: nat): nat {
    if n == 0 then 0
    else var p := Pow2(Pow2(n - 1)); Row(n - 1) + p * Flip(p, Row(n - 1))
  }

  function Flip(p: nat, x: nat): nat { if x < p then p - 1 - x else 0 }

  lemma FlipRange(p: nat, x: nat)
    requires p > 0
    ensures Flip(p, x) <= p - 1
  {
  }

  lemma {:induction false} BitLow(p: nat, lo: nat, hi: nat, j: nat)
    requires j < p && lo < Pow2(p)
    ensures Bit(lo + Pow2(p) * hi, j) == Bit(lo, j)
  {
    Halves(p, lo, hi);
    if j > 0 {
      BitLow(p - 1, lo / 2, hi, j - 1);
    }
  }

  lemma {:induction false} BitHigh(p: nat, lo: nat, hi: nat, j: nat)
    requires lo < Pow2(p)
    ensures Bit(lo + Pow2(p) * hi, p + j) == Bit(hi, j)
  {
    if p == 0 {
      assert Pow2(0) == 1;
    } else {
      Halves(p, lo, hi);
      BitHigh(p - 1, lo / 2, hi, j);
    }
  }

  lemma Halves(p: nat, lo: nat, hi: nat)
    requires p > 0 && lo < Pow2(p)
    ensures lo / 2 < Pow2(p - 1)
    ensures (lo + Pow2(p) * hi) / 2 == lo / 2 + Pow2(p - 1) * hi && (lo + Pow2(p) * hi) % 2 == lo % 2
  {
    var q := Pow2(p - 1) * hi;
    assert Pow2(p) * hi == 2 * q;
  }

  lemma {:induction false} BitFlip(p: nat, x: nat, j: nat)
    requires j < p && x < Pow2(p)
    ensures Bit(Flip(Pow2(p), x), j) == 1 - Bit(x, j)
  {
    if j > 0 {
      assert Flip(Pow2(p), x) / 2 == Flip(Pow2(p - 1), x / 2);
      BitFlip(p - 1, x / 2, j - 1);
    }
  }

  lemma Square(p: nat, lo: nat, hi: nat)
    requires lo < p && hi < p
    ensures lo + p * hi < p * p
  {
    MulLe(p, hi, p - 1);
    assert p * (p - 1) + p == p * p;
  }

  lemma {:induction false} RowRange(n: nat)
    ensures Row(n) < Pow2(Pow2(n))
  {
    hide Row, Flip, Pow2;
    RowNone();
    if n > 0 {
      RowRange(n - 1);
      RowIs(n);
      var k := Pow2(n - 1);
      Pow2Add(k, k);
      FlipRange(Pow2(k), Row(n - 1));
      Square(Pow2(k), Row(n - 1), Flip(Pow2(k), Row(n - 1)));
    }
  }

  lemma MulLe(p: nat, x: nat, y: int)
    requires x <= y
    ensures p * x <= p * y
  {
  }

  lemma {:induction false} Pow2Add(m: nat, n: nat)
    ensures Pow2(m + n) == Pow2(m) * Pow2(n)
  {
    PowersNext(m, n);
    hide Pow2;
    if m > 0 {
      Pow2Add(m - 1, n);
      Twice(Pow2(m - 1), Pow2(n));
    }
  }

  lemma PowersNext(m: nat, n: nat)
    ensures Pow2(0) == 1 && (m > 0 ==> Pow2(m) == 2 * Pow2(m - 1) && Pow2(m + n) == 2 * Pow2(m - 1 + n))
  {
  }

  lemma Twice(a: nat, b: nat)
    ensures 2 * (a * b) == (2 * a) * b
  {
  }

  lemma {:induction false} OnesTop(n: nat, j: nat)
    requires j < Pow2(n)
    ensures Ones(n + 1, j) == Ones(n, j) && Ones(n + 1, j + Pow2(n)) == Ones(n, j) + 1
  {
    if n > 0 {
      assert (j + Pow2(n)) / 2 == j / 2 + Pow2(n - 1) && (j + Pow2(n)) % 2 == j % 2;
      OnesTop(n - 1, j / 2);
    } else {
      assert j == 0 && Ones(1, 1) == 1;
    }
  }

  lemma RowIs(n: nat)
    requires n > 0
    ensures Pow2(n) == 2 * Pow2(n - 1)
    ensures var p := Pow2(Pow2(n - 1)); Row(n) == Row(n - 1) + p * Flip(p, Row(n - 1))
  {
  }

  lemma RowBitLow(n: nat, j: nat)
    requires n > 0 && j < Pow2(n - 1) && Bit(Row(n - 1), j) == Ones(n - 1, j) % 2
    ensures Bit(Row(n), j) == Ones(n, j) % 2
  {
    hide Bit, Flip, Ones, Row, Pow2;
    RowIs(n);
    var k, x := Pow2(n - 1), Row(n - 1);
    RowRange(n - 1);
    OnesTop(n - 1, j);
    BitLow(k, x, Flip(Pow2(k), x), j);
  }

  lemma RowBitHigh(n: nat, i: nat)
    requires n > 0 && i < Pow2(n - 1) && Bit(Row(n - 1), i) == Ones(n - 1, i) % 2
    ensures Bit(Row(n), i + Pow2(n - 1)) == Ones(n, i + Pow2(n - 1)) % 2
  {
    hide Bit, Flip, Ones, Row, Pow2;
    RowIs(n);
    var k, x := Pow2(n - 1), Row(n - 1);
    RowRange(n - 1);
    OnesTop(n - 1, i);
    BitHigh(k, x, Flip(Pow2(k), x), i);
    BitFlip(k, x, i);
  }

  lemma RowNone()
    ensures Pow2(0) == 1 && Row(0) == 0 < Pow2(1) && Bit(Row(0), 0) == Ones(0, 0) % 2
  {
  }

  /** Bit `j` of the row is the parity of `j`. */
  lemma {:induction false} RowBit(n: nat, j: nat)
    requires j < Pow2(n)
    ensures Bit(Row(n), j) == Ones(n, j) % 2
    decreases n
  {
    hide Bit, Row, Ones;
    RowNone();
    if n > 0 {
      var k := Pow2(n - 1);
      if j < k {
        RowBit(n - 1, j);
        RowBitLow(n, j);
      } else {
        RowBit(n - 1, j - k);
        RowBitHigh(n, j - k);
      }
    }
  }

  lemma TableWords()
    ensures Row(5) == 0x96696996 && Flip(Pow2(32), Row(5)) == 0x69969669 && Pow2(5) == 32
  {
    assert Pow2(1) == 2 && Pow2(2) == 4 && Pow2(3) == 8 && Pow2(4) == 16;
    assert Pow2(8) == 0x100 by { Pow2Add(4, 4); }
    assert Pow2(16) == 0x1_0000 by { Pow2Add(8, 8); }
    assert Pow2(32) == 0x1_0000_0000 by { Pow2Add(16, 16); }
    assert Row(1) == 2 && Row(2) == 6;
    assert Row(3) == 0x96;
    assert Row(4) == 0x6996;
  }

  lemma {:induction false} OnesConcat(m: nat, n: nat, lo: nat, hi: nat)
    requires lo < Pow2(m)
    ensures Ones(m + n, lo + Pow2(m) * hi) == Ones(m, lo) + Ones(n, hi)
  {
    if m == 0 {
      assert Pow2(0) == 1;
    } else {
      Halves(m, lo, hi);
      OnesConcat(m - 1, n, lo / 2, hi);
    }
  }

  lemma SmallOnes()
    ensures Ones(3, 0) == 0 && Ones(3, 1) == 1 && Ones(3, 2) == 1 && Ones(3, 3) == 2
    ensures Ones(3, 4) == 1 && Ones(3, 5) == 2 && Ones(3, 6) == 2 && Ones(3, 7) == 3
  {
  }

  /** The table lookup is the parity of the number of ones. */
  lemma EvenParityIs(x: u8)
    ensures EvenParity(x) <==> Ones(8, x) % 2 == 0
  {
    hide Bit, Pow2, Row, Flip, Ones;
    var j, k := x % 32, x / 32;
    TableWords();
    RowBit(5, j);
    RowRange(5);
    BitFlip(32, Row(5), j);
    BitIs(Row(5), j);
    BitIs(Flip(Pow2(32), Row(5)), j);
    OnesConcat(5, 3, j, k);
    SmallOnes();
  }
}
