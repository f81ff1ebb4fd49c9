/** Bitwise operations on words of any width, and the carry and borrow chains of binary addition and subtraction. */
module Bits {

  function Pow2(n: nat): (p: nat)
    ensures p >= 1
  {
    if n == 0 then 1 else 2 * Pow2(n - 1)
  }

  /** Bit `i` of `x`. */
  function Bit(x: nat, i: nat): (b: nat)
    ensures b < 2
  {
    if i == 0 then x % 2 else Bit(x / 2, i - 1)
  }

  // C's operators on the low `n` bits.

  function And(n: nat, x: nat, y: nat): nat {
    if n == 0 then 0 else (if x % 2 == 1 && y % 2 == 1 then 1 else 0) + 2 * And(n - 1, x / 2, y / 2)
  }

  function Or(n: nat, x: nat, y: nat): nat {
    if n == 0 then 0 else (if x % 2 == 1 || y % 2 == 1 then 1 else 0) + 2 * Or(n - 1, x / 2, y / 2)
  }

  function Not(n: nat, x: nat): nat {
    if n == 0 then 0 else (1 - x % 2) + 2 * Not(n - 1, x / 2)
  }

  lemma {:induction false} AndBit(n: nat, x: nat, y: nat, i: nat)
    requires i < n
    ensures Bit(And(n, x, y), i) == if Bit(x, i) == 1 && Bit(y, i) == 1 then 1 else 0
  {
    if i > 0 {
      AndBit(n - 1, x / 2, y / 2, i - 1);
    }
  }

  lemma {:induction false} OrBit(n: nat, x: nat, y: nat, i: nat)
    requires i < n
    ensures Bit(Or(n, x, y), i) == if Bit(x, i) == 1 || Bit(y, i) == 1 then 1 else 0
  {
    if i > 0 {
      var h := Or(n - 1, x / 2, y / 2);
      assert Or(n, x, y) / 2 == h;
      OrBit(n - 1, x / 2, y / 2, i - 1);
    }
  }

  lemma {:induction false} NotBit(n: nat, x: nat, i: nat)
    requires i < n
    ensures Bit(Not(n, x), i) == 1 - Bit(x, i)
  {
    if i > 0 {
      NotBit(n - 1, x / 2, i - 1);
    }
  }

  /** Bits are quotients: the shift-and-test form of C. */
  lemma {:induction false} BitIs(x: nat, i: nat)
    ensures Bit(x, i) == x / Pow2(i) % 2
  {
    if i > 0 {
      BitIs(x / 2, i - 1);
      DivDiv(x, Pow2(i - 1));
    }
  }

  lemma DivDiv(x: nat, p: nat)
    requires p > 0
    ensures x / 2 / p == x / (2 * p)
  {
    var q, r := x / (2 * p), x % (2 * p);
    assert x == 2 * p * q + r;
    assert x / 2 == p * q + r / 2;
    assert 0 <= r / 2 < p;
    DivUnique(x / 2, p, q, r / 2);
  }

  lemma DivMod(x: int, p: nat)
    requires p > 0
    ensures x == x % p + p * (x / p) && 0 <= x % p < p
  {
  }

  lemma DivUnique(x: int, p: nat, q: int, r: int)
    requires p > 0 && x == p * q + r && 0 <= r < p
    ensures x / p == q && x % p == r
  {
    var d := x / p;
    assert x == p * d + x % p;
    if d < q {
      MulGe(p, q - d);
    } else if d > q {
      MulGe(p, d - q);
    }
  }

  lemma MulGe(p: nat, k: int)
    requires k >= 1
    ensures p * k >= p
  {
  }

  /** The low `n` bits of an integer: C's conversion to an unsigned type. */
  function Mod(x: int, n: nat): nat { x % Pow2(n) }

  /** Reduction modulo 2^n commutes with dropping the lowest bit. */
  lemma ModHalf(s: int, n: nat)
    requires n > 0
    ensures Mod(s, n) % 2 == s % 2 && Mod(s, n) / 2 == Mod(s / 2, n - 1)
  {
    var p := Pow2(n - 1);
    var q, r := s / (2 * p), s % (2 * p);
    assert s == 2 * (p * q) + r;
    assert s / 2 == p * q + r / 2 && 0 <= r / 2 < p;
    DivUnique(s / 2, p, q, r / 2);
  }

  // ---- the carry chain ----

  /** One full adder: the carry out of three bits. */
  function Majority(a: nat, b: nat, c: nat): nat { if a + b + c >= 2 then 1 else 0 }

  /** The carry out of bit `i` when a + b + c is added bit by bit. */
  function Carry(a: nat, b: nat, c: nat, i: nat): (r: nat)
    requires c < 2
    ensures r < 2
  {
    if i == 0 then Majority(a % 2, b % 2, c) else Carry(a / 2, b / 2, Majority(a % 2, b % 2, c), i - 1)
  }

  function CarryIn(a: nat, b: nat, c: nat, i: nat): (r: nat)
    requires c < 2
    ensures r < 2
  {
    if i == 0 then c else Carry(a, b, c, i - 1)
  }

  /** The closed form of prim_ops.c: cc = ab + r'(a + b), from the operands and the result. */
  function CarryChain(n: nat, a: nat, b: nat, r: nat): nat {
    Or(n, And(n, b, a), And(n, Not(n, r), Or(n, b, a)))
  }

  /** Result bit and carry of position `i`, by the full adder. */
  lemma {:induction false} AdderBit(n: nat, a: nat, b: nat, c: nat, i: nat)
    requires c < 2 && i < n
    ensures Bit(Mod(a + b + c, n), i) == (Bit(a, i) + Bit(b, i) + CarryIn(a, b, c, i)) % 2
    ensures Carry(a, b, c, i) == Majority(Bit(a, i), Bit(b, i), CarryIn(a, b, c, i))
    decreases i
  {
    hide Mod;
    var s := a + b + c;
    ModHalf(s, n);
    if i > 0 {
      var m := Majority(a % 2, b % 2, c);
      assert s / 2 == a / 2 + b / 2 + m;
      AdderBit(n - 1, a / 2, b / 2, m, i - 1);
    }
  }

  /** Theorem: bit `i` of the closed form is the carry out of bit `i`, at every width. */
  lemma CarryChainIsCarry(n: nat, a: nat, b: nat, c: nat, i: nat)
    requires c < 2 && i < n
    ensures Bit(CarryChain(n, a, b, Mod(a + b + c, n)), i) == Carry(a, b, c, i)
  {
    hide And, Or, Not, Mod, Bit, Carry, CarryIn, Borrow, BorrowIn;
    var r := Mod(a + b + c, n);
    AdderBit(n, a, b, c, i);
    OrBit(n, And(n, b, a), And(n, Not(n, r), Or(n, b, a)), i);
    AndBit(n, b, a, i);
    AndBit(n, Not(n, r), Or(n, b, a), i);
    NotBit(n, r, i);
    OrBit(n, b, a, i);
  }

  /** The carry out of bit `i` is unsigned overflow of the low i + 1 bits. */
  lemma {:induction false} CarryMeans(a: nat, b: nat, c: nat, i: nat)
    requires c < 2
    ensures Carry(a, b, c, i) == 1 <==> Mod(a, i + 1) + Mod(b, i + 1) + c >= Pow2(i + 1)
    decreases i
  {
    ModHalf(a, i + 1);
    ModHalf(b, i + 1);
    if i > 0 {
      CarryMeans(a / 2, b / 2, Majority(a % 2, b % 2, c), i - 1);
    } else {
      assert Pow2(1) == 2;
    }
  }

  // ---- the borrow chain ----

  /** One full subtractor: the borrow out of a - b - c. */
  function Lends(a: nat, b: nat, c: nat): nat { if a < b + c then 1 else 0 }

  /** The borrow out of bit `i` when a - b - c is subtracted bit by bit. */
  function Borrow(a: nat, b: nat, c: nat, i: nat): (r: nat)
    requires c < 2
    ensures r < 2
  {
    if i == 0 then Lends(a % 2, b % 2, c) else Borrow(a / 2, b / 2, Lends(a % 2, b % 2, c), i - 1)
  }

  function BorrowIn(a: nat, b: nat, c: nat, i: nat): (r: nat)
    requires c < 2
    ensures r < 2
  {
    if i == 0 then c else Borrow(a, b, c, i - 1)
  }

  /** The closed form of prim_ops.c: bc = a'b + r(a' + b). */
  function BorrowChain(n: nat, a: nat, b: nat, r: nat): nat {
    Or(n, And(n, r, Or(n, Not(n, a), b)), And(n, Not(n, a), b))
  }

  lemma {:induction false} SubtractorBit(n: nat, a: nat, b: nat, c: nat, i: nat)
    requires c < 2 && i < n
    ensures Bit(Mod(a - b - c, n), i) == (Bit(a, i) + Bit(b, i) + BorrowIn(a, b, c, i)) % 2
    ensures Borrow(a, b, c, i) == Lends(Bit(a, i), Bit(b, i), BorrowIn(a, b, c, i))
    decreases i
  {
    hide Mod;
    var s := a - b - c;
    ModHalf(s, n);
    if i > 0 {
      var m := Lends(a % 2, b % 2, c);
      assert s / 2 == a / 2 - b / 2 - m;
      SubtractorBit(n - 1, a / 2, b / 2, m, i - 1);
    }
  }

  /** Theorem: bit `i` of the closed form is the borrow out of bit `i`, at every width. */
  lemma BorrowChainIsBorrow(n: nat, a: nat, b: nat, c: nat, i: nat)
    requires c < 2 && i < n
    ensures Bit(BorrowChain(n, a, b, Mod(a - b - c, n)), i) == Borrow(a, b, c, i)
  {
    hide And, Or, Not, Mod, Bit, Carry, CarryIn, Borrow, BorrowIn;
    var r := Mod(a - b - c, n);
    SubtractorBit(n, a, b, c, i);
    OrBit(n, And(n, r, Or(n, Not(n, a), b)), And(n, Not(n, a), b), i);
    AndBit(n, r, Or(n, Not(n, a), b), i);
    AndBit(n, Not(n, a), b, i);
    OrBit(n, Not(n, a), b, i);
    NotBit(n, a, i);
  }

  /** The borrow out of bit `i` is unsigned less-than on the low i + 1 bits. */
  lemma {:induction false} BorrowMeans(a: nat, b: nat, c: nat, i: nat)
    requires c < 2
    ensures Borrow(a, b, c, i) == 1 <==> Mod(a, i + 1) < Mod(b, i + 1) + c
    decreases i
  {
    ModHalf(a, i + 1);
    ModHalf(b, i + 1);
    if i > 0 {
      BorrowMeans(a / 2, b / 2, Lends(a % 2, b % 2, c), i - 1);
    } else {
      assert Pow2(1) == 2;
    }
  }
}
