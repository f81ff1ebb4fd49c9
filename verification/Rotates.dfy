/**
Rotates (prim_ops.c). The code splits a rotate by `s` into shifted pieces; the reference is `s` rotates by one bit:
of the operand for rol and ror, of CF and the operand taken together for rcl and rcr.
*/
module Rotates {
  import opened Words
  import opened Bits
  import opened Parity
  import opened Machine
  import opened Arithmetic

  // ---- one bit at a time, at any width ----

  function RotL1(n: nat, x: nat): nat
    requires n > 0
  {
    if 2 * x >= Pow2(n) then 2 * x - Pow2(n) + 1 else 2 * x
  }

  function RotR1(n: nat, x: nat): nat
    requires n > 0
  {
    x / 2 + (if x % 2 == 1 then Pow2(n - 1) else 0)
  }

  function RotL(n: nat, x: nat, s: nat): nat
    requires n > 0
  {
    if s == 0 then x else RotL1(n, RotL(n, x, s - 1))
  }

  function RotR(n: nat, x: nat, s: nat): nat
    requires n > 0
    decreases s
  {
    if s == 0 then x else RotR(n, RotR1(n, x), s - 1)
  }

  lemma {:induction false} RotLAdd(n: nat, x: nat, s: nat, t: nat)
    requires n > 0
    ensures RotL(n, RotL(n, x, s), t) == RotL(n, x, s + t)
  {
    hide RotL1;
    if t > 0 {
      RotLAdd(n, x, s, t - 1);
    }
  }

  lemma {:induction false} RotRAdd(n: nat, x: nat, s: nat, t: nat)
    requires n > 0
    ensures RotR(n, RotR(n, x, s), t) == RotR(n, x, s + t)
    decreases s
  {
    hide RotR1;
    if s > 0 {
      RotRAdd(n, RotR1(n, x), s - 1, t);
    }
  }

  lemma {:induction false} RotLRange(n: nat, x: nat, s: nat)
    requires n > 0 && x < Pow2(n)
    ensures RotL(n, x, s) < Pow2(n)
  {
    if s > 0 {
      RotLRange(n, x, s - 1);
      assert Pow2(n) == 2 * Pow2(n - 1);
    }
  }

  lemma {:induction false} RotRRange(n: nat, x: nat, s: nat)
    requires n > 0 && x < Pow2(n)
    ensures RotR(n, x, s) < Pow2(n)
    decreases s
  {
    if s > 0 {
      assert Pow2(n) == 2 * Pow2(n - 1);
      RotRRange(n, RotR1(n, x), s - 1);
    }
  }

  /** Theorem: rotating right undoes rotating left, for every width and distance. */
  lemma {:induction false} RotRUndoesRotL(n: nat, x: nat, s: nat)
    requires n > 0 && x < Pow2(n)
    ensures RotR(n, RotL(n, x, s), s) == x
  {
    if s > 0 {
      var y := RotL(n, x, s - 1);
      RotLRange(n, x, s - 1);
      assert Pow2(n) == 2 * Pow2(n - 1);
      assert RotR1(n, RotL1(n, y)) == y;
      RotRUndoesRotL(n, x, s - 1);
    }
  }

  // ---- where the bits go ----

  lemma {:induction false} BitTop(n: nat, x: nat, i: nat)
    requires x < Pow2(n) && i >= n
    ensures Bit(x, i) == 0
    decreases i
  {
    if i == 0 {
      assert Pow2(0) == 1;
    } else if n == 0 {
      BitTop(0, x / 2, i - 1);
    } else {
      BitTop(n - 1, x / 2, i - 1);
    }
  }

  lemma {:induction false} SameBits(n: nat, x: nat, y: nat)
    requires x < Pow2(n) && y < Pow2(n)
    requires forall i: nat :: i < n ==> Bit(x, i) == Bit(y, i)
    ensures x == y
  {
    if n > 0 {
      assert Bit(x, 0) == Bit(y, 0);
      forall i: nat | i < n - 1 ensures Bit(x / 2, i) == Bit(y / 2, i) {
        assert Bit(x, i + 1) == Bit(y, i + 1);
      }
      SameBits(n - 1, x / 2, y / 2);
    }
  }

  lemma RotL1Bit(n: nat, x: nat, i: nat)
    requires 0 < n && x < Pow2(n) && i < n
    ensures Bit(RotL1(n, x), i) == Bit(x, if i == 0 then n - 1 else i - 1)
  {
    var p := Pow2(n - 1);
    var top := if x >= p then 1 else 0;
    var lo := x - p * top;
    BitHigh(n - 1, lo, top, 0);
    assert Bit(top, 0) == top;
    if i > 0 {
      BitLow(n - 1, lo, top, i - 1);
      assert RotL1(n, x) / 2 == lo;
    }
  }

  lemma RotR1Bit(n: nat, x: nat, i: nat)
    requires 0 < n && x < Pow2(n) && i < n
    ensures Bit(RotR1(n, x), i) == Bit(x, if i == n - 1 then 0 else i + 1)
  {
    var p := Pow2(n - 1);
    var b := x % 2;
    assert RotR1(n, x) == x / 2 + p * b;
    assert Bit(b, 0) == b;
    if i == n - 1 {
      BitHigh(n - 1, x / 2, b, 0);
    } else {
      BitLow(n - 1, x / 2, b, i);
    }
  }

  lemma {:induction false} RotLBit(n: nat, x: nat, s: nat, i: nat)
    requires 0 < n && x < Pow2(n) && i < n && s <= n
    ensures Bit(RotL(n, x, s), i) == Bit(x, if i >= s then i - s else i + n - s)
    decreases s
  {
    hide Bit, RotL1;
    if s > 0 {
      RotLRange(n, x, s - 1);
      RotL1Bit(n, RotL(n, x, s - 1), i);
      RotLBit(n, x, s - 1, if i == 0 then n - 1 else i - 1);
    }
  }

  lemma {:induction false} RotRBit(n: nat, x: nat, s: nat, i: nat)
    requires 0 < n && x < Pow2(n) && i < n && s <= n
    ensures Bit(RotR(n, x, s), i) == Bit(x, if i + s < n then i + s else i + s - n)
    decreases s
  {
    hide Bit;
    if s > 0 {
      RotRRange(n, x, 1);
      assert RotR(n, x, 1) == RotR1(n, x);
      hide RotR1;
      RotRBit(n, RotR1(n, x), s - 1, i);
      RotR1Bit(n, x, if i + s - 1 < n then i + s - 1 else i + s - 1 - n);
    }
  }

  /** A full turn is no turn, so only s mod n matters. */
  lemma {:induction false} RotPeriod(n: nat, x: nat, s: nat)
    requires n > 0 && x < Pow2(n)
    ensures RotL(n, x, s) == RotL(n, x, s % n) && RotR(n, x, s) == RotR(n, x, s % n)
    decreases s
  {
    hide RotL, RotR;
    if s >= n {
      RotLRange(n, x, n);
      RotRRange(n, x, n);
      forall i: nat | i < n ensures Bit(RotL(n, x, n), i) == Bit(x, i) && Bit(RotR(n, x, n), i) == Bit(x, i) {
        RotLBit(n, x, n, i);
        RotRBit(n, x, n, i);
      }
      SameBits(n, RotL(n, x, n), x);
      SameBits(n, RotR(n, x, n), x);
      RotLAdd(n, x, n, s - n);
      RotRAdd(n, x, n, s - n);
      RotPeriod(n, x, s - n);
      DivUnique(s, n, (s - n) / n + 1, (s - n) % n);
    } else {
      DivUnique(s, n, 0, s);
    }
  }

  // ---- C's shifts and masks on 32-bit values, bit by bit ----

  function Shl(x: u32, k: nat): u32 { U32(x * Pow2(k)) }

  function Shr(x: u32, k: nat): (r: u32)
    ensures r <= x
  {
    ShrFits(x, k);
    x / Pow2(k)
  }

  lemma ShrFits(x: nat, k: nat)
    ensures 0 <= x / Pow2(k) <= x
  {
    hide Pow2;
    var q := x / Pow2(k);
    DivMod(x, Pow2(k));
    if q > 0 {
      MulGe(q, Pow2(k));
    }
  }

  lemma ShrBit(x: u32, k: nat, i: nat)
    ensures Bit(Shr(x, k), i) == Bit(x, i + k)
  {
    hide Pow2;
    var q, r := Shr(x, k), x % Pow2(k);
    DivMod(x, Pow2(k));
    BitHigh(k, r, q, i);
  }

  lemma ModBit(n: nat, x: nat, i: nat)
    ensures Bit(x % Pow2(n), i) == if i < n then Bit(x, i) else 0
  {
    hide Pow2;
    var q, r := x / Pow2(n), x % Pow2(n);
    DivMod(x, Pow2(n));
    if i < n {
      BitLow(n, r, q, i);
    } else {
      BitTop(n, r, i);
    }
  }

  lemma ScaleBit(x: nat, k: nat, i: nat)
    ensures Bit(x * Pow2(k), i) == if i < k then 0 else Bit(x, i - k)
  {
    assert x * Pow2(k) == 0 + Pow2(k) * x;
    if i < k {
      BitLow(k, 0, x, i);
      BitTop(0, 0, i);
    } else {
      BitHigh(k, 0, x, i - k);
    }
  }

  lemma ShlBit(x: u32, k: nat, i: nat)
    requires i < 32
    ensures Bit(Shl(x, k), i) == if i < k then 0 else Bit(x, i - k)
  {
    hide Bit, Pow2;
    SpanIs(32);
    ScaleBit(x, k, i);
    ModBit(32, x * Pow2(k), i);
  }

  lemma {:induction false} MaskBit(k: nat, i: nat)
    ensures Bit(Pow2(k) - 1, i) == if i < k then 1 else 0
    decreases i
  {
    var m := Pow2(k) - 1;
    if k == 0 {
      BitTop(0, 0, i);
    } else {
      var h := Pow2(k - 1) - 1;
      assert m == 2 * h + 1 && m / 2 == h && m % 2 == 1;
      if i > 0 {
        assert Bit(m, i) == Bit(h, i - 1);
        MaskBit(k - 1, i - 1);
      }
    }
  }

  lemma PowBit(k: nat, i: nat)
    ensures Bit(Pow2(k), i) == if i == k then 1 else 0
  {
    ScaleBit(1, k, i);
    if i > k {
      BitTop(1, 1, i - k);
    }
  }

  lemma {:induction false} AndZero(n: nat, x: nat)
    ensures And(n, x, 0) == 0
  {
    if n > 0 {
      AndZero(n - 1, x / 2);
    }
  }

  lemma {:induction false} OrRange(n: nat, x: nat, y: nat)
    ensures Or(n, x, y) < Pow2(n)
  {
    if n > 0 {
      OrRange(n - 1, x / 2, y / 2);
    }
  }

  lemma {:induction false} AndRange(n: nat, x: nat, y: nat)
    ensures And(n, x, y) < Pow2(n)
  {
    if n > 0 {
      AndRange(n - 1, x / 2, y / 2);
    }
  }

  /** XOR2 of a carry and the bit that `& 2` selects. */
  lemma XorCarry(c: nat, x: nat)
    requires c < 2
    ensures Xor2(c + And(32, x, 2), 0) <==> c != Bit(x, 1)
  {
    AndZero(30, x / 2 / 2);
    assert And(31, x / 2, 1) == x / 2 % 2;
    assert And(32, x, 2) == 2 * And(31, x / 2, 1);
    assert Bit(x, 1) == Bit(x / 2, 0);
    var b, v := Bit(x, 1), c + And(32, x, 2);
    assert v % 2 == c && v / 2 == b;
    assert Bit(v, 0) == c && Bit(v, 1) == Bit(b, 0) && Bit(b, 0) == b;
  }

  /** A shift whose distance C leaves undefined yields anything. */
  method ShiftRight(x: u32, k: nat) returns (r: u32)
    ensures k < 32 ==> r == Shr(x, k)
  {
    if k < 32 {
      r := Shr(x, k);
    } else {
      r := *;
    }
  }

  method ShiftLeft(x: u32, k: nat) returns (r: u32)
    ensures k < 32 ==> r == U32(Shl(x, k))
  {
    if k < 32 {
      r := U32(Shl(x, k));
    } else {
      r := *;
    }
  }

  // ---- rotate through carry ----

  /** The rotate distance that matters, and C's conversion back to the operand's type. */
  function Turns(w: Bitness, s: nat): nat { s % (w + 1) }

  function Trunc(w: Bitness, x: nat): (r: u32)
    ensures r < Span(w)
  {
    x % Span(w)
  }

  lemma TurnsRange(w: Bitness, s: nat)
    ensures Turns(w, s) <= w && (w == 32 ==> Turns(w, s) == s % 33)
  {
  }

  function LowBit(x: nat): (b: nat)
    ensures b < 2
  {
    x % 2
  }

  /** CF in front of the operand: the w + 1 bits that rcl and rcr turn. */
  function Through(w: Bitness, d: nat, cf: bool): nat { d + (if cf then Span(w) else 0) }

  lemma ThroughBit(w: Bitness, d: nat, cf: bool, i: nat)
    requires d < Span(w) && i <= w
    ensures Through(w, d, cf) < Pow2(w + 1)
    ensures Bit(Through(w, d, cf), i) == if i < w then Bit(d, i) else if cf then 1 else 0
  {
    SpanIs(w);
    var c := if cf then 1 else 0;
    assert Through(w, d, cf) == d + Pow2(w) * c;
    if i < w {
      BitLow(w, d, c, i);
    } else {
      assert Bit(c, 0) == c;
      BitHigh(w, d, c, 0);
    }
  }

  /** A result and a carry that have the bits of `y`. */
  lemma FromBits(w: Bitness, out: nat, y: nat)
    requires y < Pow2(w + 1)
    requires forall i: nat :: i < w ==> Bit(out, i) == Bit(y, i)
    ensures Trunc(w, out) == Trunc(w, y)
    ensures Bit(y, w) == 1 <==> y >= Span(w)
    ensures Bit(out, w - 1) == 1 <==> Signed(w, Trunc(w, y)) < 0
  {
    SpanIs(w);
    forall i: nat | i < w ensures Bit(out % Pow2(w), i) == Bit(y % Pow2(w), i) {
      ModBit(w, out, i);
      ModBit(w, y, i);
    }
    SameBits(w, out % Pow2(w), y % Pow2(w));
    CarryOut(w, y);
    SignBit(w, out);
  }

  function RclFlags(f: Flags, w: Bitness, d: nat, s: nat): Flags {
    f.(cf := RotL(w + 1, Through(w, d, f.cf), s) >= Span(w), of := RclOf(f, w, d, s))
  }

  /** OF keeps its value on a full turn; otherwise it is set only by a turn of one that changes the sign. */
  function RclOf(f: Flags, w: Bitness, d: nat, s: nat): bool {
    var n := Turns(w, s);
    var y := RotL(w + 1, Through(w, d, f.cf), s);
    if n == 0 then f.of else n == 1 && (y >= Span(w)) != (Signed(w, Trunc(w, y)) < 0)
  }

  /** The pieces of rcl: what moved up, what came round, and the old CF between them. */
  lemma RclBit(w: Bitness, d: u32, cf: bool, cnt: nat, down: u32, i: nat)
    requires d < Span(w) && 0 < cnt <= w && cnt < 32 && i < w
    requires w + 1 - cnt < 32 ==> down == Shr(d, w + 1 - cnt)
    ensures
      var res := Or(32, And(32, Shl(d, cnt), Span(w) - 1), And(32, down, Pow2(cnt - 1) - 1));
      var out := if cf then Or(32, res, Pow2(cnt - 1)) else res;
      Bit(out, i) == Bit(RotL(w + 1, Through(w, d, cf), cnt), i)
  {
    hide Bit, And, Or, Shl, Shr, RotL, Through, Pow2;
    var up, mask := And(32, Shl(d, cnt), Span(w) - 1), Pow2(cnt - 1) - 1;
    var low := And(32, down, mask);
    SpanIs(w);
    AndBit(32, Shl(d, cnt), Span(w) - 1, i);
    ShlBit(d, cnt, i);
    MaskBit(w, i);
    AndBit(32, down, mask, i);
    MaskBit(cnt - 1, i);
    if w + 1 - cnt < 32 {
      ShrBit(d, w + 1 - cnt, i);
    }
    OrBit(32, up, low, i);
    OrBit(32, Or(32, up, low), Pow2(cnt - 1), i);
    PowBit(cnt - 1, i);
    var j := if i >= cnt then i - cnt else i + w + 1 - cnt;
    ThroughBit(w, d, cf, j);
    RotLBit(w + 1, Through(w, d, cf), cnt, i);
  }

  lemma RclCarry(w: Bitness, d: u32, cf: bool, cnt: nat)
    requires d < Span(w) && 0 < cnt <= w
    ensures LowBit(Shr(d, w - cnt)) == Bit(RotL(w + 1, Through(w, d, cf), cnt), w)
    ensures RotL(w + 1, Through(w, d, cf), cnt) < Pow2(w + 1)
  {
    assert Bit(Shr(d, w - cnt), 0) == LowBit(Shr(d, w - cnt));
    hide Bit, Shr, RotL, Through, Pow2;
    ShrBit(d, w - cnt, 0);
    ThroughBit(w, d, cf, w - cnt);
    RotLBit(w + 1, Through(w, d, cf), cnt, w);
    RotLRange(w + 1, Through(w, d, cf), cnt);
  }

  /** The result register of rcl, as the code assembles it. */
  function RclOut(w: Bitness, d: u32, cf: bool, cnt: nat, down: u32): nat
    requires 0 < cnt
  {
    var res := Or(32, And(32, Shl(d, cnt), Span(w) - 1), And(32, down, Pow2(cnt - 1) - 1));
    if cf then Or(32, res, Pow2(cnt - 1)) else res
  }

  lemma RclOutRange(w: Bitness, d: u32, cf: bool, cnt: nat, down: u32)
    requires 0 < cnt
    ensures Or(32, And(32, Shl(d, cnt), Span(w) - 1), And(32, down, Pow2(cnt - 1) - 1)) < 0x1_0000_0000
    ensures RclOut(w, d, cf, cnt, down) < 0x1_0000_0000
  {
    hide And, Or, Shl, Pow2;
    var res := Or(32, And(32, Shl(d, cnt), Span(w) - 1), And(32, down, Pow2(cnt - 1) - 1));
    SpanIs(32);
    OrRange(32, And(32, Shl(d, cnt), Span(w) - 1), And(32, down, Pow2(cnt - 1) - 1));
    OrRange(32, res, Pow2(cnt - 1));
  }

  /** Value, carry and sign of the pieces put together. */
  lemma RclPieces(w: Bitness, d: u32, cf: bool, cnt: nat, down: u32)
    requires d < Span(w) && 0 < cnt <= w && cnt < 32
    requires w + 1 - cnt < 32 ==> down == Shr(d, w + 1 - cnt)
    ensures var y := RotL(w + 1, Through(w, d, cf), cnt);
      var out := RclOut(w, d, cf, cnt, down);
      && Trunc(w, out) == Trunc(w, y)
      && (Bit(out, w - 1) == 1 <==> Signed(w, Trunc(w, y)) < 0)
      && (LowBit(Shr(d, w - cnt)) == 1 <==> y >= Span(w))
  {
    var y := RotL(w + 1, Through(w, d, cf), cnt);
    var out := RclOut(w, d, cf, cnt, down);
    forall i: nat | i < w ensures Bit(out, i) == Bit(y, i) {
      RclBit(w, d, cf, cnt, down, i);
    }
    hide Bit, And, Or, Shl, Shr, RotL, Through, Pow2, Trunc, LowBit, Signed, RclOut;
    RclCarry(w, d, cf, cnt);
    FromBits(w, out, y);
  }

  /** OF of rcl, from the bits of the assembled result. */
  lemma RclSign(w: Bitness, cf: nat, out: u32, y: nat)
    requires cf < 2 && (Bit(out, w - 1) == 1 <==> Signed(w, Trunc(w, y)) < 0) && (cf == 1 <==> y >= Span(w))
    ensures Xor2(cf + And(32, Shr(out, w - 2), 2), 0) <==> (y >= Span(w)) != (Signed(w, Trunc(w, y)) < 0)
  {
    hide Bit, And, Shr, Xor2, Trunc, Signed, Span;
    XorCarry(cf, Shr(out, w - 2));
    ShrBit(out, w - 2, 1);
  }

  /** rcl's new CF and result, before any flag is touched. */
  method RclParts(w: Bitness, d: u32, carry: bool, cnt: nat) returns (cf: nat, res: u32)
    requires d < Span(w) && 0 < cnt <= w && cnt < 32
    ensures var y := RotL(w + 1, Through(w, d, carry), cnt);
      && cf < 2 && (cf == 1 <==> y >= Span(w)) && Trunc(w, res) == Trunc(w, y)
      && (Xor2(cf + And(32, Shr(res, w - 2), 2), 0) <==> (y >= Span(w)) != (Signed(w, Trunc(w, y)) < 0))
  {
    hide Bit, And, Or, Shl, Shr, RotL, Through, Pow2, Xor2, Trunc, LowBit, Signed, Span;
    cf := LowBit(Shr(d, w - cnt));
    var down := ShiftRight(d, w + 1 - cnt);
    RclOutRange(w, d, carry, cnt, down);
    var mask := Pow2(cnt - 1) - 1;
    AndRange(32, Shl(d, cnt), Span(w) - 1);
    SpanIs(32);
    res := And(32, Shl(d, cnt), Span(w) - 1);
    res := Or(32, res, And(32, down, mask));
    if carry {
      res := Or(32, res, Pow2(cnt - 1));
    }
    hide RclOut;
    RclPieces(w, d, carry, cnt, down);
    RclSign(w, cf, res, RotL(w + 1, Through(w, d, carry), cnt));
  }

  // rcr is the same with the pieces mirrored.

  function RcrFlags(f: Flags, w: Bitness, d: nat, s: nat): Flags {
    var n := Turns(w, s);
    f.(cf := RotR(w + 1, Through(w, d, f.cf), s) >= Span(w),
    of := if n == 1 then f.cf != (Signed(w, d) < 0) else f.of)
  }

  function RcrOut(w: Bitness, d: u32, cf: bool, cnt: nat): nat
    requires cnt <= w
  {
    var down := And(32, Shr(d, cnt), Pow2(w - cnt) - 1);
    var res := if w == 32 && cnt == 1 then down else Or(32, down, Shl(d, w + 1 - cnt));
    if cf then Or(32, res, Pow2(w - cnt)) else res
  }

  lemma RcrOutRange(w: Bitness, d: u32, cf: bool, cnt: nat)
    requires cnt <= w
    ensures And(32, Shr(d, cnt), Pow2(w - cnt) - 1) < 0x1_0000_0000
    ensures Or(32, And(32, Shr(d, cnt), Pow2(w - cnt) - 1), Shl(d, w + 1 - cnt)) < 0x1_0000_0000
    ensures RcrOut(w, d, cf, cnt) < 0x1_0000_0000
  {
    hide And, Or, Shl, Shr, Pow2;
    var down := And(32, Shr(d, cnt), Pow2(w - cnt) - 1);
    SpanIs(32);
    AndRange(32, Shr(d, cnt), Pow2(w - cnt) - 1);
    OrRange(32, down, Shl(d, w + 1 - cnt));
    OrRange(32, down, Pow2(w - cnt));
    OrRange(32, Or(32, down, Shl(d, w + 1 - cnt)), Pow2(w - cnt));
  }

  lemma RcrBit(w: Bitness, d: u32, cf: bool, cnt: nat, i: nat)
    requires d < Span(w) && 0 < cnt <= w && i < w
    ensures Bit(RcrOut(w, d, cf, cnt), i) == Bit(RotR(w + 1, Through(w, d, cf), cnt), i)
  {
    hide Bit, And, Or, Shl, Shr, RotR, Through, Pow2;
    var down, up := And(32, Shr(d, cnt), Pow2(w - cnt) - 1), Shl(d, w + 1 - cnt);
    AndBit(32, Shr(d, cnt), Pow2(w - cnt) - 1, i);
    ShrBit(d, cnt, i);
    MaskBit(w - cnt, i);
    ShlBit(d, w + 1 - cnt, i);
    OrBit(32, down, up, i);
    PowBit(w - cnt, i);
    OrBit(32, down, Pow2(w - cnt), i);
    OrBit(32, Or(32, down, up), Pow2(w - cnt), i);
    var j := if i + cnt <= w then i + cnt else i + cnt - w - 1;
    ThroughBit(w, d, cf, j);
    RotRBit(w + 1, Through(w, d, cf), cnt, i);
  }

  lemma RcrCarry(w: Bitness, d: u32, cf: bool, cnt: nat)
    requires d < Span(w) && 0 < cnt <= w
    ensures LowBit(Shr(d, cnt - 1)) == Bit(RotR(w + 1, Through(w, d, cf), cnt), w)
    ensures RotR(w + 1, Through(w, d, cf), cnt) < Pow2(w + 1) && Shr(d, 0) == d
  {
    assert Bit(Shr(d, cnt - 1), 0) == LowBit(Shr(d, cnt - 1)) && Pow2(0) == 1;
    assert Shr(d, 0) == d;
    hide Bit, Shr, RotR, Through, Pow2, LowBit;
    ShrBit(d, cnt - 1, 0);
    ThroughBit(w, d, cf, cnt - 1);
    RotRBit(w + 1, Through(w, d, cf), cnt, w);
    RotRRange(w + 1, Through(w, d, cf), cnt);
  }

  lemma RcrPieces(w: Bitness, d: u32, cf: bool, cnt: nat)
    requires d < Span(w) && 0 < cnt <= w
    ensures var y := RotR(w + 1, Through(w, d, cf), cnt);
      Trunc(w, RcrOut(w, d, cf, cnt)) == Trunc(w, y) && (LowBit(Shr(d, cnt - 1)) == 1 <==> y >= Span(w))
  {
    var y := RotR(w + 1, Through(w, d, cf), cnt);
    var out := RcrOut(w, d, cf, cnt);
    forall i: nat | i < w ensures Bit(out, i) == Bit(y, i) {
      RcrBit(w, d, cf, cnt, i);
    }
    hide Bit, And, Or, Shl, Shr, RotR, Through, Pow2, Trunc, LowBit, Signed, RcrOut;
    RcrCarry(w, d, cf, cnt);
    FromBits(w, out, y);
  }

  lemma RcrMeans(f: Flags, w: Bitness, d: u32, s: nat)
    requires d < Span(w) && 0 < Turns(w, s)
    ensures
      var cnt := Turns(w, s);
      var out := RcrOut(w, d, f.cf, cnt);
      var cf := LowBit(Shr(d, cnt - 1));
      var ocf := if f.cf then 1 else 0;
      && out < 0x1_0000_0000 && Shr(d, 0) == d
      && Trunc(w, out) == Trunc(w, RotR(w + 1, Through(w, d, f.cf), s))
      && RcrFlags(f, w, d, s) ==
           f.(cf := cf == 1, of := if cnt == 1 then Xor2(ocf + And(32, Shr(d, w - 2), 2), 0) else f.of)
  {
    hide Bit, And, Or, Shl, Shr, RotR, RotL, Through, Pow2, Xor2, Trunc, LowBit, Signed, RcrOut, Turns;
    var cnt := Turns(w, s);
    TurnsRange(w, s);
    RcrOutRange(w, d, f.cf, cnt);
    ThroughIs(w, d, f.cf);
    TurnsPeriod(w, Through(w, d, f.cf), s);
    RcrPieces(w, d, f.cf, cnt);
    RcrCarry(w, d, f.cf, cnt);
    XorCarry(if f.cf then 1 else 0, Shr(d, w - 2));
    ShrBit(d, w - 2, 1);
    SignBit(w, d);
    Wrap(d, Span(w));
  }

  lemma ThroughIs(w: Bitness, d: nat, cf: bool)
    requires d < Span(w)
    ensures var x := Through(w, d, cf);
      x < Pow2(w + 1) && Trunc(w, x) == d && (x >= Span(w)) == cf && RotL(w + 1, x, 0) == x && RotR(w + 1, x, 0) == x
  {
    SpanIs(w);
    Wrap(Through(w, d, cf), Span(w));
  }

  lemma TurnsPeriod(w: Bitness, x: nat, s: nat)
    requires x < Pow2(w + 1)
    ensures RotL(w + 1, x, s) == RotL(w + 1, x, Turns(w, s)) && RotR(w + 1, x, s) == RotR(w + 1, x, Turns(w, s))
  {
    RotPeriod(w + 1, x, s);
  }

  // Rotates by a multiple of w + 1 change nothing.

  lemma RclNone(f: Flags, w: Bitness, d: nat, s: nat)
    requires d < Span(w) && Turns(w, s) == 0
    ensures Trunc(w, RotL(w + 1, Through(w, d, f.cf), s)) == d && RclFlags(f, w, d, s) == f
  {
    hide Pow2, RotL, RotR, Trunc, Through, Signed, Span, Turns;
    ThroughIs(w, d, f.cf);
    TurnsPeriod(w, Through(w, d, f.cf), s);
  }

  lemma RcrNone(f: Flags, w: Bitness, d: nat, s: nat)
    requires d < Span(w) && Turns(w, s) == 0
    ensures Trunc(w, RotR(w + 1, Through(w, d, f.cf), s)) == d && RcrFlags(f, w, d, s) == f
  {
    hide Pow2, RotL, RotR, Trunc, Through, Signed, Span, Turns;
    ThroughIs(w, d, f.cf);
    TurnsPeriod(w, Through(w, d, f.cf), s);
  }

  lemma RclTurns(f: Flags, w: Bitness, d: nat, s: nat)
    requires d < Span(w) && Turns(w, s) != 0
    ensures var y := RotL(w + 1, Through(w, d, f.cf), Turns(w, s));
      && RotL(w + 1, Through(w, d, f.cf), s) == y
      && RclFlags(f, w, d, s) ==
           f.(cf := y >= Span(w), of := Turns(w, s) == 1 && (y >= Span(w)) != (Signed(w, Trunc(w, y)) < 0))
  {
    hide RotL, RotR, Through, Pow2, Turns, Trunc, Signed, Span;
    ThroughIs(w, d, f.cf);
    TurnsPeriod(w, Through(w, d, f.cf), s);
  }

  /** Bit `i` of rcl_long by 32, whatever the undefined `d << 32` yields. */
  lemma RclFullBit(d: u32, cf: bool, up: u32, i: nat)
    requires i < 32
    ensures Bit(RclFull(d, cf, up), i) == Bit(Or(32, up, RotL(33, Through(32, d, cf), 32)), i)
  {
    hide Bit, And, Or, Shr, RotL, Through, Pow2;
    var high, low := And(32, up, Span(32) - 1), And(32, Shr(d, 1), Pow2(31) - 1);
    SpanIs(32);
    AndBit(32, up, Span(32) - 1, i);
    MaskBit(32, i);
    AndBit(32, Shr(d, 1), Pow2(31) - 1, i);
    MaskBit(31, i);
    ShrBit(d, 1, i);
    OrBit(32, high, low, i);
    OrBit(32, Or(32, high, low), Pow2(31), i);
    PowBit(31, i);
    ThroughBit(32, d, cf, i + 1);
    RotLBit(33, Through(32, d, cf), 32, i);
    OrBit(32, up, RotL(33, Through(32, d, cf), 32), i);
  }

  /** rcl_long by 32 as the code assembles it, with `up` for its `d << 32`. */
  function RclFull(d: u32, cf: bool, up: u32): nat {
    var res := Or(32, And(32, up, Span(32) - 1), And(32, Shr(d, 1), Pow2(31) - 1));
    if cf then Or(32, res, Pow2(31)) else res
  }

  lemma RclFullRange(d: u32, cf: bool, up: u32)
    ensures Or(32, And(32, up, Span(32) - 1), And(32, Shr(d, 1), Pow2(31) - 1)) < 0x1_0000_0000
    ensures RclFull(d, cf, up) < 0x1_0000_0000
  {
    hide And, Or, Shr, Pow2;
    SpanIs(32);
    var high, low := And(32, up, Span(32) - 1), And(32, Shr(d, 1), Pow2(31) - 1);
    OrRange(32, high, low);
    OrRange(32, Or(32, high, low), Pow2(31));
  }

  lemma RclFullIs(d: u32, cf: bool, up: u32)
    ensures Trunc(32, RclFull(d, cf, up)) == Or(32, up, RotL(33, Through(32, d, cf), 32))
  {
    var y := Or(32, up, RotL(33, Through(32, d, cf), 32));
    forall i: nat | i < 32 ensures Bit(RclFull(d, cf, up), i) == Bit(y, i) {
      RclFullBit(d, cf, up, i);
    }
    hide Bit, And, Or, Shr, RotL, Through, Pow2, RclFull;
    SpanIs(32);
    RclFullRange(d, cf, up);
    OrRange(32, up, RotL(33, Through(32, d, cf), 32));
    SameBits(32, RclFull(d, cf, up), y);
    Wrap(y, Span(32));
  }

  /** rcl_long by 32: the CF is right; the result is mixed with what the undefined shift yields. */
  method RclFullParts(d: u32, carry: bool) returns (cf: nat, res: u32, ghost up: u32)
    requires d < Span(32)
    ensures var y := RotL(33, Through(32, d, carry), 32);
      cf < 2 && (cf == 1 <==> y >= Span(32)) && Trunc(32, res) == Or(32, up, y)
  {
    hide Bit, And, Or, Shr, RotL, Through, Pow2, Trunc, LowBit;
    SpanIs(32);
    RclFullCarry(d, carry);
    cf := LowBit(Shr(d, 0));
    var high := ShiftLeft(d, 32);
    up := high;
    RclFullRange(d, carry, high);
    RclFullIs(d, carry, high);
    res := Or(32, And(32, high, Span(32) - 1), And(32, Shr(d, 1), Pow2(31) - 1));
    if carry {
      res := Or(32, res, Pow2(31));
    }
  }

  lemma RclFullCarry(d: u32, cf: bool)
    requires d < Span(32)
    ensures LowBit(Shr(d, 0)) < 2 && (LowBit(Shr(d, 0)) == 1 <==> RotL(33, Through(32, d, cf), 32) >= Span(32))
  {
    hide Bit, Shr, RotL, Through, Pow2, Trunc, Span, Signed;
    RclCarry(32, d, cf, 32);
    var y := RotL(33, Through(32, d, cf), 32);
    FromBits(32, y, y);
  }

  /**
  The result of rcl. `up` is what C's undefined `d << 32` yields in rcl_long when s mod 33 is 32; there its bits are
  mixed in.
  */
  function RclResult(w: Bitness, d: u32, cf: bool, s: nat, up: u32): nat {
    var y := RotL(w + 1, Through(w, d, cf), s);
    if w == 32 && Turns(w, s) == 32 then Or(32, up, y) else Trunc(w, y)
  }

  lemma RclResultIs(w: Bitness, d: u32, cf: bool, s: nat, up: u32)
    ensures var y := RotL(w + 1, Through(w, d, cf), s);
      RclResult(w, d, cf, s, up) == if w == 32 && Turns(w, s) == 32 then Or(32, up, y) else Trunc(w, y)
  {
  }

  method Rcl(emu: Emu, w: Bitness, d: u32, s: u8) returns (r: u32, ghost up: u32)
    requires d < Span(w)
    modifies emu`f
    ensures r == RclResult(w, d, old(emu.f.cf), s, up) && emu.f == RclFlags(old(emu.f), w, d, s)
  {
    hide *;
    TurnsRange(w, s);
    RclResultIs(w, d, emu.f.cf, s, 0);
    r, up := d, 0;
    var cnt := Turns(w, s);
    if cnt != 0 {
      RclTurns(emu.f, w, d, s);
      var cf, res;
      if cnt < 32 {
        cf, res := RclParts(w, d, emu.f.cf, cnt);
      } else {
        cf, res, up := RclFullParts(d, emu.f.cf);
        RclResultIs(w, d, emu.f.cf, s, up);
      }
      emu.f := emu.f.(cf := cf == 1, of := cnt == 1 && Xor2(cf + And(32, Shr(res, w - 2), 2), 0));
      r := Trunc(w, res);
    } else {
      RclNone(emu.f, w, d, s);
    }
  }

  /** Every bit of `up` is set in `y`. */
  predicate Covers(y: nat, up: nat) { forall i: nat :: i < 32 && Bit(up, i) == 1 ==> Bit(y, i) == 1 }

  /** Joining `up` to `y` changes nothing exactly when `y` has every bit of `up`. */
  lemma OrAbsorbs(up: nat, y: nat)
    requires y < Pow2(32)
    ensures Or(32, up, y) == y <==> Covers(y, up)
  {
    hide Or, Pow2;
    OrRange(32, up, y);
    forall i: nat | i < 32 ensures Bit(Or(32, up, y), i) == if Bit(up, i) == 1 then 1 else Bit(y, i) {
      OrBit(32, up, y, i);
      BitRange(y, i);
    }
    if Covers(y, up) {
      SameBits(32, Or(32, up, y), y);
    }
  }

  /** For the low half of a number. */
  lemma OrKeepsLow(up: u32, y: nat)
    requires y < Pow2(33)
    ensures Or(32, up, y) == Trunc(32, y) <==> Covers(Trunc(32, y), up)
  {
    hide Bit, Or, Pow2, Covers;
    SpanIs(32);
    forall i: nat | i < 32 ensures Bit(Or(32, up, y), i) == Bit(Or(32, up, Trunc(32, y)), i) {
      ModBit(32, y, i);
      OrBit(32, up, y, i);
      OrBit(32, up, Trunc(32, y), i);
    }
    OrRange(32, up, y);
    OrRange(32, up, Trunc(32, y));
    SameBits(32, Or(32, up, y), Or(32, up, Trunc(32, y)));
    OrAbsorbs(up, Trunc(32, y));
  }

  /** Only the word of all ones covers every word. */
  lemma CoversAll(z: u32)
    ensures (forall up: u32 :: Covers(z, up)) <==> z == 0xffff_ffff
  {
    hide Pow2;
    SpanIs(32);
    var ones: u32 := 0xffff_ffff;
    forall i: nat | i < 32 ensures Bit(ones, i) == 1 {
      MaskBit(32, i);
    }
    if Covers(z, ones) {
      forall i: nat | i < 32 ensures Bit(z, i) == Bit(ones, i) {
        BitRange(z, i);
      }
      SameBits(32, z, ones);
    }
    if z == ones {
      forall up: u32 ensures Covers(z, up) {
      }
    }
  }

  /** A full turn less one is one turn back. */
  lemma TurnBack(n: nat, x: nat)
    requires n > 0 && x < Pow2(n)
    ensures RotL(n, x, n - 1) == RotR(n, x, 1) < Pow2(n)
  {
    hide RotL, RotR, Pow2;
    var y := RotL(n, x, n - 1);
    RotLRange(n, x, n - 1);
    RotLAdd(n, x, n - 1, 1);
    RotPeriod(n, x, n);
    RotLAdd(n, x, 0, n);
    RotRUndoesRotL(n, y, 1);
    NoRotate(n, x);
  }

  lemma NoRotate(n: nat, x: nat)
    requires n > 0
    ensures RotL(n, x, 0) == x && RotR(n, x, 1) == RotR1(n, x)
  {
  }

  lemma LastTurn(d: u32, cf: bool)
    ensures var y := RotL(33, Through(32, d, cf), 32);
      y < Pow2(33) && Trunc(32, y) == d / 2 + if cf then 0x8000_0000 else 0
  {
    hide RotL, RotR, Pow2;
    ThroughIs(32, d, cf);
    var x := Through(32, d, cf);
    TurnBack(33, x);
    NoRotate(33, x);
    SpanIs(32);
    Wrap(RotR1(33, x), Span(32));
    assert x / 2 == d / 2 + if cf then 0x8000_0000 else 0;
  }

  /** Joining any word to `y` leaves its low half as it is. */
  predicate Full(y: nat) { forall up: u32 :: Or(32, up, y) == Trunc(32, y) }

  lemma FullMeans(y: nat)
    requires y < Pow2(33)
    ensures Full(y) <==> Trunc(32, y) == 0xffff_ffff
  {
    hide Or, Pow2, Covers, Trunc;
    CoversAll(Trunc(32, y));
    if Full(y) {
      forall up: u32 ensures Covers(Trunc(32, y), up) {
        assert Or(32, up, y) == Trunc(32, y);
        OrKeepsLow(up, y);
      }
    }
    if Trunc(32, y) == 0xffff_ffff {
      forall up: u32 ensures Or(32, up, y) == Trunc(32, y) {
        assert Covers(Trunc(32, y), up);
        OrKeepsLow(up, y);
      }
    }
  }

  /** rcl is the rotate, whatever C's undefined shift yields. */
  predicate RclSure(w: Bitness, d: u32, cf: bool, s: nat) {
    forall up: u32 :: RclResult(w, d, cf, s, up) == Trunc(w, RotL(w + 1, Through(w, d, cf), s))
  }

  lemma RclSureFull(d: u32, cf: bool, s: nat)
    requires s % 33 == 32
    ensures RclSure(32, d, cf, s) <==> Full(RotL(33, Through(32, d, cf), s))
  {
    hide Or, RotL, Through, Trunc, RclResult;
    var y := RotL(33, Through(32, d, cf), s);
    forall up: u32 ensures RclResult(32, d, cf, s, up) == Or(32, up, y) {
      RclResultIs(32, d, cf, s, up);
    }
    if Full(y) {
      forall up: u32 ensures RclResult(32, d, cf, s, up) == Trunc(32, y) {
        assert Or(32, up, y) == Trunc(32, y);
      }
    }
    if RclSure(32, d, cf, s) {
      forall up: u32 ensures Or(32, up, y) == Trunc(32, y) {
        assert RclResult(32, d, cf, s, up) == Trunc(32, y);
      }
    }
  }

  /**
  Theorem: rcl is the rotate whatever C's undefined shift yields, if and only if it is not rcl_long by 32 (mod 33), or
  the right result has all bits set anyway.
  */
  lemma RclIsExact(w: Bitness, d: u32, cf: bool, s: nat)
    requires d < Span(w)
    ensures RclSure(w, d, cf, s) <==> w != 32 || s % 33 != 32 || (cf && d >= 0xffff_fffe)
  {
    hide Or, RotL, RotR, Through, Pow2, Trunc, Full;
    if w == 32 && s % 33 == 32 {
      ThroughIs(w, d, cf);
      TurnsPeriod(w, Through(w, d, cf), s);
      LastTurn(d, cf);
      RclSureFull(d, cf, s);
      FullMeans(RotL(33, Through(32, d, cf), s));
    }
  }

  /** Concretely: rcl of 1 by 32 with CF clear is 0, but comes out wrong when the shift yields 1. */
  lemma RclFullFails()
    ensures Trunc(32, RotL(33, Through(32, 1, false), 32)) == 0
    ensures RclResult(32, 1, false, 32, 1) != 0
  {
    hide Or, RotL, RotR, Through, Pow2, Trunc;
    LastTurn(1, false);
    OrKeepsLow(1, RotL(33, Through(32, 1, false), 32));
    assert Bit(1, 0) == 1 && Bit(0, 0) == 0;
  }

  lemma BitRange(x: nat, i: nat)
    ensures Bit(x, i) < 2
  {
  }

  /** In rcr_long by 32 the undefined `d >> 32` is masked with 0. */
  lemma RcrDown(w: Bitness, d: u32, cnt: nat, down: u32)
    requires 0 < cnt <= w && (cnt < 32 ==> down == Shr(d, cnt))
    ensures And(32, down, Pow2(w - cnt) - 1) == And(32, Shr(d, cnt), Pow2(w - cnt) - 1)
  {
    hide And, Shr;
    if cnt == 32 {
      assert Pow2(w - cnt) == 1;
      AndZero(32, down);
      AndZero(32, Shr(d, cnt));
    }
  }

  lemma ShrNone(d: u32)
    ensures Shr(d, 0) == d
  {
  }

  /** rcr's new CF and result, before any flag is touched. */
  method RcrParts(w: Bitness, d: u32, carry: bool, cnt: nat) returns (cf: nat, res: u32)
    requires d < Span(w) && 0 < cnt <= w
    ensures cf == LowBit(Shr(d, cnt - 1)) && res == RcrOut(w, d, carry, cnt)
  {
    hide And, Or, Shl, Shr, Pow2, LowBit;
    RcrOutRange(w, d, carry, cnt);
    ShrNone(d);
    cf := if cnt == 1 then LowBit(d) else LowBit(Shr(d, cnt - 1));
    var mask := Pow2(w - cnt) - 1;
    var down := ShiftRight(d, cnt);
    RcrDown(w, d, cnt, down);
    res := And(32, down, mask);
    if !(w == 32 && cnt == 1) {
      res := Or(32, res, Shl(d, w + 1 - cnt));
    }
    if carry {
      res := Or(32, res, Pow2(w - cnt));
    }
  }

  method Rcr(emu: Emu, w: Bitness, d: u32, s: u8) returns (r: u32)
    requires d < Span(w)
    modifies emu`f
    ensures r == Trunc(w, RotR(w + 1, Through(w, d, old(emu.f.cf)), s))
    ensures emu.f == RcrFlags(old(emu.f), w, d, s)
  {
    hide *;
    TurnsRange(w, s);
    r := d;
    var cnt := Turns(w, s);
    if cnt != 0 {
      RcrMeans(emu.f, w, d, s);
      var cf, res := RcrParts(w, d, emu.f.cf, cnt);
      var ocf := if cnt == 1 && emu.f.cf then 1 else 0;
      emu.f := emu.f.(cf := cf == 1, of := if cnt == 1 then Xor2(ocf + And(32, Shr(d, w - 2), 2), 0) else emu.f.of);
      r := Trunc(w, res);
    } else {
      RcrNone(emu.f, w, d, s);
    }
  }

  /** The operand and CF taken together after a rotate, in one value. */
  lemma {:induction false} Together(w: Bitness, y: nat)
    requires y < 2 * Span(w)
    ensures Through(w, Trunc(w, y), y >= Span(w)) == y
  {
    Wrap(y, Span(w));
  }

  /** After rcl by s, CF and the operand together are the rotated value. */
  lemma RclTogether(f: Flags, w: Bitness, d: nat, s: nat)
    requires d < Span(w)
    ensures var y := RotL(w + 1, Through(w, d, f.cf), s);
      Through(w, Trunc(w, y), RclFlags(f, w, d, s).cf) == y < Pow2(w + 1)
  {
    hide RotL, Trunc, Through, Pow2, Signed, Turns;
    var y := RotL(w + 1, Through(w, d, f.cf), s);
    assert RclFlags(f, w, d, s).cf == (y >= Span(w));
    hide *;
    ThroughIs(w, d, f.cf);
    RotLRange(w + 1, Through(w, d, f.cf), s);
    Doubles(w);
    Together(w, y);
  }

  lemma RclCf(f: Flags, w: Bitness, d: nat, s: nat)
    ensures RclFlags(f, w, d, s).cf == (RotL(w + 1, Through(w, d, f.cf), s) >= Span(w))
  {
    hide RotL, Trunc, Through, Signed, Turns;
  }

  /** Theorem: rcl by s then by t is rcl by s + t, result and CF. */
  lemma RclAdds(f: Flags, w: Bitness, d: nat, s: nat, t: nat)
    requires d < Span(w)
    ensures var d' := Trunc(w, RotL(w + 1, Through(w, d, f.cf), s));
      var f' := RclFlags(f, w, d, s);
      && Trunc(w, RotL(w + 1, Through(w, d', f'.cf), t)) == Trunc(w, RotL(w + 1, Through(w, d, f.cf), s + t))
      && RclFlags(f', w, d', t).cf == RclFlags(f, w, d, s + t).cf
  {
    hide *;
    var y := RotL(w + 1, Through(w, d, f.cf), s);
    RclTogether(f, w, d, s);
    RclCf(RclFlags(f, w, d, s), w, Trunc(w, y), t);
    RclCf(f, w, d, s + t);
    RotLAdd(w + 1, Through(w, d, f.cf), s, t);
  }

  lemma Doubles(w: Bitness)
    ensures Pow2(w + 1) == 2 * Span(w)
  {
    SpanIs(w);
  }

  /** Theorem: rcr by s undoes rcl by s, result and CF. */
  lemma RcrUndoesRcl(f: Flags, w: Bitness, d: nat, s: nat)
    requires d < Span(w)
    ensures var d' := Trunc(w, RotL(w + 1, Through(w, d, f.cf), s));
      var f' := RclFlags(f, w, d, s);
      && Trunc(w, RotR(w + 1, Through(w, d', f'.cf), s)) == d
      && RcrFlags(f', w, d', s).cf == f.cf
  {
    hide RotL, RotR, Trunc, Through, Signed, Turns, RclFlags, RclOf, Span, Pow2;
    RclTogether(f, w, d, s);
    ThroughIs(w, d, f.cf);
    RotRUndoesRotL(w + 1, Through(w, d, f.cf), s);
  }

  // ---- rol and ror ----

  function RolFlags(f: Flags, w: Bitness, d: nat, s: nat): Flags {
    if s == 0 then f
    else
      var r := RotL(w, d, s);
      f.(cf := LowBit(r) == 1, of := if s == 1 then (LowBit(r) == 1) != (Signed(w, r) < 0) else f.of)
  }

  function RorFlags(f: Flags, w: Bitness, d: nat, s: nat): Flags {
    if s == 0 then f
    else
      var r := RotR(w, d, s);
      f.(cf := Signed(w, r) < 0, of := if s == 1 then Xor2(r, w - 2) else f.of)
  }

  /** Adding pieces that share no bit is or-ing them. */
  lemma {:induction false} PlusIsOr(n: nat, x: nat, y: nat)
    requires x < Pow2(n) && y < Pow2(n)
    requires forall i: nat :: i < n ==> Bit(x, i) == 0 || Bit(y, i) == 0
    ensures x + y == Or(n, x, y)
  {
    if n > 0 {
      assert Bit(x, 0) == 0 || Bit(y, 0) == 0;
      forall i: nat | i < n - 1 ensures Bit(x / 2, i) == 0 || Bit(y / 2, i) == 0 {
        assert Bit(x, i + 1) == 0 || Bit(y, i + 1) == 0;
      }
      PlusIsOr(n - 1, x / 2, y / 2);
    }
  }

  function Offset(w: Bitness, s: nat): nat { s % w }

  /** `d` shifted up by `k` and down by `w - k`, added. */
  function Pieces(w: Bitness, d: u32, k: nat): nat
    requires k <= w
  {
    Shl(d, k) + And(32, Shr(d, w - k), Pow2(k) - 1)
  }

  lemma PiecesBit(w: Bitness, d: u32, k: nat, i: nat)
    requires d < Span(w) && 0 < k < w && i < w
    ensures Pieces(w, d, k) < 0x1_0000_0000
    ensures Bit(Pieces(w, d, k), i) == Bit(d, if i >= k then i - k else i + w - k)
  {
    hide Bit, And, Or, Shl, Shr, Pow2;
    var up, low := Shl(d, k), And(32, Shr(d, w - k), Pow2(k) - 1);
    SpanIs(32);
    AndRange(32, Shr(d, w - k), Pow2(k) - 1);
    forall j: nat | j < 32 ensures Bit(up, j) == (if j < k then 0 else Bit(d, j - k))
      ensures Bit(low, j) == if j < k then Bit(d, j + w - k) else 0 {
      ShlBit(d, k, j);
      AndBit(32, Shr(d, w - k), Pow2(k) - 1, j);
      MaskBit(k, j);
      ShrBit(d, w - k, j);
    }
    PlusIsOr(32, up, low);
    OrRange(32, up, low);
    OrBit(32, up, low, i);
  }

  lemma PiecesRotate(w: Bitness, d: u32, s: nat)
    requires d < Span(w) && 0 < Offset(w, s)
    ensures Pieces(w, d, Offset(w, s)) < 0x1_0000_0000 && Pieces(w, d, w - Offset(w, s)) < 0x1_0000_0000
    ensures Trunc(w, Pieces(w, d, Offset(w, s))) == RotL(w, d, s)
    ensures Trunc(w, Pieces(w, d, w - Offset(w, s))) == RotR(w, d, s)
  {
    hide Bit, RotL, RotR, Pow2, Pieces;
    var k := Offset(w, s);
    SpanIs(w);
    RotPeriod(w, d, s);
    RotLRange(w, d, k);
    RotRRange(w, d, k);
    PiecesBit(w, d, k, 0);
    PiecesBit(w, d, w - k, 0);
    forall i: nat | i < w
      ensures Bit(Pieces(w, d, k) % Pow2(w), i) == Bit(RotL(w, d, k), i)
      ensures Bit(Pieces(w, d, w - k) % Pow2(w), i) == Bit(RotR(w, d, k), i)
    {
      PiecesBit(w, d, k, i);
      PiecesBit(w, d, w - k, i);
      ModBit(w, Pieces(w, d, k), i);
      ModBit(w, Pieces(w, d, w - k), i);
      RotLBit(w, d, k, i);
      RotRBit(w, d, k, i);
    }
    SameBits(w, Pieces(w, d, k) % Pow2(w), RotL(w, d, k));
    SameBits(w, Pieces(w, d, w - k) % Pow2(w), RotR(w, d, k));
  }

  lemma OffsetRange(w: Bitness, s: nat)
    ensures Offset(w, s) < w
  {
  }

  lemma NoTurn(w: Bitness, d: u32, s: nat)
    requires d < Span(w) && Offset(w, s) == 0
    ensures RotL(w, d, s) == d && RotR(w, d, s) == d
  {
    SpanIs(w);
    RotPeriod(w, d, s);
  }

  /** The tests on the result: its lowest bit, its top bit, and the two added. */
  lemma EndBits(w: Bitness, r: u32)
    requires r < Span(w)
    ensures LowBit(r + Shr(r, w - 1)) == 1 <==> (LowBit(r) == 1) != (Signed(w, r) < 0)
    ensures Bit(r, w - 1) == 1 <==> Signed(w, r) < 0
  {
    hide Shr, Pow2;
    ShrBit(r, w - 1, 0);
    SignBit(w, r);
    Wrap(r, Span(w));
    hide Signed;
    var h := Shr(r, w - 1);
    assert h % 2 == Bit(h, 0);
  }

  lemma RolMeans(f: Flags, w: Bitness, d: u32, s: nat)
    requires d < Span(w) && s > 0
    ensures var r := RotL(w, d, s);
      && 0 <= r < Span(w)
      && RolFlags(f, w, d, s) == f.(cf := LowBit(r) == 1, of := if s == 1 then LowBit(r + Shr(r, w - 1)) == 1 else f.of)
  {
    hide RotL, LowBit, Signed, Shr, Pow2;
    SpanIs(w);
    RotLRange(w, d, s);
    EndBits(w, RotL(w, d, s));
  }

  lemma RorMeans(f: Flags, w: Bitness, d: u32, s: nat)
    requires d < Span(w) && s > 0
    ensures var r := RotR(w, d, s);
      && 0 <= r < Span(w)
      && RorFlags(f, w, d, s) == f.(cf := Bit(r, w - 1) == 1, of := if s == 1 then Xor2(r, w - 2) else f.of)
  {
    hide RotR, LowBit, Signed, Shr, Pow2, Bit, Xor2;
    SpanIs(w);
    RotRRange(w, d, s);
    EndBits(w, RotR(w, d, s));
  }

  /** What the branches of rol and ror compute. */
  lemma RolRorValue(w: Bitness, d: u32, s: nat)
    requires d < Span(w)
    ensures var k := Offset(w, s);
      && k < w
      && (k != 0 ==> && 0 <= Shl(d, k) + And(32, Shr(d, w - k), Pow2(k) - 1) < 0x1_0000_0000
                     && Trunc(w, Shl(d, k) + And(32, Shr(d, w - k), Pow2(k) - 1)) == RotL(w, d, s)
                     && Trunc(w, Shl(d, w - k) + And(32, Shr(d, k), Pow2(w - k) - 1)) == RotR(w, d, s))
      && (k == 0 ==> RotL(w, d, s) == d && RotR(w, d, s) == d)
  {
    OffsetRange(w, s);
    hide Shl, Shr, And, Trunc, RotL, RotR, Pow2, Offset;
    if Offset(w, s) != 0 {
      PiecesRotate(w, d, s);
    } else {
      NoTurn(w, d, s);
    }
  }

  lemma RolRorZero(f: Flags, w: Bitness, d: u32)
    ensures RotL(w, d, 0) == d && RotR(w, d, 0) == d && RolFlags(f, w, d, 0) == f && RorFlags(f, w, d, 0) == f
  {
  }

  method Rol(emu: Emu, w: Bitness, d: u32, s: u8) returns (r: u32)
    requires d < Span(w)
    modifies emu`f
    ensures r == RotL(w, d, s) && emu.f == RolFlags(old(emu.f), w, d, s)
  {
    hide *;
    r := d;
    if s == 0 {
      RolRorZero(emu.f, w, d);
      return;
    }
    RolRorValue(w, d, s);
    RolMeans(emu.f, w, d, s);
    var cnt := Offset(w, s);
    if cnt != 0 {
      r := Trunc(w, Shl(d, cnt) + And(32, Shr(d, w - cnt), Pow2(cnt) - 1));
    }
    emu.f := emu.f.(cf := LowBit(r) == 1, of := if s == 1 then LowBit(r + Shr(r, w - 1)) == 1 else emu.f.of);
  }

  method Ror(emu: Emu, w: Bitness, d: u32, s: u8) returns (r: u32)
    requires d < Span(w)
    modifies emu`f
    ensures r == RotR(w, d, s) && emu.f == RorFlags(old(emu.f), w, d, s)
  {
    hide *;
    r := d;
    if s == 0 {
      RolRorZero(emu.f, w, d);
      return;
    }
    RolRorValue(w, d, s);
    RorMeans(emu.f, w, d, s);
    var cnt := Offset(w, s);
    if cnt != 0 {
      r := Trunc(w, Shl(d, w - cnt) + And(32, Shr(d, cnt), Pow2(w - cnt) - 1));
    }
    emu.f := emu.f.(cf := Bit(r, w - 1) == 1, of := if s == 1 then Xor2(r, w - 2) else emu.f.of);
  }
}
