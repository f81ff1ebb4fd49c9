/**
Addition, subtraction and comparison (prim_ops.c). The code derives the flags from a carry or borrow chain computed
with 32-bit logic; the specifications below say what the flags mean (Intel 64 and IA-32 SDM, Vol. 1, section 3.4.3.1).
*/
module Arithmetic {
  import opened Words
  import opened Bits
  import opened Parity
  import opened Machine

  /** Operand width: the byte, word and long forms of one primitive. */
  type Bitness = w: int | w == 8 || w == 16 || w == 32 witness 8

  /** How many values an operand has. */
  function Span(w: Bitness): nat { if w == 8 then 0x100 else if w == 16 then 0x1_0000 else 0x1_0000_0000 }

  /** The two's complement reading of an operand. */
  function Signed(w: Bitness, x: nat): int { if 2 * x >= Span(w) then x - Span(w) else x }

  lemma SpanIs(w: Bitness)
    ensures Pow2(w) == Span(w) && 2 * Pow2(w - 1) == Span(w) && Pow2(4) == 16 && Pow2(32) == 0x1_0000_0000
  {
    SmallPowers();
    hide Pow2;
    Pow2Add(8, 8);
    Pow2Add(16, 16);
    Pow2Next(w - 1);
  }

  lemma SmallPowers()
    ensures Pow2(4) == 16 && Pow2(8) == 0x100
  {
    assert Pow2(4) == 16;
    Pow2Add(4, 4);
  }

  lemma Pow2Next(n: nat)
    ensures Pow2(n + 1) == 2 * Pow2(n)
  {
  }

  // ---- the meaning of the flags ----

  function ResultFlags(f: Flags, w: Bitness, r: nat): Flags {
    f.(zf := r == 0, sf := Signed(w, r) < 0, pf := Ones(8, r % 0x100) % 2 == 0)
  }

  function Sum(w: Bitness, d: nat, s: nat, c: nat): nat { (d + s + c) % Span(w) }

  /** CF is unsigned overflow, OF signed overflow, AF a carry out of the low digit. */
  function AddFlags(f: Flags, w: Bitness, d: nat, s: nat, c: nat): Flags {
    IncFlags(f, w, d, s, c).(cf := d + s + c >= Span(w))
  }

  function IncFlags(f: Flags, w: Bitness, d: nat, s: nat, c: nat): Flags {
    ResultFlags(f, w, Sum(w, d, s, c)).(
    of := Signed(w, d) + Signed(w, s) + c != Signed(w, Sum(w, d, s, c)), af := d % 16 + s % 16 + c >= 16)
  }

  function Difference(w: Bitness, d: nat, s: nat, c: nat): nat { (d - s - c) % Span(w) }

  function SubFlags(f: Flags, w: Bitness, d: nat, s: nat, c: nat): Flags {
    DecFlags(f, w, d, s, c).(cf := d < s + c)
  }

  function DecFlags(f: Flags, w: Bitness, d: nat, s: nat, c: nat): Flags {
    ResultFlags(f, w, Difference(w, d, s, c)).(
    of := Signed(w, d) - Signed(w, s) - c != Signed(w, Difference(w, d, s, c)), af := d % 16 < s % 16 + c)
  }

  // ---- from bits to meanings ----

  /** The masks of the code, `x & (1 << i)`, read as arithmetic. */
  lemma {:induction false} MaskIs(x: nat, i: nat)
    ensures Bit(x, i) == 1 <==> Mod(x, i + 1) >= Pow2(i)
    decreases i
  {
    ModHalf(x, i + 1);
    if i > 0 {
      MaskIs(x / 2, i - 1);
    } else {
      assert Pow2(1) == 2;
    }
  }

  lemma SignBit(w: Bitness, x: nat)
    ensures Bit(x, w - 1) == 1 <==> Signed(w, x % Span(w)) < 0
  {
    MaskIs(x, w - 1);
    SpanIs(w);
  }

  lemma CarryOut(w: Bitness, x: nat)
    requires x < 2 * Span(w)
    ensures Bit(x, w) == 1 <==> x >= Span(w)
  {
    hide Bit, Span, Pow2;
    BitIs(x, w);
    SpanIs(w);
    DivUnique(x, Span(w), if x < Span(w) then 0 else 1, if x < Span(w) then x else x - Span(w));
  }

  /** Truncating a 32-bit result. */
  lemma Narrow(w: Bitness, x: int)
    ensures U32(x) % Span(w) == x % Span(w)
  {
    var q := x / 0x1_0000_0000;
    var k := if w == 8 then 0x100_0000 else if w == 16 then 0x1_0000 else 1;
    var r := U32(x);
    assert x == Span(w) * (k * q + r / Span(w)) + r % Span(w);
    DivUnique(x, Span(w), k * q + r / Span(w), r % Span(w));
  }

  lemma ByteSpan(x: int)
    ensures x % Span(8) == U8(x) && Span(8) == 0x100
  {
    DivUnique(x, Span(8), x / 0x100, U8(x));
  }

  lemma LowByte(w: Bitness, x: nat)
    ensures x % Span(w) % 0x100 == U8(x)
  {
    var k := if w == 8 then 1 else if w == 16 then 0x100 else 0x100_0000;
    DivMod(x, Span(w));
    var q, r := x / Span(w), x % Span(w);
    DivUnique(x, 0x100, k * q + r / 0x100, r % 0x100);
  }

  /** hi & 0x10000 of the 32-bit forms, where the sum itself has wrapped. */
  lemma HalvesCarry(d: u32, s: u32, c: nat)
    requires c < 2
    ensures var hi := (d % 0x1_0000 + s % 0x1_0000 + c) / 0x1_0000 + d / 0x1_0000 + s / 0x1_0000;
      Bit(hi, 16) == 1 <==> d + s + c >= 0x1_0000_0000
  {
    var lo := d % 0x1_0000 + s % 0x1_0000 + c;
    var hi := lo / 0x1_0000 + d / 0x1_0000 + s / 0x1_0000;
    assert d + s + c == 0x1_0000 * hi + lo % 0x1_0000;
    CarryOut(16, hi);
  }

  /** XOR2: two neighbouring bits of the chain differ. */
  predicate Xor2(chain: nat, i: nat) { Bit(chain, i) != Bit(chain, i + 1) }

  /** One reduction: `x` is in [0, 2m). */
  lemma Wrap(x: int, m: nat)
    requires 0 <= x < 2 * m
    ensures x % m == if x < m then x else x - m
  {
    DivUnique(x, m, if x < m then 0 else 1, if x < m then x else x - m);
  }

  lemma WrapBelow(x: int, m: nat)
    requires 0 <= x + m < 2 * m
    ensures x % m == if x < 0 then x + m else x
  {
    DivUnique(x, m, if x < 0 then -1 else 0, if x < 0 then x + m else x);
  }

  /** The two's complement reading of a number below 2m. */
  function Read(m: nat, x: nat): int { if x < m then x else x - 2 * m }

  lemma SignedReads(w: Bitness, x: nat)
    requires x < Span(w)
    ensures Signed(w, x) == Read(Pow2(w - 1), x)
    ensures Mod(x, w) == x && Mod(x, w - 1) == x % Pow2(w - 1) && x < 2 * Pow2(w - 1) && Pow2(w) == 2 * Pow2(w - 1)
  {
    hide Pow2, Span;
    SpanIs(w);
    Wrap(x, Span(w));
  }

  lemma Reduces(w: Bitness, x: int)
    ensures 0 <= x % Span(w) == x % (2 * Pow2(w - 1)) < Span(w) && Span(w) == 2 * Pow2(w - 1)
  {
    SpanIs(w);
  }

  lemma LowDigit(x: nat)
    ensures Mod(x, 4) == x % 16 && Pow2(4) == 16
  {
    SpanIs(8);
  }

  /** Signed overflow is a carry into the sign bit that differs from the carry out of it. */
  lemma AddOverflows(m: nat, d: nat, s: nat, c: nat)
    requires d < 2 * m && s < 2 * m && c < 2
    ensures (d % m + s % m + c >= m) != (d + s + c >= 2 * m) <==>
      Read(m, d) + Read(m, s) + c != Read(m, (d + s + c) % (2 * m))
  {
    Wrap(d, m);
    Wrap(s, m);
    Wrap(d + s + c, 2 * m);
  }

  lemma CarryAt(w: Bitness, d: nat, s: nat, c: nat)
    requires d < Span(w) && s < Span(w) && c < 2
    ensures var m := Pow2(w - 1);
      (Carry(d, s, c, w - 1) == 1 <==> d + s + c >= 2 * m) && (Carry(d, s, c, w - 2) == 1 <==> d % m + s % m + c >= m)
    ensures Carry(d, s, c, 3) == 1 <==> d % 16 + s % 16 + c >= 16
    ensures Carry(d, s, c, w - 1) < 2 && Carry(d, s, c, w - 2) < 2
  {
    hide Carry, Pow2, Mod, Span;
    CarryMeans(d, s, c, w - 1);
    CarryMeans(d, s, c, w - 2);
    CarryMeans(d, s, c, 3);
    LowDigit(d);
    LowDigit(s);
    SignedReads(w, d);
    SignedReads(w, s);
  }

  lemma AddMeaning(w: Bitness, d: nat, s: nat, c: nat)
    requires d < Span(w) && s < Span(w) && c < 2
    ensures Carry(d, s, c, w - 1) == 1 <==> d + s + c >= Span(w)
    ensures Carry(d, s, c, w - 2) != Carry(d, s, c, w - 1) <==>
      Signed(w, d) + Signed(w, s) + c != Signed(w, Sum(w, d, s, c))
    ensures Carry(d, s, c, 3) == 1 <==> d % 16 + s % 16 + c >= 16
  {
    hide Carry, Pow2, Signed, Span, Read;
    CarryAt(w, d, s, c);
    Reduces(w, d + s + c);
    SignedReads(w, d);
    SignedReads(w, s);
    SignedReads(w, Sum(w, d, s, c));
    AddOverflows(Pow2(w - 1), d, s, c);
  }

  lemma SubOverflows(m: nat, d: nat, s: nat, c: nat)
    requires d < 2 * m && s < 2 * m && c < 2
    ensures (d % m < s % m + c) != (d < s + c) <==>
      Read(m, d) - Read(m, s) - c != Read(m, (d - s - c) % (2 * m))
  {
    Wrap(d, m);
    Wrap(s, m);
    WrapBelow(d - s - c, 2 * m);
  }

  lemma BorrowAt(w: Bitness, d: nat, s: nat, c: nat)
    requires d < Span(w) && s < Span(w) && c < 2
    ensures var m := Pow2(w - 1);
      (Borrow(d, s, c, w - 1) == 1 <==> d < s + c) && (Borrow(d, s, c, w - 2) == 1 <==> d % m < s % m + c)
    ensures Borrow(d, s, c, 3) == 1 <==> d % 16 < s % 16 + c
    ensures Borrow(d, s, c, w - 1) < 2 && Borrow(d, s, c, w - 2) < 2
  {
    hide Borrow, Pow2, Mod, Span;
    BorrowMeans(d, s, c, w - 1);
    BorrowMeans(d, s, c, w - 2);
    BorrowMeans(d, s, c, 3);
    LowDigit(d);
    LowDigit(s);
    SignedReads(w, d);
    SignedReads(w, s);
  }

  lemma SubMeaning(w: Bitness, d: nat, s: nat, c: nat)
    requires d < Span(w) && s < Span(w) && c < 2
    ensures Borrow(d, s, c, w - 1) == 1 <==> d < s + c
    ensures Borrow(d, s, c, w - 2) != Borrow(d, s, c, w - 1) <==>
      Signed(w, d) - Signed(w, s) - c != Signed(w, Difference(w, d, s, c))
    ensures Borrow(d, s, c, 3) == 1 <==> d % 16 < s % 16 + c
  {
    hide Borrow, Pow2, Signed, Span, Read;
    BorrowAt(w, d, s, c);
    Reduces(w, d - s - c);
    SignedReads(w, d);
    SignedReads(w, s);
    SignedReads(w, Difference(w, d, s, c));
    SubOverflows(Pow2(w - 1), d, s, c);
  }

  /** The 32-bit chain of an addition, probed where the code probes it. */
  lemma AddChain(w: Bitness, d: nat, s: nat, c: nat)
    requires d < Span(w) && s < Span(w) && c < 2
    ensures var cc := CarryChain(32, d, s, U32(d + s + c));
      && (Xor2(cc, w - 2) <==> Signed(w, d) + Signed(w, s) + c != Signed(w, Sum(w, d, s, c)))
      && (Bit(cc, 3) == 1 <==> d % 16 + s % 16 + c >= 16)
  {
    hide CarryChain, Carry, Bit;
    SpanIs(w);
    CarryChainIsCarry(32, d, s, c, w - 1);
    CarryChainIsCarry(32, d, s, c, w - 2);
    CarryChainIsCarry(32, d, s, c, 3);
    AddMeaning(w, d, s, c);
  }

  lemma SubChain(w: Bitness, d: nat, s: nat, c: nat)
    requires d < Span(w) && s < Span(w) && c < 2
    ensures var bc := BorrowChain(32, d, s, U32(d - s - c));
      && (Bit(bc, w - 1) == 1 <==> d < s + c)
      && (Xor2(bc, w - 2) <==> Signed(w, d) - Signed(w, s) - c != Signed(w, Difference(w, d, s, c)))
      && (Bit(bc, 3) == 1 <==> d % 16 < s % 16 + c)
  {
    hide BorrowChain, Borrow, Bit;
    SpanIs(w);
    BorrowChainIsBorrow(32, d, s, c, w - 1);
    BorrowChainIsBorrow(32, d, s, c, w - 2);
    BorrowChainIsBorrow(32, d, s, c, 3);
    SubMeaning(w, d, s, c);
  }

  /** inc_byte groups the chain as (1d + r')(1 + d); bit by bit that is the same. */
  lemma IncChainBit(d: nat, r: nat, i: nat)
    requires i < 32
    ensures Bit(And(32, Or(32, And(32, 1, d), Not(32, r)), Or(32, 1, d)), i) == Bit(CarryChain(32, d, 1, r), i)
  {
    hide And, Or, Not, Bit;
    var n := 32;
    AndBit(n, Or(n, And(n, 1, d), Not(n, r)), Or(n, 1, d), i);
    OrBit(n, And(n, 1, d), Not(n, r), i);
    OrBit(n, 1, d, i);
    OrBit(n, And(n, 1, d), And(n, Not(n, r), Or(n, 1, d)), i);
    AndBit(n, 1, d, i);
    AndBit(n, Not(n, r), Or(n, 1, d), i);
    NotBit(n, r, i);
  }

  /** neg keeps its chain, simplified for d = 0, in a variable of the operand's width. */
  lemma NegChain(w: Bitness, s: nat)
    requires s < Span(w)
    ensures var bc := Or(w, Difference(w, 0, s, 0), s);
      && (Xor2(bc, w - 2) <==> 0 - Signed(w, s) != Signed(w, Difference(w, 0, s, 0)))
      && (Bit(bc, 3) == 1 <==> 0 < s % 16)
  {
    hide Borrow, Bit, Or, And, Not, BorrowChain;
    SpanIs(w);
    var r := Mod(0 - s - 0, w);
    forall i: nat | i < w ensures Bit(Or(w, r, s), i) == Borrow(0, s, 0, i) {
      NegChainBit(w, s, r, i);
      BorrowChainIsBorrow(w, 0, s, 0, i);
    }
    SubMeaning(w, 0, s, 0);
  }

  lemma NegFlags(f: Flags, w: Bitness, s: nat)
    requires s < Span(w)
    ensures var r := Difference(w, 0, s, 0); var bc := Or(w, r, s);
      && r % Span(w) == r
      && SubFlags(f, w, 0, s, 0) == ResultFlags(f, w, r).(cf := s != 0, of := Xor2(bc, w - 2), af := Bit(bc, 3) == 1)
  {
    assert Signed(w, 0) == 0;
    hide Bit, Or, Ones, Signed, Xor2;
    NegChain(w, s);
    var r := Difference(w, 0, s, 0);
    Wrap(r, Span(w));
  }

  lemma NegChainBit(n: nat, s: nat, r: nat, i: nat)
    requires i < n
    ensures Bit(Or(n, r, s), i) == Bit(BorrowChain(n, 0, s, r), i)
  {
    hide And, Or, Not, Bit;
    BitIs(0, i);
    NotBit(n, 0, i);
    OrBit(n, r, s, i);
    OrBit(n, And(n, r, Or(n, Not(n, 0), s)), And(n, Not(n, 0), s), i);
    AndBit(n, r, Or(n, Not(n, 0), s), i);
    OrBit(n, Not(n, 0), s, i);
    AndBit(n, Not(n, 0), s, i);
  }

  // ---- the primitives ----

  /** ZF, SF and PF from a 32-bit result of which the low `w` bits count. */
  method SetResult(emu: Emu, w: Bitness, res: u32)
    modifies emu`f
    ensures emu.f == ResultFlags(old(emu.f), w, res % Span(w))
  {
    hide Bit, Ones, EvenParity, U8, Signed;
    LowByte(w, res);
    SignBit(w, res);
    EvenParityIs(U8(res));
    emu.f := emu.f.(zf := res % Span(w) == 0, sf := Bit(res, w - 1) == 1, pf := EvenParity(U8(res)));
  }

  /** adc, and add when `c` is 0 */
  method AddCarry(emu: Emu, w: Bitness, d: u32, s: u32, c: nat) returns (r: u32)
    requires d < Span(w) && s < Span(w) && c < 2
    modifies emu`f
    ensures r == Sum(w, d, s, c) && emu.f == AddFlags(old(emu.f), w, d, s, c)
  {
    hide Bit, And, Or, Not, CarryChain, Ones, Signed;
    var res := U32(d + s + c);
    if w == 32 {
      var lo := d % 0x1_0000 + s % 0x1_0000 + c;
      var hi := lo / 0x1_0000 + d / 0x1_0000 + s / 0x1_0000;
      HalvesCarry(d, s, c);
      emu.f := emu.f.(cf := Bit(hi, 16) == 1);
    } else {
      CarryOut(w, res);
      emu.f := emu.f.(cf := Bit(res, w) == 1);
    }
    SetResult(emu, w, res);
    Narrow(w, d + s + c);
    var cc := CarryChain(32, d, s, res);
    AddChain(w, d, s, c);
    emu.f := emu.f.(of := Xor2(cc, w - 2), af := Bit(cc, 3) == 1);
    r := res % Span(w);
  }

  method Add(emu: Emu, w: Bitness, d: u32, s: u32) returns (r: u32)
    requires d < Span(w) && s < Span(w)
    modifies emu`f
    ensures r == Sum(w, d, s, 0) && emu.f == AddFlags(old(emu.f), w, d, s, 0)
  {
    r := AddCarry(emu, w, d, s, 0);
  }

  method Adc(emu: Emu, w: Bitness, d: u32, s: u32) returns (r: u32)
    requires d < Span(w) && s < Span(w)
    modifies emu`f
    ensures var c := if old(emu.f.cf) then 1 else 0;
      r == Sum(w, d, s, c) && emu.f == AddFlags(old(emu.f), w, d, s, c)
  {
    r := AddCarry(emu, w, d, s, if emu.f.cf then 1 else 0);
  }

  /** inc leaves CF alone. */
  method Inc(emu: Emu, w: Bitness, d: u32) returns (r: u32)
    requires d < Span(w)
    modifies emu`f
    ensures r == Sum(w, d, 1, 0) && emu.f == IncFlags(old(emu.f), w, d, 1, 0)
  {
    hide Bit, And, Or, Not, CarryChain, Ones, Signed;
    var res := U32(d + 1);
    SetResult(emu, w, res);
    Narrow(w, d + 1);
    AddChain(w, d, 1, 0);
    var cc;
    if w == 8 {
      cc := And(32, Or(32, And(32, 1, d), Not(32, res)), Or(32, 1, d));
      IncChainBit(d, res, 3);
      IncChainBit(d, res, 6);
      IncChainBit(d, res, 7);
    } else {
      cc := CarryChain(32, d, 1, res);
    }
    emu.f := emu.f.(of := Xor2(cc, w - 2), af := Bit(cc, 3) == 1);
    r := res % Span(w);
  }

  /** sbb; sub and cmp when `c` is 0 */
  method SubBorrow(emu: Emu, w: Bitness, d: u32, s: u32, c: nat) returns (r: u32)
    requires d < Span(w) && s < Span(w) && c < 2
    modifies emu`f
    ensures r == Difference(w, d, s, c) && emu.f == SubFlags(old(emu.f), w, d, s, c)
  {
    hide Bit, And, Or, Not, BorrowChain, Ones, Signed;
    var res := U32(d - s - c);
    SetResult(emu, w, res);
    Narrow(w, d - s - c);
    var bc := BorrowChain(32, d, s, res);
    SubChain(w, d, s, c);
    emu.f := emu.f.(cf := Bit(bc, w - 1) == 1, of := Xor2(bc, w - 2), af := Bit(bc, 3) == 1);
    r := res % Span(w);
  }

  method Sub(emu: Emu, w: Bitness, d: u32, s: u32) returns (r: u32)
    requires d < Span(w) && s < Span(w)
    modifies emu`f
    ensures r == Difference(w, d, s, 0) && emu.f == SubFlags(old(emu.f), w, d, s, 0)
  {
    r := SubBorrow(emu, w, d, s, 0);
  }

  method Sbb(emu: Emu, w: Bitness, d: u32, s: u32) returns (r: u32)
    requires d < Span(w) && s < Span(w)
    modifies emu`f
    ensures var c := if old(emu.f.cf) then 1 else 0;
      r == Difference(w, d, s, c) && emu.f == SubFlags(old(emu.f), w, d, s, c)
  {
    r := SubBorrow(emu, w, d, s, if emu.f.cf then 1 else 0);
  }

  /** cmp returns its first operand unchanged. */
  method Cmp(emu: Emu, w: Bitness, d: u32, s: u32) returns (r: u32)
    requires d < Span(w) && s < Span(w)
    modifies emu`f
    ensures r == d && emu.f == SubFlags(old(emu.f), w, d, s, 0)
  {
    if w == 8 {
      emu.f := emu.f.(cf := false);
    }
    var _ := SubBorrow(emu, w, d, s, 0);
    r := d;
  }

  /** dec leaves CF alone. */
  method Dec(emu: Emu, w: Bitness, d: u32) returns (r: u32)
    requires d < Span(w)
    modifies emu`f
    ensures r == Difference(w, d, 1, 0) && emu.f == DecFlags(old(emu.f), w, d, 1, 0)
  {
    hide Bit, And, Or, Not, BorrowChain, Ones, Signed;
    var res := U32(d - 1);
    SetResult(emu, w, res);
    Narrow(w, d - 1);
    var bc := BorrowChain(32, d, 1, res);
    SubChain(w, d, 1, 0);
    emu.f := emu.f.(of := Xor2(bc, w - 2), af := Bit(bc, 3) == 1);
    r := res % Span(w);
  }

  lemma CarryFirst(f: Flags, w: Bitness, r: nat, cf: bool)
    ensures ResultFlags(f.(cf := cf), w, r) == ResultFlags(f, w, r).(cf := cf)
  {
    hide Ones, Signed;
  }

  method Neg(emu: Emu, w: Bitness, s: u32) returns (r: u32)
    requires s < Span(w)
    modifies emu`f
    ensures r == Difference(w, 0, s, 0) && emu.f == SubFlags(old(emu.f), w, 0, s, 0)
  {
    hide Bit, Or, Xor2, Difference, SubFlags, ResultFlags;
    NegFlags(emu.f, w, s);
    var res := Difference(w, 0, s, 0);
    CarryFirst(emu.f, w, res, s != 0);
    emu.f := emu.f.(cf := s != 0);
    SetResult(emu, w, res);
    var bc := Or(w, res, s);
    emu.f := emu.f.(of := Xor2(bc, w - 2), af := Bit(bc, 3) == 1);
    r := res;
  }
}
