/** Packed-BCD addition and subtraction (Intel 64 and IA-32 SDM, Vol. 1, section 4.7): adc or sbb, then daa or das. */
module Decimal {
  import opened Words
  import opened Parity
  import opened Machine
  import opened Arithmetic

  predicate LowDigitOver(x: u8) { x % 16 > 9 }

  function Daa(f: Flags, d: u8): (u8, Flags) {
    var low := LowDigitOver(d) || f.af;
    var a := if low then d + 6 else d;
    var high := a > 0x9f || f.cf;
    var r := U8(if high then a + 0x60 else a);
    (r, ResultFlags(f, 8, r).(af := low, cf := high))
  }

  function Das(f: Flags, d: u8): (u8, Flags) {
    var low := LowDigitOver(d) || f.af;
    var a := if low then U8(d - 6) else d;
    var high := a > 0x9f || f.cf;
    var r := if high then U8(a - 0x60) else a;
    (r, ResultFlags(f, 8, r).(af := low, cf := high))
  }

  method SetByteResult(emu: Emu, res: u32)
    modifies emu`f
    ensures emu.f == ResultFlags(old(emu.f), 8, U8(res))
  {
    hide ResultFlags, Span;
    ByteSpan(res);
    SetResult(emu, 8, res);
  }

  /** daa and das in the order of the code: AF and CF are set before the other flags. */
  lemma InOrder(f: Flags, d: u8)
    ensures
      var low := LowDigitOver(d) || f.af;
      var g := if low then f.(af := true) else f;
      var a := if low then d + 6 else d;
      var h := if a > 0x9f || g.cf then g.(cf := true) else g;
      var r := U8(if a > 0x9f || g.cf then a + 0x60 else a);
      var b := if low then U8(d - 6) else d;
      var k := if b > 0x9f || g.cf then g.(cf := true) else g;
      var q := if b > 0x9f || g.cf then U8(b - 0x60) else b;
      Daa(f, d) == (r, ResultFlags(h, 8, r)) && Das(f, d) == (q, ResultFlags(k, 8, q))
  {
    hide U8, LowDigitOver, Ones, Signed;
  }

  lemma ByteFits(x: u8)
    ensures U8(x) == x
  {
  }

  method DaaByte(emu: Emu, d: u8) returns (r: u8)
    modifies emu`f
    ensures (r, emu.f) == Daa(old(emu.f), d)
  {
    hide ResultFlags, U8, LowDigitOver, Daa, Das;
    var res: u32 := d;
    if LowDigitOver(d) || emu.f.af {
      res := res + 6;
      emu.f := emu.f.(af := true);
    }
    if res > 0x9f || emu.f.cf {
      res := res + 0x60;
      emu.f := emu.f.(cf := true);
    }
    InOrder(old(emu.f), d);
    SetByteResult(emu, res);
    r := U8(res);
  }

  method DasByte(emu: Emu, d: u8) returns (r: u8)
    modifies emu`f
    ensures (r, emu.f) == Das(old(emu.f), d)
  {
    hide ResultFlags, U8, LowDigitOver, Daa, Das;
    r := d;
    if LowDigitOver(r) || emu.f.af {
      r := U8(r - 6);
      emu.f := emu.f.(af := true);
    }
    if r > 0x9f || emu.f.cf {
      r := U8(r - 0x60);
      emu.f := emu.f.(cf := true);
    }
    ByteFits(r);
    InOrder(old(emu.f), d);
    SetByteResult(emu, r);
  }

  // ---- one byte: two decimal digits ----

  predicate Packed(b: nat) { b / 16 <= 9 && b % 16 <= 9 }

  function Digits(b: nat): nat { 10 * (b / 16) + b % 16 }

  function Carry01(f: Flags): nat { if f.cf then 1 else 0 }

  function AdcDaa(f: Flags, d: u8, s: u8): (u8, Flags) {
    Daa(AddFlags(f, 8, d, s, Carry01(f)), U8(d + s + Carry01(f)))
  }

  function SbbDas(f: Flags, d: u8, s: u8): (u8, Flags) {
    Das(SubFlags(f, 8, d, s, Carry01(f)), U8(d - s - Carry01(f)))
  }

  /** The value part of daa: `x` is the binary sum, `af` and `cf` its carries. */
  function Adjusted(x: u8, af: bool, cf: bool): (u8, bool) {
    var a := if LowDigitOver(x) || af then x + 6 else x;
    var high := a > 0x9f || cf;
    (U8(if high then a + 0x60 else a), high)
  }

  /** A byte operation that overflows or underflows at most once. */
  lemma FoldIs(x: int)
    requires -0x100 <= x < 0x200
    ensures U8(x) == if x < 0 then x + 0x100 else if x < 0x100 then x else x - 0x100
  {
  }

  lemma SplitByte(x: int, h: int, l: int)
    requires x == 16 * h + l && 0 <= l < 16
    ensures x / 16 == h && x % 16 == l
  {
  }

  lemma AdjustAdds(dh: nat, dl: nat, sh: nat, sl: nat, c: nat)
    requires dh <= 9 && dl <= 9 && sh <= 9 && sl <= 9 && c < 2
    ensures var x := 16 * dh + dl + 16 * sh + sl + c;
      var (r, cf) := Adjusted(U8(x), dl + sl + c >= 16, x >= 0x100);
      Packed(r) && Digits(r) + (if cf then 100 else 0) == 10 * dh + dl + 10 * sh + sl + c
  {
    hide U8;
    var lo, h := dl + sl + c, dh + sh;
    var x := 16 * h + lo;
    FoldIs(x);
    var h' := if lo >= 16 then h + 1 else h;
    SplitByte(U8(x), if h' >= 16 then h' - 16 else h', if lo >= 16 then lo - 16 else lo);
    var a := if lo >= 10 then U8(x) + 6 else U8(x);
    FoldIs(a);
    FoldIs(a + 0x60);
    var hi := if lo >= 10 then h + 1 else h;
    SplitByte(Adjusted(U8(x), lo >= 16, x >= 0x100).0, if hi >= 10 then hi - 10 else hi,
      if lo >= 10 then lo - 10 else lo);
  }

  lemma AddStep(f: Flags, d: u8, s: u8)
    requires Packed(d) && Packed(s)
    ensures var (r, g) := AdcDaa(f, d, s);
      Packed(r) && Digits(r) + 100 * Carry01(g) == Digits(d) + Digits(s) + Carry01(f)
  {
    hide Ones, Signed, U8;
    AdjustAdds(d / 16, d % 16, s / 16, s % 16, Carry01(f));
  }

  /** The carry or borrow between the two digits of a byte. */
  lemma DigitCarry(d: u8, s: u8, c: nat)
    requires Packed(d) && Packed(s) && c < 2
    ensures var x := U8(d + s + c); var low := d % 16 + s % 16 + c;
      LowDigitOver(x) || low >= 16 <==> low >= 10
    ensures var x := U8(d - s - c);
      LowDigitOver(x) || d % 16 < s % 16 + c <==> d % 16 < s % 16 + c
  {
    hide U8;
    var h, l := d / 16 + s / 16, d % 16 + s % 16 + c;
    FoldIs(d + s + c);
    SplitByte(d + s + c, if l >= 16 then h + 1 else h, if l >= 16 then l - 16 else l);
    var k, m := d / 16 - s / 16, d % 16 - s % 16 - c;
    var x := U8(d - s - c);
    FoldIs(d - s - c);
    if m >= 0 {
      SplitByte(x, if d - s - c < 0 then k + 16 else k, m);
    }
  }

  /** Theorem: after adc and daa AF is the decimal carry of the low digit, and SF, ZF, PF describe the byte. */
  lemma AdditionFlags(f: Flags, d: u8, s: u8)
    requires Packed(d) && Packed(s)
    ensures var (r, g) := AdcDaa(f, d, s);
      && (g.af <==> d % 16 + s % 16 + Carry01(f) >= 10)
      && (g.sf <==> r >= 0x80) && (g.zf <==> r == 0) && (g.pf <==> Ones(8, r) % 2 == 0)
  {
    hide Ones, U8, LowDigitOver;
    DigitCarry(d, s, Carry01(f));
  }

  /** Theorem: after sbb and das it is the decimal borrow. */
  lemma SubtractionFlags(f: Flags, d: u8, s: u8)
    requires Packed(d) && Packed(s)
    ensures var (r, g) := SbbDas(f, d, s);
      && (g.af <==> d % 16 < s % 16 + Carry01(f))
      && (g.sf <==> r >= 0x80) && (g.zf <==> r == 0) && (g.pf <==> Ones(8, r) % 2 == 0)
  {
    hide Ones, U8, LowDigitOver;
    DigitCarry(d, s, Carry01(f));
  }

  /** The value part of das. */
  function Lowered(x: u8, af: bool, cf: bool): (u8, bool) {
    var a := if LowDigitOver(x) || af then U8(x - 6) else x;
    var high := a > 0x9f || cf;
    (if high then U8(a - 0x60) else a, high)
  }

  lemma LowerSubtracts(dh: nat, dl: nat, sh: nat, sl: nat, c: nat)
    requires dh <= 9 && dl <= 9 && sh <= 9 && sl <= 9 && c < 2
    ensures var x := 16 * dh + dl - 16 * sh - sl - c;
      var (r, cf) := Lowered(U8(x), dl < sl + c, x < 0);
      Packed(r) && Digits(r) - (if cf then 100 else 0) == 10 * dh + dl - 10 * sh - sl - c
  {
    hide U8;
    var lo, h := dl - sl - c, dh - sh;
    var x := 16 * h + lo;
    FoldIs(x);
    var hi := if lo < 0 then h - 1 else h;
    SplitByte(U8(x), if hi < 0 then hi + 16 else hi, if lo < 0 then lo + 16 else lo);
    FoldIs(U8(x) - 6);
    var a := if lo < 0 then U8(U8(x) - 6) else U8(x);
    FoldIs(a - 0x60);
    SplitByte(Lowered(U8(x), lo < 0, x < 0).0, if hi < 0 then hi + 10 else hi, if lo < 0 then lo + 10 else lo);
  }

  lemma SubStep(f: Flags, d: u8, s: u8)
    requires Packed(d) && Packed(s)
    ensures var (r, g) := SbbDas(f, d, s);
      Packed(r) && Digits(r) - 100 * Carry01(g) == Digits(d) - Digits(s) - Carry01(f)
  {
    hide Ones, Signed, U8;
    LowerSubtracts(d / 16, d % 16, s / 16, s % 16, Carry01(f));
  }

  // ---- strings of any length, least significant byte first ----

  predicate AllPacked(ds: seq<u8>) { forall i :: 0 <= i < |ds| ==> Packed(ds[i]) }

  function Number(ds: seq<u8>): nat { if ds == [] then 0 else Digits(ds[0]) + 100 * Number(ds[1..]) }

  function Hundreds(n: nat): nat { if n == 0 then 1 else 100 * Hundreds(n - 1) }

  /** The digits and the flags after adding byte by byte. */
  function AddString(f: Flags, ds: seq<u8>, ss: seq<u8>): (seq<u8>, Flags)
    requires |ds| == |ss|
    decreases |ds|
  {
    if ds == [] then ([], f)
    else
      var (r, g) := AdcDaa(f, ds[0], ss[0]);
      var (rs, h) := AddString(g, ds[1..], ss[1..]);
      ([r] + rs, h)
  }

  function SubString(f: Flags, ds: seq<u8>, ss: seq<u8>): (seq<u8>, Flags)
    requires |ds| == |ss|
    decreases |ds|
  {
    if ds == [] then ([], f)
    else
      var (r, g) := SbbDas(f, ds[0], ss[0]);
      var (rs, h) := SubString(g, ds[1..], ss[1..]);
      ([r] + rs, h)
  }

  /** Theorem: the chain is decimal addition, CF the decimal carry. */
  lemma {:induction false} AdditionIsDecimal(f: Flags, ds: seq<u8>, ss: seq<u8>)
    requires |ds| == |ss| && AllPacked(ds) && AllPacked(ss)
    ensures var (rs, g) := AddString(f, ds, ss);
      && |rs| == |ds| && AllPacked(rs)
      && Number(rs) + Hundreds(|ds|) * Carry01(g) == Number(ds) + Number(ss) + Carry01(f)
    decreases |ds|
  {
    hide AdcDaa, Digits, Packed;
    if ds != [] {
      AddStep(f, ds[0], ss[0]);
      var (r, g) := AdcDaa(f, ds[0], ss[0]);
      AdditionIsDecimal(g, ds[1..], ss[1..]);
      assert ([r] + AddString(g, ds[1..], ss[1..]).0)[1..] == AddString(g, ds[1..], ss[1..]).0;
    }
  }

  /** Theorem: the chain is decimal subtraction, CF the decimal borrow. */
  lemma {:induction false} SubtractionIsDecimal(f: Flags, ds: seq<u8>, ss: seq<u8>)
    requires |ds| == |ss| && AllPacked(ds) && AllPacked(ss)
    ensures var (rs, g) := SubString(f, ds, ss);
      && |rs| == |ds| && AllPacked(rs)
      && Number(rs) - Hundreds(|ds|) * Carry01(g) == Number(ds) - Number(ss) - Carry01(f)
    decreases |ds|
  {
    hide SbbDas, Digits, Packed;
    if ds != [] {
      SubStep(f, ds[0], ss[0]);
      var (r, g) := SbbDas(f, ds[0], ss[0]);
      SubtractionIsDecimal(g, ds[1..], ss[1..]);
      assert ([r] + SubString(g, ds[1..], ss[1..]).0)[1..] == SubString(g, ds[1..], ss[1..]).0;
    }
  }

  lemma DigitsUnique(a: u8, b: u8)
    requires Packed(a) && Packed(b) && (Digits(a) - Digits(b)) % 100 == 0
    ensures a == b
  {
  }

  lemma StepUndone(f: Flags, g: Flags, d: u8, s: u8)
    requires Packed(d) && Packed(s) && f.cf == g.cf
    ensures var (r, h) := AdcDaa(f, d, s);
      SbbDas(g, r, s).0 == d && SbbDas(g, r, s).1.cf == h.cf
  {
    hide AdcDaa, SbbDas, Packed, Digits;
    AddStep(f, d, s);
    var (r, h) := AdcDaa(f, d, s);
    SubStep(g, r, s);
    var (q, k) := SbbDas(g, r, s);
    DigitsUnique(q, d);
  }

  /** Theorem: subtracting what was added gives the digits back, and the borrow is the carry. */
  lemma {:induction false} SubtractionUndoesAddition(f: Flags, g: Flags, ds: seq<u8>, ss: seq<u8>)
    requires |ds| == |ss| && AllPacked(ds) && AllPacked(ss) && f.cf == g.cf
    ensures var (rs, h) := AddString(f, ds, ss);
      |rs| == |ss| && SubString(g, rs, ss).0 == ds && SubString(g, rs, ss).1.cf == h.cf
    decreases |ds|
  {
    hide AdcDaa, SbbDas, Packed;
    AdditionIsDecimal(f, ds, ss);
    if ds != [] {
      StepUndone(f, g, ds[0], ss[0]);
      var (r, f') := AdcDaa(f, ds[0], ss[0]);
      var rest := AddString(f', ds[1..], ss[1..]).0;
      assert ([r] + rest)[1..] == rest;
      SubtractionUndoesAddition(f', SbbDas(g, r, ss[0]).1, ds[1..], ss[1..]);
    }
  }
}
