/** Multiplication and division on AL/AH, AX/DX and EAX/EDX (prim_ops.c). */
module MulDiv {
  import opened Words
  import opened Bits
  import opened Parity
  import opened Machine
  import opened Arithmetic

  // ---- the double-width register pair ----

  /** AL, AX or EAX */
  function AccLow(w: Bitness, g: Regs): (r: u32)
    ensures r < Span(w)
  {
    if w == 8 then g.eax % 0x100 else if w == 16 then Lo16(g.eax) else g.eax
  }

  /** AH, DX or EDX */
  function AccHigh(w: Bitness, g: Regs): (r: u32)
    ensures r < Span(w)
  {
    if w == 8 then g.eax / 0x100 % 0x100 else if w == 16 then Lo16(g.edx) else g.edx
  }

  function SetPair(w: Bitness, g: Regs, lo: u32, hi: u32): Regs
    requires lo < Span(w) && hi < Span(w)
  {
    if w == 8 then g.(eax := SetLo16(g.eax, Word(lo, hi)))
    else if w == 16 then g.(eax := SetLo16(g.eax, lo), edx := SetLo16(g.edx, hi))
    else g.(eax := lo, edx := hi)
  }

  lemma BytesBack(x: u32, lo: u8, hi: u8)
    ensures var y := SetLo16(x, Word(lo, hi));
      y % 0x1_0000 == Word(lo, hi) && y % 0x100 == lo && y / 0x100 % 0x100 == hi
  {
    var q := x / 0x1_0000;
    var y := SetLo16(x, Word(lo, hi));
    assert y == 0x1_0000 * q + 0x100 * hi + lo;
    DivUnique(y, 0x1_0000, q, 0x100 * hi + lo);
    DivUnique(y, 0x100, 0x100 * q + hi, lo);
    DivUnique(0x100 * q + hi, 0x100, q, hi);
  }

  lemma PairIs(w: Bitness, g: Regs, lo: u32, hi: u32)
    requires lo < Span(w) && hi < Span(w)
    ensures AccLow(w, SetPair(w, g, lo, hi)) == lo && AccHigh(w, SetPair(w, g, lo, hi)) == hi
  {
    hide SetLo16, Word;
    if w == 8 {
      BytesBack(g.eax, lo, hi);
    } else if w == 16 {
      BytesBack(g.eax, lo % 0x100, lo / 0x100);
      BytesBack(g.edx, hi % 0x100, hi / 0x100);
      WordSplits(lo);
      WordSplits(hi);
    }
  }

  lemma WordSplits(x: u16)
    ensures Word(x % 0x100, x / 0x100) == x
  {
  }

  /** The pair as one number, unsigned and in two's complement. */
  function Pair(w: Bitness, g: Regs): nat { AccLow(w, g) + Span(w) * AccHigh(w, g) }

  function SignedPair(w: Bitness, g: Regs): int { AccLow(w, g) + Span(w) * Signed(w, AccHigh(w, g)) }

  // ---- multiplication ----

  /** ZF from the whole product, SF and PF from its low half, CF = OF = `over`. */
  function MulFlags(f: Flags, w: Bitness, zero: bool, lo: nat, over: bool): Flags {
    ResultFlags(f, w, lo).(zf := zero, cf := over, of := over, af := false)
  }

  /** Does a number fit the operand width, unsigned and signed? */
  predicate QuotientFits(w: Bitness, p: int) { 0 <= p < Span(w) }

  predicate FitsSigned(w: Bitness, p: int) { 0 <= 2 * p + Span(w) && 2 * p < Span(w) }

  /** The two halves of a product, negative ones in two's complement. */
  function Multiplied(w: Bitness, g: Regs, p: int): Regs {
    SetPair(w, g, p % Span(w), p / Span(w) % Span(w))
  }

  lemma MulMono(a: nat, b: nat, x: nat, y: nat)
    requires a <= x && b <= y
    ensures 0 <= a * b <= x * y
  {
    assert a * b <= a * y <= x * y;
  }

  lemma Cancel(p: nat, a: int, b: int)
    requires p > 0 && p * a < p * b
    ensures a < b
  {
    if a > b {
      MulGe(p, a - b);
    }
  }

  lemma QuotientBelow(x: int, p: nat, lo: int, hi: int)
    requires p > 0 && p * lo <= x < p * hi
    ensures lo <= x / p < hi
  {
    DivMod(x, p);
    Cancel(p, x / p, hi);
    Cancel(p, lo, x / p + 1);
  }

  lemma SignedIs(w: Bitness, x: int)
    requires FitsSigned(w, x)
    ensures Signed(w, x % Span(w)) == x
  {
    WrapBelow(x, Span(w));
  }

  /** The pair holds the product. */
  lemma MultipliedPair(w: Bitness, g: Regs, p: int)
    ensures 0 <= p < Span(w) * Span(w) ==> Pair(w, Multiplied(w, g, p)) == p
    ensures FitsSigned(w, p / Span(w)) ==> SignedPair(w, Multiplied(w, g, p)) == p
  {
    var n := Span(w);
    PairIs(w, g, p % n, p / n % n);
    hide SetPair, AccLow, AccHigh, Span;
    DivMod(p, n);
    if 0 <= p < n * n {
      QuotientBelow(p, n, 0, n);
      Wrap(p / n, n);
    }
    if FitsSigned(w, p / n) {
      SignedIs(w, p / n);
    }
  }

  lemma SignedProductRange(w: Bitness, a: nat, b: nat)
    requires a < Span(w) && b < Span(w)
    ensures FitsSigned(w, Signed(w, a) * Signed(w, b) / Span(w))
  {
    var n, m := Span(w), Span(w) / 2;
    var x, y := Signed(w, a), Signed(w, b);
    hide Span, Signed;
    assert -m <= x <= m && -m <= y <= m && n == 2 * m && m >= 1 by {
      SignedBounds(w, a);
      SignedBounds(w, b);
    }
    MulAbs(x, y, m);
    assert n * -m <= x * y < n * m by {
      assert n * m == 2 * (m * m) && n * -m == -(n * m);
      assert m * m > 0;
    }
    QuotientBelow(x * y, n, -m, m);
  }

  lemma SignedBounds(w: Bitness, a: nat)
    requires a < Span(w)
    ensures FitsSigned(w, Signed(w, a)) && Span(w) == 2 * (Span(w) / 2) && Span(w) >= 2
  {
  }

  lemma MulAbs(x: int, y: int, m: nat)
    requires 0 <= x + m <= 2 * m && 0 <= y + m <= 2 * m
    ensures 0 - m * m <= x * y <= m * m
  {
    var a, b := if x < 0 then -x else x, if y < 0 then -y else y;
    MulMono(a, b, m, m);
    assert x * y == a * b || x * y == -(a * b);
  }

  lemma {:induction false} OrZero(n: nat, x: nat, y: nat)
    requires x < Pow2(n) && y < Pow2(n)
    ensures Or(n, x, y) == 0 <==> x == 0 && y == 0
  {
    if n > 0 {
      OrZero(n - 1, x / 2, y / 2);
    }
  }

  // The flag tests of the code, on the halves of the product.

  lemma HighZero(w: Bitness, p: int)
    requires 0 <= p < Span(w) * Span(w)
    ensures p / Span(w) % Span(w) == 0 <==> QuotientFits(w, p)
  {
    hide Span;
    DivMod(p, Span(w));
    QuotientBelow(p, Span(w), 0, Span(w));
    Wrap(p / Span(w), Span(w));
  }

  lemma SignExtends(w: Bitness, p: int)
    ensures p / Pow2(w - 1) == 0 || p / Pow2(w - 1) == -1 <==> FitsSigned(w, p)
  {
    SpanIs(w);
    hide Span, Pow2;
    DivMod(p, Pow2(w - 1));
    if FitsSigned(w, p) {
      QuotientBelow(p, Pow2(w - 1), -1, 1);
    }
  }

  lemma HalvesZero(w: Bitness, p: int)
    requires FitsSigned(w, p / Span(w))
    ensures Or(w, p % Span(w), p / Span(w) % Span(w)) == 0 <==> p == 0
  {
    var n := Span(w);
    SpanIs(w);
    SignedIs(w, p / n);
    assert Signed(w, 0) == 0;
    hide Or, Span, Pow2, Signed;
    OrZero(w, p % n, p / n % n);
    DivMod(p, n);
  }

  lemma MulFlagsIs(f: Flags, w: Bitness, p: int, lo: u32, over: bool)
    requires lo == p % Span(w)
    ensures MulFlags(f, w, p == 0, lo, over) ==
      f.(zf := p == 0, sf := Bit(lo, w - 1) == 1, pf := EvenParity(U8(lo)), cf := over, of := over, af := false)
  {
    hide Bit, Ones, EvenParity;
    Wrap(lo, Span(w));
    SignBit(w, lo);
    EvenParityIs(U8(lo));
  }

  method Mul(emu: Emu, w: Bitness, s: u32)
    requires s < Span(w)
    modifies emu`gen, emu`f
    ensures var p := AccLow(w, old(emu.gen)) * s;
      && emu.gen == Multiplied(w, old(emu.gen), p)
      && emu.f == MulFlags(old(emu.f), w, p == 0, p % Span(w), !QuotientFits(w, p))
  {
    var res: nat := AccLow(w, emu.gen) * s;
    ProductRange(w, AccLow(w, emu.gen), s);
    PairIs(w, emu.gen, res % Span(w), res / Span(w) % Span(w));
    HighZero(w, res);
    emu.gen := SetPair(w, emu.gen, res % Span(w), res / Span(w) % Span(w));
    hide Or, SetPair, AccLow, AccHigh, Span, Bit, QuotientFits, MulFlags;
    var lo, over := AccLow(w, emu.gen), AccHigh(w, emu.gen) != 0;
    MulFlagsIs(emu.f, w, res, lo, over);
    emu.f := emu.f.(zf := res == 0, sf := Bit(lo, w - 1) == 1, pf := EvenParity(U8(lo)), cf := over, of := over,
      af := false);
  }

  lemma ProductRange(w: Bitness, a: nat, b: nat)
    requires a < Span(w) && b < Span(w)
    ensures 0 <= a * b < Span(w) * Span(w)
  {
    var n := Span(w);
    MulMono(a, b, n - 1, n - 1);
    assert (n - 1) * (n - 1) < n * n;
  }

  method Imul(emu: Emu, w: Bitness, s: u32)
    requires s < Span(w)
    modifies emu`gen, emu`f
    ensures var p := Signed(w, AccLow(w, old(emu.gen))) * Signed(w, s);
      && emu.gen == Multiplied(w, old(emu.gen), p)
      && emu.f == MulFlags(old(emu.f), w, p == 0, p % Span(w), !FitsSigned(w, p))
  {
    var res: int := Signed(w, AccLow(w, emu.gen)) * Signed(w, s);
    SignedProductRange(w, AccLow(w, emu.gen), s);
    PairIs(w, emu.gen, res % Span(w), res / Span(w) % Span(w));
    SignExtends(w, res);
    HalvesZero(w, res);
    emu.gen := SetPair(w, emu.gen, res % Span(w), res / Span(w) % Span(w));
    hide Or, SetPair, AccLow, AccHigh, Span, Bit, FitsSigned, MulFlags, Signed, Pow2;
    var over := res / Pow2(w - 1) != 0 && res / Pow2(w - 1) != -1;
    var lo := AccLow(w, emu.gen);
    var zero := if w == 8 then res == 0 else Or(w, lo, AccHigh(w, emu.gen)) == 0;
    MulFlagsIs(emu.f, w, res, lo, over);
    emu.f := emu.f.(zf := zero, sf := Bit(lo, w - 1) == 1, pf := EvenParity(U8(lo)), cf := over, of := over,
      af := false);
  }

  // ---- division ----

  /** C's division and remainder truncate toward zero. */
  function TDiv(a: int, b: int): int
    requires b != 0
  {
    if a >= 0 then a / b else -(-a / b)
  }

  function TMod(a: int, b: int): int
    requires b != 0
  {
    a - b * TDiv(a, b)
  }

  function Abs(x: int): nat { if x < 0 then -x else x }

  /** `q` and `r` are the quotient and remainder of a division that truncates toward zero. */
  predicate Divides(a: int, b: int, q: int, r: int) {
    a == b * q + r && Abs(r) < Abs(b) && (r == 0 || (r < 0) == (a < 0))
  }

  lemma NegativeFactors(x: int, y: int)
    ensures (-x) * y == -(x * y) && x * (-y) == -(x * y) && (-x) * (-y) == x * y
  {
  }

  /** The quotient by a negative divisor. */
  lemma NegativeDivisor(x: nat, b: int)
    requires b < 0
    ensures x / b == -(x / -b)
  {
    var q, r := x / b, x % b;
    NegativeFactors(-b, q);
    assert x == b * q + r && 0 <= r < -b;
    DivUnique(x, -b, -q, r);
  }

  /** The quotient is that of the magnitudes, negative when the signs differ. */
  lemma TDivIs(a: int, b: int)
    requires b != 0
    ensures var q := Abs(a) / Abs(b); TDiv(a, b) == if (a < 0) != (b < 0) then -q else q
  {
    if b < 0 {
      NegativeDivisor(Abs(a), b);
    }
  }

  lemma TDivDivides(a: int, b: int)
    requires b != 0
    ensures Divides(a, b, TDiv(a, b), TMod(a, b))
  {
    hide TDiv;
    var q := Abs(a) / Abs(b);
    TDivIs(a, b);
    DivMod(Abs(a), Abs(b));
    NegativeFactors(b, q);
  }

  lemma SmallMultiple(b: nat, k: int)
    requires 0 < b * k + b < 2 * b
    ensures k == 0
  {
    if k > 0 {
      MulGe(b, k);
    } else if k < 0 {
      MulGe(b, -k);
    }
  }

  /** There is only one such pair. */
  lemma DividesUnique(a: int, b: int, q: int, r: int, q': int, r': int)
    requires b != 0 && Divides(a, b, q, r) && Divides(a, b, q', r')
    ensures q == q' && r == r'
  {
    if b > 0 {
      assert b * (q - q') == r' - r;
      SmallMultiple(b, q - q');
    } else {
      assert -b * (q' - q) == r' - r;
      SmallMultiple(-b, q' - q);
    }
  }

  /** INTR_RAISE_DIV0 */
  function DivFault(): Request { Raised(0, false, true, None) }

  /** The registers after div, or None where the code requests vector 0. */
  function Divided(w: Bitness, g: Regs, s: u32): Option<Regs>
    requires s < Span(w)
  {
    if s == 0 || Pair(w, g) / s >= Span(w) then None
    else
      RemainderFits(Pair(w, g), s);
      Some(SetPair(w, g, Pair(w, g) / s, Pair(w, g) % s))
  }

  /** The registers after idiv. */
  function SignedDivided(w: Bitness, g: Regs, s: u32): Option<Regs>
    requires s < Span(w)
  {
    var a, b := SignedPair(w, g), Signed(w, s);
    if s == 0 || !FitsSigned(w, TDiv(a, b)) then None
    else Some(SetPair(w, g, TDiv(a, b) % Span(w), TMod(a, b) % Span(w)))
  }

  lemma RemainderFits(a: nat, s: u32)
    requires s != 0
    ensures 0 <= a / s && 0 <= a % s < s
  {
    DivMod(a, s);
    Cancel(s, -1, a / s);
  }

  method Div(emu: Emu, w: Bitness, s: u32)
    requires s < Span(w)
    modifies emu`gen, emu`intr, emu`made
    ensures var g := Divided(w, old(emu.gen), s);
      if g.Some? then emu.gen == g.value && emu.Line() == old(emu.Line())
      else emu.gen == old(emu.gen) && emu.Line() == Raise(old(emu.Line()), Raised(0, false, true, None))
  {
    hide SetPair, Pair;
    var dvd := Pair(w, emu.gen);
    if s == 0 {
      emu.IntrRaise(DivFault());
      return;
    }
    RemainderFits(dvd, s);
    var div, mod := dvd / s, dvd % s;
    if div > Span(w) - 1 {
      emu.IntrRaise(DivFault());
      return;
    }
    emu.gen := SetPair(w, emu.gen, div, mod);
  }

  /** The minimum dividend divided by -1 overflows C's type in the word and long forms. */
  predicate Overflows(w: Bitness, a: int, b: int) { w != 8 && b == -1 && 2 * a == -(Span(w) * Span(w)) }

  /** C's `/` and `%`, which yield anything when the quotient overflows. */
  method DivideC(w: Bitness, a: int, b: int) returns (div: int, mod: int)
    requires b != 0
    ensures !Overflows(w, a, b) ==> div == TDiv(a, b) && mod == TMod(a, b)
  {
    if Overflows(w, a, b) {
      div, mod := *, *;
    } else {
      div, mod := TDiv(a, b), TMod(a, b);
    }
  }

  /** What idiv does with the quotient `div` and the remainder `mod` of C: the new registers, or None for a fault. */
  function SignedStored(w: Bitness, g: Regs, div: int, mod: int): Option<Regs> {
    if FitsSigned(w, div) then Some(SetPair(w, g, div % Span(w), mod % Span(w))) else None
  }

  /** `div` and `mod` are what C's division yields, which matters only where it is undefined. */
  method Idiv(emu: Emu, w: Bitness, s: u32) returns (ghost div: int, ghost mod: int)
    requires s < Span(w)
    modifies emu`gen, emu`intr, emu`made
    ensures
      var g0 := old(emu.gen);
      var over := Overflows(w, SignedPair(w, g0), Signed(w, s));
      var g := if over then SignedStored(w, g0, div, mod) else SignedDivided(w, g0, s);
      if g.Some? then emu.gen == g.value && emu.Line() == old(emu.Line())
      else emu.gen == g0 && emu.Line() == Raise(old(emu.Line()), Raised(0, false, true, None))
  {
    hide SetPair, SignedPair, Pow2, TDiv, TMod, Overflows;
    div, mod := 0, 0;
    var dvd := SignedPair(w, emu.gen);
    ZeroDivisor(w, dvd, s);
    if s == 0 {
      emu.IntrRaise(DivFault());
      return;
    }
    hide FitsSigned;
    var q, r := DivideC(w, dvd, Signed(w, s));
    div, mod := q, r;
    SignExtends(w, q);
    if q / Pow2(w - 1) != 0 && q / Pow2(w - 1) != -1 {
      emu.IntrRaise(DivFault());
      return;
    }
    emu.gen := SetPair(w, emu.gen, q % Span(w), r % Span(w));
  }

  lemma ZeroDivisor(w: Bitness, a: int, s: u32)
    requires s < Span(w)
    ensures Signed(w, s) == 0 <==> s == 0
    ensures s == 0 ==> !Overflows(w, a, Signed(w, s))
  {
  }

  /** What C's division may yield. */
  predicate Yields(w: Bitness, a: int, b: int, div: int, mod: int)
    requires b != 0
  {
    !Overflows(w, a, b) ==> div == TDiv(a, b) && mod == TMod(a, b)
  }

  /** idiv does what truncating division says, whatever C's division yields. */
  ghost predicate IdivSure(w: Bitness, g: Regs, s: u32)
    requires s < Span(w) && Signed(w, s) != 0
  {
    forall div: int, mod: int :: Yields(w, SignedPair(w, g), Signed(w, s), div, mod) ==>
      SignedStored(w, g, div, mod) == SignedDivided(w, g, s)
  }

  /** The quotient that overflows C's type does not fit the register either. */
  lemma OverflowFaults(w: Bitness, g: Regs, s: u32)
    requires s < Span(w) && Overflows(w, SignedPair(w, g), Signed(w, s))
    ensures SignedDivided(w, g, s) == None && SignedStored(w, g, 0, 0).Some?
  {
    var a := SignedPair(w, g);
    SpanSquare(w);
    TDivIs(a, -1);
    DivUnique(Abs(a), 1, Abs(a), 0);
  }

  /** Theorem: that is so if and only if the dividend is not the minimum or the divisor not -1. */
  lemma IdivIsSure(w: Bitness, g: Regs, s: u32)
    requires s < Span(w) && Signed(w, s) != 0
    ensures IdivSure(w, g, s) <==> !Overflows(w, SignedPair(w, g), Signed(w, s))
  {
    hide Overflows, SetPair, SignedPair, TDiv, TMod, FitsSigned;
    ZeroDivisor(w, SignedPair(w, g), s);
    if Overflows(w, SignedPair(w, g), Signed(w, s)) {
      OverflowFaults(w, g, s);
      assert Yields(w, SignedPair(w, g), Signed(w, s), 0, 0);
    }
  }

  /** Concretely: DX:AX = 0x80000000 by 0xffff is due a fault, but a result is stored when C's division yields 0. */
  lemma IdivFails(g: Regs)
    requires g.edx == 0x8000 && g.eax == 0
    ensures SignedDivided(16, g, 0xffff) == None && SignedStored(16, g, 0, 0).Some?
  {
    OverflowFaults(16, g, 0xffff);
  }

  // ---- what the quotients mean ----

  /** Theorem: div delivers the quotient and remainder exactly when a quotient fits, and faults otherwise. */
  lemma DivIsExact(w: Bitness, g: Regs, s: u32)
    requires s < Span(w)
    ensures var r := Divided(w, g, s);
      && (r.Some? ==> s != 0 && Pair(w, g) == s * AccLow(w, r.value) + AccHigh(w, r.value) && AccHigh(w, r.value) < s)
      && (r.None? ==> forall q: nat, m: nat :: Divides(Pair(w, g), s, q, m) ==> !QuotientFits(w, q))
  {
    hide SetPair, AccLow, AccHigh, Pair;
    var a := Pair(w, g);
    if s != 0 {
      RemainderFits(a, s);
      DivMod(a, s);
      if a / s < Span(w) {
        PairIs(w, g, a / s, a % s);
      } else {
        forall q: nat, m: nat | Divides(a, s, q, m) ensures !QuotientFits(w, q) {
          DivUnique(a, s, q, m);
        }
      }
    }
  }

  /** Theorem: the same for idiv and truncation toward zero. */
  lemma IdivIsExact(w: Bitness, g: Regs, s: u32)
    requires s < Span(w)
    ensures var r := SignedDivided(w, g, s); var b := Signed(w, s);
      && (r.Some? ==>
        b != 0 && Divides(SignedPair(w, g), b, Signed(w, AccLow(w, r.value)), Signed(w, AccHigh(w, r.value))))
      && (r.None? && b != 0 ==> forall q: int, m: int :: Divides(SignedPair(w, g), b, q, m) ==> !FitsSigned(w, q))
  {
    SignedZero(w, s);
    SignedBounds(w, s);
    hide SetPair, AccLow, AccHigh, SignedPair, Signed, TDiv, TMod;
    var a, b := SignedPair(w, g), Signed(w, s);
    if b != 0 {
      TDivDivides(a, b);
      var q, m := TDiv(a, b), TMod(a, b);
      if FitsSigned(w, q) {
        SignedIs(w, q);
        SignedIs(w, m);
        hide Divides, FitsSigned;
        RangeOf(w, q);
        RangeOf(w, m);
        PairIs(w, g, q % Span(w), m % Span(w));
      } else {
        forall q', m' | Divides(a, b, q', m') ensures !FitsSigned(w, q') {
          DividesUnique(a, b, q, m, q', m');
        }
      }
    }
  }

  lemma SignedZero(w: Bitness, s: nat)
    requires s < Span(w)
    ensures Signed(w, s) == 0 <==> s == 0
  {
  }

  lemma RangeOf(w: Bitness, x: int)
    ensures 0 <= x % Span(w) < Span(w)
  {
  }

  // ---- multiplication undone ----

  /** Theorem: mul then div by the same operand restores the accumulator, with remainder 0 and no fault. */
  lemma MulThenDiv(w: Bitness, g: Regs, s: u32)
    requires 0 < s < Span(w)
    ensures var r := Divided(w, Multiplied(w, g, AccLow(w, g) * s), s);
      r.Some? && AccLow(w, r.value) == AccLow(w, g) && AccHigh(w, r.value) == 0
  {
    var a := AccLow(w, g);
    hide SetPair, AccLow, AccHigh, Pair, Multiplied, Span;
    ProductRange(w, a, s);
    MultipliedPair(w, g, a * s);
    DivUnique(a * s, s, a, 0);
    PairIs(w, Multiplied(w, g, a * s), a, 0);
  }

  /** Theorem: the same for imul and idiv; the quotient that C leaves undefined does not arise. */
  lemma ImulThenIdiv(w: Bitness, g: Regs, s: u32)
    requires 0 < s < Span(w)
    ensures var h := Multiplied(w, g, Signed(w, AccLow(w, g)) * Signed(w, s));
      var r := SignedDivided(w, h, s);
      && !Overflows(w, SignedPair(w, h), Signed(w, s))
      && r.Some? && AccLow(w, r.value) == AccLow(w, g) && AccHigh(w, r.value) == 0
  {
    var x, b := Signed(w, AccLow(w, g)), Signed(w, s);
    var h := Multiplied(w, g, x * b);
    SignedZero(w, s);
    SignedBounds(w, AccLow(w, g));
    assert AccLow(w, g) == x % Span(w) by {
      WrapBelow(x, Span(w));
    }
    hide SetPair, AccLow, AccHigh, SignedPair, Multiplied, Signed, TDiv, TMod;
    SignedProductRange(w, AccLow(w, g), s);
    MultipliedPair(w, g, x * b);
    TDivDivides(x * b, b);
    DividesUnique(x * b, b, TDiv(x * b, b), TMod(x * b, b), x, 0);
    RangeOf(w, x);
    PairIs(w, h, x % Span(w), 0);
    if b == -1 {
      assert x * b == -x;
      SpanSquare(w);
    }
  }

  lemma SpanSquare(w: Bitness)
    ensures Span(w) * Span(w) > 2 * Span(w)
  {
  }

  /** Only the accumulator of the width differs: AX, or AX and DX, or EAX and EDX. */
  predicate RestKept(w: Bitness, g: Regs, h: Regs) {
    && h == g.(eax := h.eax, edx := h.edx)
    && (w == 8 ==> h.edx == g.edx)
    && (w != 32 ==> h.eax / 0x1_0000 == g.eax / 0x1_0000 && h.edx / 0x1_0000 == g.edx / 0x1_0000)
  }

  lemma SetPairKeeps(w: Bitness, g: Regs, lo: u32, hi: u32)
    requires lo < Span(w) && hi < Span(w)
    ensures RestKept(w, g, SetPair(w, g, lo, hi))
  {
    hide SetLo16, Word;
    if w == 8 {
      SetLo16Is(g.eax, Word(lo, hi));
    } else if w == 16 {
      SetLo16Is(g.eax, lo);
      SetLo16Is(g.edx, hi);
    }
  }

  /** Theorem: multiplication and division write no register, and no half of one, besides the pair they are about. */
  lemma ResultsKeepRest(w: Bitness, g: Regs, s: u32, p: int)
    requires s < Span(w)
    ensures RestKept(w, g, Multiplied(w, g, p))
    ensures Divided(w, g, s).Some? ==> RestKept(w, g, Divided(w, g, s).value)
    ensures SignedDivided(w, g, s).Some? ==> RestKept(w, g, SignedDivided(w, g, s).value)
  {
    hide SetPair, Pair, SignedPair, RestKept, TDiv, TMod, FitsSigned, Signed;
    RangeOf(w, p);
    RangeOf(w, p / Span(w));
    SetPairKeeps(w, g, p % Span(w), p / Span(w) % Span(w));
    if s != 0 {
      RemainderFits(Pair(w, g), s);
      if Pair(w, g) / s < Span(w) {
        SetPairKeeps(w, g, Pair(w, g) / s, Pair(w, g) % s);
      }
      SignedZero(w, s);
      var a, b := SignedPair(w, g), Signed(w, s);
      RangeOf(w, TDiv(a, b));
      RangeOf(w, TMod(a, b));
      SetPairKeeps(w, g, TDiv(a, b) % Span(w), TMod(a, b) % Span(w));
    }
  }
}
