/**
What accesses do to the bytes around them. Reads change no byte of any memory. The laws about writes hold for memories
in which no two addresses are mapped to the same host byte (`Separate`); an unmapped byte never shares its storage.
*/
module MemoryLaws {
  import opened Bits
  import opened FlatMemory
  import opened Words

  ghost predicate Separate(f: FlatMem) {
    forall a: u32, b: u32 :: a != b && f.cells[a].loc.Some? && f.cells[b].loc.Some? ==>
      f.cells[a].loc.value != f.cells[b].loc.value
  }

  /** Same mapping, same permissions, and what was initialised still is: what no access ever changes. */
  ghost predicate SameLayout(f: FlatMem, g: FlatMem) {
    forall a: u32 ::
      g.cells[a].loc == f.cells[a].loc && Perms(Attr(g, a)) == Perms(Attr(f, a)) && (IsValid(f, a) ==> IsValid(g, a))
  }

  function Perms(x: bv8): bv8 { x & PERM_RWX }

  predicate IsValid(f: FlatMem, a: u32) { Has(Attr(f, a), PERM_VALID) }

  predicate Ready(f: FlatMem, a: u32) { CanRead(f, a) && IsValid(f, a) }

  predicate CanRead(f: FlatMem, a: u32) { Has(Attr(f, a), PERM_R) }

  predicate CanWrite(f: FlatMem, a: u32) { Has(Attr(f, a), PERM_W) }

  lemma PermsFix(x: bv8, y: bv8)
    requires Perms(x) == Perms(y)
    ensures Has(x, PERM_R) == Has(y, PERM_R) && Has(x, PERM_W) == Has(y, PERM_W) && Has(x, PERM_X) == Has(y, PERM_X)
  {
    assert x & PERM_RWX & PERM_R == x & PERM_R && y & PERM_RWX & PERM_R == y & PERM_R;
    assert x & PERM_RWX & PERM_W == x & PERM_W && y & PERM_RWX & PERM_W == y & PERM_W;
    assert x & PERM_RWX & PERM_X == x & PERM_X && y & PERM_RWX & PERM_X == y & PERM_X;
  }

  lemma TouchKeepsPerms(x: bv8, e: Event)
    ensures Perms(Touch(x, e)) == Perms(x)
    ensures Has(x, PERM_VALID) || Stored(x, e).Some? ==> Has(Touch(x, e), PERM_VALID)
  {
  }

  /** One byte event: the mark lands on that byte alone, and so does the data, if any is stored. */
  lemma StepLaw(f: FlatMem, a: u32, e: Event)
    requires Separate(f) || Stored(Attr(f, a), e).None?
    ensures var g := Step(f, a, e);
      && (Separate(f) ==> Separate(g)) && SameLayout(f, g)
      && (forall b: u32 ::
        Data(g, b) == if b == a && Stored(Attr(f, a), e).Some? then Stored(Attr(f, a), e).value else Data(f, b))
      && (forall b: u32 :: Attr(g, b) == if b == a then Touch(Attr(f, a), e) else Attr(f, b))
      && g.invalid == (f.invalid || Fails(Attr(f, a), e))
      && (Stored(Attr(f, a), e).Some? ==> IsValid(g, a))
  {
    TouchKeepsPerms(Attr(f, a), e);
    hide Touch, Perms, Has, Fails, Stored;
  }

  lemma SameLayoutTrans(f: FlatMem, g: FlatMem, h: FlatMem)
    requires SameLayout(f, g) && SameLayout(g, h)
    ensures SameLayout(f, h)
  {
    hide Perms;
  }

  /** Clearing the error flag before an access touches no byte. */
  lemma Quiet(f: FlatMem)
    ensures var g := f.(invalid := false); (Separate(f) ==> Separate(g)) && SameLayout(f, g) && SameData(f, g)
  {
    hide Perms, Has;
  }

  lemma LayoutSeparate(f: FlatMem, g: FlatMem)
    requires SameLayout(f, g) && Separate(f)
    ensures Separate(g)
  {
    hide Perms, Has;
    forall a: u32 ensures g.cells[a].loc == f.cells[a].loc {
    }
  }

  lemma LayoutPerms(f: FlatMem, g: FlatMem, a: u32)
    requires SameLayout(f, g)
    ensures CanRead(g, a) == CanRead(f, a) && CanWrite(g, a) == CanWrite(f, a)
  {
    PermsFix(Attr(f, a), Attr(g, a));
  }

  // ---- accesses of one, two or four bytes ----

  type Width = n: int | n == 1 || n == 2 || n == 4 witness 1

  function ReadN(f: FlatMem, a: u32, n: Width): (FlatMem, u32) {
    if n == 1 then RByte(f, a) else if n == 2 then RWord(f, a) else RDword(f, a)
  }

  function WriteN(f: FlatMem, a: u32, n: Width, v: u32): FlatMem {
    if n == 1 then WByte(f, a, v) else if n == 2 then WWord(f, a, v) else WDword(f, a, v)
  }

  /** `b` is one of the `n` bytes at `a`, counted modulo 2^32. */
  predicate Hit(a: u32, n: int, b: u32) { U32(b - a) < n }

  /** The low `n` bytes of a value. */
  function Low(v: u32, n: Width): u32 {
    if n == 1 then v % 0x100 else if n == 2 then v % 0x1_0000 else v
  }

  ghost predicate Writable(f: FlatMem, a: u32, n: Width) { forall b: u32 :: Hit(a, n, b) ==> CanWrite(f, b) }

  ghost predicate Readable(f: FlatMem, a: u32, n: Width) { forall b: u32 :: Hit(a, n, b) ==> CanRead(f, b) }

  ghost predicate SameDataOutside(f: FlatMem, g: FlatMem, a: u32, n: int) {
    forall b: u32 :: !Hit(a, n, b) ==> Data(g, b) == Data(f, b)
  }

  ghost predicate SameData(f: FlatMem, g: FlatMem) {
    forall b: u32 :: Data(g, b) == Data(f, b)
  }

  /** The same bytes, with the same permissions, and the same of them initialised. */
  ghost predicate SameCode(f: FlatMem, g: FlatMem) {
    SameData(f, g) && SameLayout(f, g) && SameLayout(g, f)
  }

  lemma SameCodeTrans(f: FlatMem, g: FlatMem, h: FlatMem)
    requires SameCode(f, g) && SameCode(g, h)
    ensures SameCode(f, h)
  {
    hide SameLayout, Data;
    SameLayoutTrans(f, g, h);
    SameLayoutTrans(h, g, f);
  }

  lemma SameCodeBack(f: FlatMem, g: FlatMem)
    requires SameCode(f, g)
    ensures SameCode(g, f)
  {
    hide SameLayout, Data;
  }

  lemma SameCodeSelf(f: FlatMem)
    ensures SameCode(f, f) && SameCode(f, f.(invalid := false)) && SameCode(f.(invalid := false), f)
  {
    hide Perms, Has;
  }

  /** The bytes at `a` hold the low bytes of `v`. */
  ghost predicate Holds(f: FlatMem, a: u32, n: Width, v: u32) {
    && Data(f, a) == U8(v)
    && (n > 1 ==> Data(f, U32(a + 1)) == U8(v / 0x100))
    && (n > 2 ==> Data(f, U32(a + 2)) == U8(v / 0x1_0000) && Data(f, U32(a + 3)) == U8(v / 0x100_0000))
  }

  lemma RByteLaw(f: FlatMem, a: u32)
    ensures var g := RByte(f, a).0; (Separate(f) ==> Separate(g)) && SameLayout(f, g) && SameData(f, g)
    ensures RByte(f, a).1 == if CanRead(f, a) then Data(f, a) else 0xff
    ensures CanRead(f, a) && IsValid(f, a) ==> RByte(f, a).0.invalid == f.invalid
  {
    StepLaw(f, a, Rd);
  }

  lemma WByteLaw(f: FlatMem, a: u32, v: u32)
    requires Separate(f)
    ensures var g := WByte(f, a, v);
      && Separate(g) && SameLayout(f, g) && SameDataOutside(f, g, a, 1)
      && (CanWrite(f, a) ==> Data(g, a) == U8(v) && IsValid(g, a) && g.invalid == f.invalid)
  {
    StepLaw(f, a, Wr(U8(v)));
  }

  lemma RWordLaw(f: FlatMem, a: u32)
    ensures var g := RWord(f, a).0; (Separate(f) ==> Separate(g)) && SameLayout(f, g) && SameData(f, g)
    ensures CanRead(f, a) && CanRead(f, U32(a + 1)) ==> RWord(f, a).1 == Word(Data(f, a), Data(f, U32(a + 1)))
    ensures Ready(f, a) && Ready(f, U32(a + 1)) ==> RWord(f, a).0.invalid == f.invalid
  {
    var g, a1 := RByte(f, a).0, U32(a + 1);
    RByteLaw(f, a);
    RByteLaw(g, a1);
    LayoutPerms(f, g, a1);
    hide RByte, CanRead, IsValid;
    SameLayoutTrans(f, g, RByte(g, a1).0);
  }

  lemma WWordLaw(f: FlatMem, a: u32, v: u32)
    requires Separate(f)
    ensures var g := WWord(f, a, v);
      && Separate(g) && SameLayout(f, g) && SameDataOutside(f, g, a, 2)
      && (CanWrite(f, a) && CanWrite(f, U32(a + 1)) ==>
            && Data(g, a) == U8(v) && Data(g, U32(a + 1)) == U8(v / 0x100)
            && IsValid(g, a) && IsValid(g, U32(a + 1)) && g.invalid == f.invalid)
  {
    var g, a1 := WByte(f, a, v), U32(a + 1);
    WByteLaw(f, a, v);
    WByteLaw(g, a1, v / 0x100);
    LayoutPerms(f, g, a1);
    hide WByte, CanWrite, IsValid;
    SameLayoutTrans(f, g, WByte(g, a1, v / 0x100));
  }

  lemma Wraps(a: u32)
    ensures U32(U32(a + 2) + 1) == U32(a + 3)
    ensures Hit(a, 2, a) && Hit(a, 2, U32(a + 1)) && Hit(U32(a + 2), 2, U32(a + 2)) && Hit(U32(a + 2), 2, U32(a + 3))
    ensures !Hit(U32(a + 2), 2, a) && !Hit(U32(a + 2), 2, U32(a + 1))
  {
  }

  lemma HitSplits(a: u32, b: u32)
    ensures Hit(a, 4, b) <==> Hit(a, 2, b) || Hit(U32(a + 2), 2, b)
  {
  }

  lemma RDwordLaw(f: FlatMem, a: u32)
    ensures var g := RDword(f, a).0; (Separate(f) ==> Separate(g)) && SameLayout(f, g) && SameData(f, g)
    ensures CanRead(f, a) && CanRead(f, U32(a + 1)) && CanRead(f, U32(a + 2)) && CanRead(f, U32(a + 3)) ==>
      RDword(f, a).1 == Dword(Word(Data(f, a), Data(f, U32(a + 1))), Word(Data(f, U32(a + 2)), Data(f, U32(a + 3))))
    ensures Ready(f, a) && Ready(f, U32(a + 1)) && Ready(f, U32(a + 2)) && Ready(f, U32(a + 3)) ==>
      RDword(f, a).0.invalid == f.invalid
  {
    hide RWord, CanRead, IsValid, U32;
    var g := RWord(f, a).0;
    Wraps(a);
    RWordLaw(f, a);
    RWordLaw(g, U32(a + 2));
    LayoutPerms(f, g, U32(a + 2));
    LayoutPerms(f, g, U32(a + 3));
    SameLayoutTrans(f, g, RWord(g, U32(a + 2)).0);
  }

  lemma WDwordLaw(f: FlatMem, a: u32, v: u32)
    requires Separate(f)
    ensures var g := WDword(f, a, v);
      && Separate(g) && SameLayout(f, g) && SameDataOutside(f, g, a, 4)
      && (CanWrite(f, a) && CanWrite(f, U32(a + 1)) && CanWrite(f, U32(a + 2)) && CanWrite(f, U32(a + 3)) ==>
            && Data(g, a) == U8(v) && Data(g, U32(a + 1)) == U8(v / 0x100)
            && Data(g, U32(a + 2)) == U8(v / 0x1_0000) && Data(g, U32(a + 3)) == U8(v / 0x100_0000)
            && IsValid(g, a) && IsValid(g, U32(a + 1)) && IsValid(g, U32(a + 2)) && IsValid(g, U32(a + 3))
            && g.invalid == f.invalid)
  {
    hide WWord, CanWrite, IsValid, U32, Hit;
    var g := WWord(f, a, v);
    Wraps(a);
    WWordLaw(f, a, v);
    WWordLaw(g, U32(a + 2), v / 0x1_0000);
    LayoutPerms(f, g, U32(a + 2));
    LayoutPerms(f, g, U32(a + 3));
    assert v / 0x1_0000 / 0x100 == v / 0x100_0000;
    SameLayoutTrans(f, g, WWord(g, U32(a + 2), v / 0x1_0000));
    forall b: u32 | !Hit(a, 4, b) ensures Data(WDword(f, a, v), b) == Data(f, b) {
      HitSplits(a, b);
    }
  }

  /** A read of any width changes no byte and no permission. */
  lemma ReadLaw(f: FlatMem, a: u32, n: Width)
    ensures var g := ReadN(f, a, n).0; (Separate(f) ==> Separate(g)) && SameLayout(f, g) && SameData(f, g)
  {
    hide RByte, RWord, RDword;
    if n == 1 {
      RByteLaw(f, a);
    } else if n == 2 {
      RWordLaw(f, a);
    } else {
      RDwordLaw(f, a);
    }
  }

  lemma HitAt(a: u32, n: Width, k: nat)
    requires k < n
    ensures Hit(a, n, U32(a + k)) && U32(a + 0) == a
  {
  }

  lemma HitIs(a: u32, n: Width, b: u32)
    requires Hit(a, n, b)
    ensures b == U32(a + 0) || (n > 1 && b == U32(a + 1)) || (n > 2 && (b == U32(a + 2) || b == U32(a + 3)))
  {
  }

  /** A permitted write stores the low bytes of the value and nothing else. */
  lemma WriteLaw(f: FlatMem, a: u32, n: Width, v: u32)
    requires Separate(f)
    ensures var g := WriteN(f, a, n, v); Separate(g) && SameLayout(f, g) && SameDataOutside(f, g, a, n)
    ensures Writable(f, a, n) ==> Holds(WriteN(f, a, n, v), a, n, v) && WriteN(f, a, n, v).invalid == f.invalid
    ensures Writable(f, a, n) ==> forall b: u32 :: Hit(a, n, b) ==> IsValid(WriteN(f, a, n, v), b)
  {
    hide WByte, WWord, WDword, Hit, U32, CanWrite, IsValid;
    forall b: u32 | Hit(a, n, b)
      ensures b == U32(a + 0) || (n > 1 && b == U32(a + 1)) || (n > 2 && (b == U32(a + 2) || b == U32(a + 3))) {
      HitIs(a, n, b);
    }
    HitAt(a, n, 0);
    if n == 1 {
      WByteLaw(f, a, v);
    } else if n == 2 {
      HitAt(a, n, 1);
      WWordLaw(f, a, v);
    } else {
      HitAt(a, n, 1);
      HitAt(a, n, 2);
      HitAt(a, n, 3);
      WDwordLaw(f, a, v);
    }
  }

  /** The low two bytes of a number, put together again. */
  lemma LowHalf(v: nat)
    ensures v % 0x100 + 0x100 * (v / 0x100 % 0x100) == v % 0x1_0000
    ensures v / 0x100 / 0x100 == v / 0x1_0000
  {
    var a := v / 0x100;
    DivMod(v, 0x100);
    DivMod(a, 0x100);
    DivUnique(v, 0x1_0000, a / 0x100, v % 0x100 + 0x100 * (a % 0x100));
  }

  lemma ThirdQuotient(v: nat)
    ensures v / 0x1_0000 / 0x100 == v / 0x100_0000
  {
    DivMod(v, 0x1_0000);
    DivMod(v / 0x1_0000, 0x100);
    DivUnique(v, 0x100_0000, v / 0x1_0000 / 0x100, v % 0x1_0000 + 0x1_0000 * (v / 0x1_0000 % 0x100));
  }

  lemma LowWord(v: u32)
    ensures Word(U8(v), U8(v / 0x100)) == v % 0x1_0000
  {
    LowHalf(v);
  }

  lemma HighWord(v: u32)
    ensures Word(U8(v / 0x1_0000), U8(v / 0x100_0000)) == v / 0x1_0000
  {
    hide U8;
    ThirdQuotient(v);
    TopHalf(v);
    LowWord(v / 0x1_0000);
  }

  lemma TopHalf(v: u32)
    ensures 0 <= v / 0x1_0000 < 0x1_0000 && v / 0x1_0000 % 0x1_0000 == v / 0x1_0000
  {
    DivMod(v, 0x1_0000);
    DivUnique(v / 0x1_0000, 0x1_0000, 0, v / 0x1_0000);
  }

  lemma Reassembles(v: u32)
    ensures Word(U8(v), U8(v / 0x100)) == v % 0x1_0000
    ensures Dword(Word(U8(v), U8(v / 0x100)), Word(U8(v / 0x1_0000), U8(v / 0x100_0000))) == v
  {
    hide U8, Word;
    LowWord(v);
    HighWord(v);
    DivMod(v, 0x1_0000);
  }

  /** A permitted read delivers what the bytes hold. */
  lemma ReadBack(f: FlatMem, a: u32, n: Width, v: u32)
    requires Readable(f, a, n) && Holds(f, a, n, v)
    ensures ReadN(f, a, n).1 == Low(v, n)
    ensures (forall b: u32 :: Hit(a, n, b) ==> IsValid(f, b)) ==> ReadN(f, a, n).0.invalid == f.invalid
  {
    hide RByte, RWord, RDword, Hit, U32, U8, CanRead, IsValid, Word, Dword;
    HitAt(a, n, 0);
    Reassembles(v);
    LowByte(v);
    if n == 1 {
      RByteLaw(f, a);
    } else if n == 2 {
      HitAt(a, n, 1);
      RWordLaw(f, a);
    } else {
      HitAt(a, n, 1);
      HitAt(a, n, 2);
      HitAt(a, n, 3);
      RDwordLaw(f, a);
    }
  }

  lemma LowByte(v: u32)
    ensures U8(v) == v % 0x100
  {
  }

  /** What bytes hold survives whatever leaves those bytes alone. */
  lemma HoldsElsewhere(f: FlatMem, g: FlatMem, a: u32, n: Width, v: u32)
    requires Holds(f, a, n, v) && forall b: u32 :: Hit(a, n, b) ==> Data(g, b) == Data(f, b)
    ensures Holds(g, a, n, v)
  {
    hide U32, Hit;
    HitAt(a, n, 0);
    if n > 1 {
      HitAt(a, n, 1);
    }
    if n > 2 {
      HitAt(a, n, 2);
      HitAt(a, n, 3);
    }
  }

  /** Write then read: the value comes back, and the read does not fail. */
  lemma WriteThenRead(f: FlatMem, a: u32, n: Width, v: u32)
    requires Separate(f) && Writable(f, a, n) && Readable(f, a, n) && !f.invalid
    ensures var g := WriteN(f, a, n, v);
      ReadN(g, a, n).1 == Low(v, n) && !ReadN(g, a, n).0.invalid
  {
    WriteLaw(f, a, n, v);
    forall b: u32 | Hit(a, n, b) ensures CanRead(WriteN(f, a, n, v), b) {
      LayoutPerms(f, WriteN(f, a, n, v), b);
    }
    ReadBack(WriteN(f, a, n, v), a, n, v);
  }
}
