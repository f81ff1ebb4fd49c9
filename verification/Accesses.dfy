/** What one memory access reports, delivers and stores, byte by byte, in terms of the memory before it. */
module Accesses {
  import opened Words
  import opened FlatMemory
  import opened MemoryLaws
  import opened MemoryTraces

  /** The bytes an access touches. */
  function Count(size: Size): Width { if size == 1 then 2 else if size == 2 then 4 else 1 }

  predicate CanExecute(f: FlatMem, a: u32) { Has(Attr(f, a), PERM_X) }

  /** The byte has the permission the access needs. */
  predicate Allowed(f: FlatMem, a: u32, kind: Kind) {
    match kind
    case KRead => CanRead(f, a)
    case KWrite => CanWrite(f, a)
    case KExec => CanExecute(f, a)
  }

  /** The byte is what an access must not touch: no permission, or read or fetched before anything was stored. */
  predicate Faulty(f: FlatMem, a: u32, kind: Kind) { !Allowed(f, a, kind) || (kind != KWrite && !IsValid(f, a)) }

  /** Byte `i` of a value. */
  function ByteOf(v: u32, i: nat): u8 {
    if i == 0 then v % 0x100 else if i == 1 then v / 0x100 % 0x100
    else if i == 2 then v / 0x1_0000 % 0x100 else v / 0x100_0000 % 0x100
  }

  /** What a read or fetch shows of a byte. */
  function Shown(f: FlatMem, a: u32, kind: Kind): u8 { if Allowed(f, a, kind) then Data(f, a) else 0xff }

  // ---- failure ----

  lemma StepFails(f: FlatMem, a: u32, e: Event)
    ensures var g := Step(f, a, e);
      && g.invalid == (f.invalid || Fails(Attr(f, a), e))
      && forall b: u32 :: b != a ==> Attr(g, b) == Attr(f, b)
  {
    hide Touch, Fails, Stored;
  }

  lemma WordFails(f: FlatMem, a: u32, e0: Event, e1: Event)
    ensures var a1 := U32(a + 1); var g := Step(Step(f, a, e0), a1, e1);
      && g.invalid == (f.invalid || Fails(Attr(f, a), e0) || Fails(Attr(f, a1), e1))
      && forall b: u32 :: b != a && b != a1 ==> Attr(g, b) == Attr(f, b)
  {
    hide Step, Fails;
    StepFails(f, a, e0);
    StepFails(Step(f, a, e0), U32(a + 1), e1);
  }

  lemma DwordFails(f: FlatMem, a: u32, e0: Event, e1: Event, e2: Event, e3: Event)
    ensures var a1, a2, a3 := U32(a + 1), U32(a + 2), U32(a + 3);
      Step(Step(Step(Step(f, a, e0), a1, e1), a2, e2), a3, e3).invalid ==
      (f.invalid || Fails(Attr(f, a), e0) || Fails(Attr(f, a1), e1) || Fails(Attr(f, a2), e2) || Fails(Attr(f, a3), e3))
  {
    hide Step, Fails;
    var g := Step(Step(f, a, e0), U32(a + 1), e1);
    Wraps(a);
    WordFails(f, a, e0, e1);
    WordFails(g, U32(a + 2), e2, e3);
  }

  lemma EventFails(f: FlatMem, a: u32, kind: Kind, size: Size, v: u8)
    ensures kind != KExec || size != 3 ==>
      (Fails(Attr(f, a), EventOf(kind, size, v)) <==> size != 3 && Faulty(f, a, kind))
  {
  }

  lemma Cleared(f: FlatMem, a: u32, kind: Kind)
    ensures var g := f.(invalid := false); Faulty(g, a, kind) == Faulty(f, a, kind) && Attr(g, a) == Attr(f, a)
  {
  }

  /** The error bit from the bytes touched, one after the other. */
  lemma AccessErrors(f: FlatMem, addr: u32, val: u32, kind: Kind, size: Size)
    ensures MemIo(f, addr, val, kind, size).2 == (size != 3 &&
      (Faulty(f, addr, kind) || (size > 0 && Faulty(f, U32(addr + 1), kind))
        || (size > 1 && (Faulty(f, U32(addr + 2), kind) || Faulty(f, U32(addr + 3), kind)))))
  {
    AccessSteps(f, addr, val, kind, size);
    FlagIs(f, addr, val, kind, size);
    hide MemIo, Step, Fails, EventOf, Faulty, U8, U32;
    var g := f.(invalid := false);
    var a1, a2, a3 := U32(addr + 1), U32(addr + 2), U32(addr + 3);
    var hi := val / 0x1_0000;
    var v0, v1, v2, v3 := U8(val), U8(val / 0x100), U8(hi), U8(hi / 0x100);
    var e0, e1 := EventOf(kind, size, v0), EventOf(kind, size, v1);
    var e2, e3 := EventOf(kind, size, v2), EventOf(kind, size, v3);
    Wraps(addr);
    StepFails(g, addr, e0);
    WordFails(g, addr, e0, e1);
    DwordFails(g, addr, e0, e1, e2, e3);
    EventFails(g, addr, kind, size, v0);
    EventFails(g, a1, kind, size, v1);
    EventFails(g, a2, kind, size, v2);
    EventFails(g, a3, kind, size, v3);
    Cleared(f, addr, kind);
    Cleared(f, a1, kind);
    Cleared(f, a2, kind);
    Cleared(f, a3, kind);
  }

  lemma FlagIs(f: FlatMem, addr: u32, val: u32, kind: Kind, size: Size)
    ensures var r := MemIo(f, addr, val, kind, size); r.2 == r.0.invalid
    ensures kind == KExec && size == 3 ==> !MemIo(f, addr, val, kind, size).2
  {
    hide Step, Sees, RWord, RDword, XWord, XDword, WWord, WDword;
  }

  /**
  Theorem: an access fails exactly when some byte it touches lacks the permission it needs or, for reads and fetches,
  was never initialised; the accesses without permission check never fail.
  */
  lemma AccessFails(f: FlatMem, addr: u32, val: u32, kind: Kind, size: Size)
    ensures MemIo(f, addr, val, kind, size).2 <==>
      size != 3 && exists b: u32 :: Hit(addr, Count(size), b) && Faulty(f, b, kind)
  {
    AccessErrors(f, addr, val, kind, size);
    hide MemIo, Faulty, Hit, U32;
    var n := Count(size);
    forall b: u32 | Hit(addr, n, b)
      ensures b == addr || (n > 1 && b == U32(addr + 1)) || (n > 2 && (b == U32(addr + 2) || b == U32(addr + 3))) {
      HitIs(addr, n, b);
      HitAt(addr, n, 0);
    }
    HitAt(addr, n, 0);
    if n > 1 {
      HitAt(addr, n, 1);
    }
    if n > 2 {
      HitAt(addr, n, 2);
      HitAt(addr, n, 3);
    }
  }

  // ---- values read ----

  lemma LookMarks(x: bv8, kind: Kind, size: Size)
    requires kind != KWrite
    ensures var y := Touch(x, EventOf(kind, size, 0));
      Perms(y) == Perms(x) && Has(y, PERM_VALID) == Has(x, PERM_VALID)
  {
  }

  /** One byte read or fetched. */
  lemma ByteShown(f: FlatMem, a: u32, kind: Kind, size: Size)
    requires kind != KWrite
    ensures var e := EventOf(kind, size, 0);
      && SameCode(f, Step(f, a, e))
      && Sees(f, a, e) == if kind == KRead && size == 3 then Data(f, a) else Shown(f, a, kind)
  {
    LookMarks(Attr(f, a), kind, size);
    StepLaw(f, a, EventOf(kind, size, 0));
    hide Touch, Step, Data, Perms, Has;
  }

  /** The bytes an access shows, put together. */
  function Value(f: FlatMem, a: u32, n: Width, kind: Kind): u32 {
    var b0, b1 := Shown(f, a, kind), Shown(f, U32(a + 1), kind);
    if n == 1 then b0 else if n == 2 then Word(b0, b1)
    else Dword(Word(b0, b1), Word(Shown(f, U32(a + 2), kind), Shown(f, U32(a + 3), kind)))
  }

  lemma SameShown(f: FlatMem, g: FlatMem, kind: Kind)
    requires SameCode(f, g)
    ensures forall b: u32 :: Shown(g, b, kind) == Shown(f, b, kind) && Faulty(g, b, kind) == Faulty(f, b, kind)
    ensures forall a: u32, n: Width :: Value(g, a, n, kind) == Value(f, a, n, kind)
  {
    hide Has, Perms, Data, U32, Word, Dword;
    forall b: u32 ensures Shown(g, b, kind) == Shown(f, b, kind) && Faulty(g, b, kind) == Faulty(f, b, kind) {
      PermsFix(Attr(f, b), Attr(g, b));
    }
    hide Shown;
  }

  function ReadOne(f: FlatMem, a: u32, kind: Kind): (FlatMem, u32) {
    if kind == KRead then RByte(f, a) else XByte(f, a)
  }

  function ReadTwo(f: FlatMem, a: u32, kind: Kind): (FlatMem, u32) {
    if kind == KRead then RWord(f, a) else XWord(f, a)
  }

  lemma OneShown(f: FlatMem, a: u32, kind: Kind)
    requires kind != KWrite
    ensures var (g, v) := ReadOne(f, a, kind); v == Value(f, a, 1, kind) && SameCode(f, g)
  {
    ByteShown(f, a, kind, 0);
    hide Step, Sees, Shown, SameCode;
  }

  lemma TwoShown(f: FlatMem, a: u32, kind: Kind)
    requires kind != KWrite
    ensures var (g, v) := ReadTwo(f, a, kind); v == Value(f, a, 2, kind) && SameCode(f, g)
  {
    hide RByte, XByte, Shown, Word, SameCode;
    var g := ReadOne(f, a, kind).0;
    OneShown(f, a, kind);
    OneShown(g, U32(a + 1), kind);
    SameShown(f, g, kind);
    SameCodeTrans(f, g, ReadOne(g, U32(a + 1), kind).0);
  }

  lemma FourShown(f: FlatMem, a: u32, kind: Kind)
    requires kind != KWrite
    ensures var (g, v) := if kind == KRead then RDword(f, a) else XDword(f, a);
      v == Value(f, a, 4, kind) && SameCode(f, g)
  {
    hide RWord, XWord, Shown, Word, Dword, U32, SameCode;
    var g := ReadTwo(f, a, kind).0;
    Wraps(a);
    TwoShown(f, a, kind);
    TwoShown(g, U32(a + 2), kind);
    SameShown(f, g, kind);
    SameCodeTrans(f, g, ReadTwo(g, U32(a + 2), kind).0);
  }

  /** A checked read of any width. */
  lemma ReadShows(f: FlatMem, a: u32, n: Width)
    ensures var (g, v) := ReadN(f, a, n); v == Value(f, a, n, KRead) && SameCode(f, g)
  {
    hide RByte, RWord, RDword, Value, SameCode;
    OneShown(f, a, KRead);
    TwoShown(f, a, KRead);
    FourShown(f, a, KRead);
  }

  /**
  Theorem: a read or fetch delivers, byte by byte, what a permitted byte holds and 0xff for a denied one, and changes
  no byte and no permission; without permission check it delivers the byte itself.
  */
  lemma AccessReads(f: FlatMem, addr: u32, val: u32, kind: Kind, size: Size)
    requires kind != KWrite
    ensures size != 3 ==> MemIo(f, addr, val, kind, size).1 == Value(f, addr, Count(size), kind)
    ensures kind == KRead && size == 3 ==> MemIo(f, addr, val, kind, size).1 == Data(f, addr)
    ensures SameCode(f, MemIo(f, addr, val, kind, size).0)
  {
    hide RByte, RWord, RDword, XByte, XWord, XDword, Step, Value, SameCode;
    var g := f.(invalid := false);
    SameCodeSelf(f);
    SameCodeSelf(g);
    SameShown(f, g, kind);
    OneShown(g, addr, kind);
    TwoShown(g, addr, kind);
    FourShown(g, addr, kind);
    ByteShown(g, addr, kind, 3);
    ClearedData(f, addr);
    SameCodeTrans(f, g, MemIo(f, addr, val, kind, size).0);
  }

  lemma ClearedData(f: FlatMem, a: u32)
    ensures Data(f.(invalid := false), a) == Data(f, a)
  {
  }

  // ---- values written ----

  /** The byte is stored: it may be written, or nobody asks. */
  predicate Takes(f: FlatMem, a: u32, size: Size) { size == 3 || CanWrite(f, a) }

  lemma ByteStored(f: FlatMem, a: u32, size: Size, v: u8)
    requires Separate(f)
    ensures var g := Step(f, a, EventOf(KWrite, size, v));
      && Separate(g) && (forall b: u32 :: Takes(g, b, size) == Takes(f, b, size))
      && forall b: u32 :: Data(g, b) == if b == a && Takes(f, a, size) then v else Data(f, b)
  {
    var g := Step(f, a, EventOf(KWrite, size, v));
    StepLaw(f, a, EventOf(KWrite, size, v));
    hide Step, Has, Data, Touch, SameLayout, CanWrite;
    forall b: u32 ensures CanWrite(g, b) == CanWrite(f, b) {
      LayoutPerms(f, g, b);
    }
    WriteStores(f, a, size, v);
  }

  lemma WriteStores(f: FlatMem, a: u32, size: Size, v: u8)
    ensures Stored(Attr(f, a), EventOf(KWrite, size, v)) == if Takes(f, a, size) then Some(v) else None
  {
  }

  lemma WordStored(f: FlatMem, a: u32, size: Size, v0: u8, v1: u8)
    requires Separate(f)
    ensures var a1 := U32(a + 1);
      var g := Step(Step(f, a, EventOf(KWrite, size, v0)), a1, EventOf(KWrite, size, v1));
      && Separate(g) && (forall b: u32 :: Takes(g, b, size) == Takes(f, b, size))
      && (forall b: u32 :: Data(g, b) ==
           if !Takes(f, b, size) then Data(f, b) else if b == a then v0 else if b == a1 then v1 else Data(f, b))
  {
    hide Step, Separate, Takes, Data, EventOf;
    ByteStored(f, a, size, v0);
    ByteStored(Step(f, a, EventOf(KWrite, size, v0)), U32(a + 1), size, v1);
  }

  lemma DwordStored(f: FlatMem, a: u32, size: Size, v0: u8, v1: u8, v2: u8, v3: u8)
    requires Separate(f)
    ensures var a1, a2, a3 := U32(a + 1), U32(a + 2), U32(a + 3);
      var g := Step(Step(f, a, EventOf(KWrite, size, v0)), a1, EventOf(KWrite, size, v1));
      var h := Step(Step(g, a2, EventOf(KWrite, size, v2)), a3, EventOf(KWrite, size, v3));
      forall b: u32 :: Data(h, b) ==
        if !Takes(f, b, size) then Data(f, b) else if b == a then v0 else if b == a1 then v1
        else if b == a2 then v2 else if b == a3 then v3 else Data(f, b)
  {
    hide Step, Separate, Takes, Data, EventOf;
    var g := Step(Step(f, a, EventOf(KWrite, size, v0)), U32(a + 1), EventOf(KWrite, size, v1));
    Wraps(a);
    WordStored(f, a, size, v0, v1);
    WordStored(g, U32(a + 2), size, v2, v3);
  }

  /** Which byte of an access lies at `b`. */
  lemma ByteAt(a: u32, b: u32)
    ensures U32(b - a) == 0 <==> b == a
    ensures U32(b - a) == 1 <==> b == U32(a + 1)
    ensures U32(b - a) == 2 <==> b == U32(a + 2)
    ensures U32(b - a) == 3 <==> b == U32(a + 3)
  {
  }

  lemma ValueBytes(v: u32)
    ensures ByteOf(v, 0) == U8(v) && ByteOf(v, 1) == U8(v / 0x100) && ByteOf(v, 2) == U8(v / 0x1_0000)
    ensures ByteOf(v, 3) == U8(v / 0x1_0000 / 0x100)
  {
    ThirdQuotient(v);
  }

  /**
  Theorem: a write stores byte i of the value in the i-th byte it touches if that one may be written and leaves it
  alone otherwise, and changes no other byte; without permission check the byte is always stored.
  */
  lemma AccessWrites(f: FlatMem, addr: u32, val: u32, size: Size, b: u32)
    requires Separate(f)
    ensures Data(MemIo(f, addr, val, KWrite, size).0, b) ==
      if Hit(addr, Count(size), b) && (size == 3 || CanWrite(f, b)) then ByteOf(val, U32(b - addr)) else Data(f, b)
  {
    AccessSteps(f, addr, val, KWrite, size);
    ByteAt(addr, b);
    ValueBytes(val);
    ClearedTakes(f, b, size);
    hide MemIo, Step, Separate, Data, EventOf, U8, ByteOf, Takes;
    var g := f.(invalid := false);
    var hi := val / 0x1_0000;
    Wraps(addr);
    ByteStored(g, addr, size, U8(val));
    WordStored(g, addr, size, U8(val), U8(val / 0x100));
    DwordStored(g, addr, size, U8(val), U8(val / 0x100), U8(hi), U8(hi / 0x100));
  }

  lemma ClearedTakes(f: FlatMem, b: u32, size: Size)
    ensures var g := f.(invalid := false);
      && (Separate(f) ==> Separate(g)) && Data(g, b) == Data(f, b) && Takes(g, b, size) == Takes(f, b, size)
      && (Takes(f, b, size) <==> size == 3 || CanWrite(f, b))
  {
  }
}
