/**
What delivery and segment loads do, in terms of the bytes of the tables: which handler is entered, what lies on the
stack, what goes into a segment register, and what iret takes back.
*/
module Delivery {
  import opened Words
  import opened Bits
  import opened FlatMemory
  import opened MemoryLaws
  import opened Machine
  import opened Stack
  import opened Frames
  import opened Interrupts
  import opened Accesses

  // ---- the flags register ----

  /** A bit does not depend on what lies above it. */
  lemma LowBit(s: nat, m: nat, r: nat, p: nat, q: nat)
    requires p > 0 && 2 * p * q == m
    ensures (s + m * r) / p % 2 == s / p % 2
  {
    var k := s / p;
    DivMod(s, p);
    assert m * r == p * (2 * (q * r));
    assert p * (k + 2 * (q * r)) == p * k + p * (2 * (q * r));
    DivUnique(s + m * r, p, k + 2 * (q * r), s % p);
    DivUnique(k + 2 * (q * r), 2, k / 2 + q * r, k % 2);
  }

  lemma LowBits(s: nat, r: nat)
    ensures var x := s + 0x100 * r;
      && x % 2 == s % 2 && x / 2 % 2 == s / 2 % 2 && x / 4 % 2 == s / 4 % 2 && x / 8 % 2 == s / 8 % 2
      && x / 0x10 % 2 == s / 0x10 % 2 && x / 0x20 % 2 == s / 0x20 % 2 && x / 0x40 % 2 == s / 0x40 % 2
      && x / 0x80 % 2 == s / 0x80 % 2
  {
    DivUnique(s + 0x100 * r, 2, s / 2 + 0x80 * r, s % 2);
    LowBit(s, 0x100, r, 2, 0x40);
    LowBit(s, 0x100, r, 4, 0x20);
    LowBit(s, 0x100, r, 8, 0x10);
    LowBit(s, 0x100, r, 0x10, 8);
    LowBit(s, 0x100, r, 0x20, 4);
    LowBit(s, 0x100, r, 0x40, 2);
    LowBit(s, 0x100, r, 0x80, 1);
  }

  lemma StatusHalves(f: Flags)
    ensures var s := StatusBits(f);
      && (f.cf <==> s % 2 == 1) && (f.b1 <==> s / 2 % 2 == 1) && (f.pf <==> s / 4 % 2 == 1)
      && (f.b3 <==> s / 8 % 2 == 1) && (f.af <==> s / 0x10 % 2 == 1) && (f.b5 <==> s / 0x20 % 2 == 1)
      && (f.zf <==> s / 0x40 % 2 == 1) && (f.sf <==> s / 0x80 % 2 == 1)
  {
    hide StatusBits;
    StatusSplits(f);
    Halves(StatusBits(f));
  }

  lemma Halves(s: nat)
    requires s < 0x100
    ensures var s1 := s / 2; var s2 := s1 / 2; var s3 := s2 / 2; var s4 := s3 / 2; var s5 := s4 / 2; var s6 := s5 / 2;
      && s2 == s / 4 && s3 == s / 8 && s4 == s / 0x10 && s5 == s / 0x20 && s6 == s / 0x40 && s6 / 2 == s / 0x80
  {
  }

  lemma ControlBitsAre(f: Flags, r: nat)
    ensures var x := ControlBits(f) + 0x10 * r;
      && (f.tf <==> x % 2 == 1) && (f.ifl <==> x / 2 % 2 == 1) && (f.df <==> x / 4 % 2 == 1)
      && (f.of <==> x / 8 % 2 == 1) && r == x / 0x10
  {
    hide ControlBits;
    var c := ControlBits(f);
    ControlSplits(f);
    Halves(c);
    DivUnique(c + 0x10 * r, 2, c / 2 + 8 * r, c % 2);
    LowBit(c, 0x10, r, 2, 4);
    LowBit(c, 0x10, r, 4, 2);
    LowBit(c, 0x10, r, 8, 1);
    DivUnique(c + 0x10 * r, 0x10, r, c);
  }

  /** Theorem: the flags lie at their architectural bits (Intel 64 and IA-32 SDM, Vol. 1, section 3.4.3). */
  lemma FlagsLayout(f: Flags)
    ensures var w := FlagsWord(f);
      && (f.cf <==> w % 2 == 1) && (f.b1 <==> w / 2 % 2 == 1) && (f.pf <==> w / 4 % 2 == 1)
      && (f.b3 <==> w / 8 % 2 == 1) && (f.af <==> w / 0x10 % 2 == 1) && (f.b5 <==> w / 0x20 % 2 == 1)
      && (f.zf <==> w / 0x40 % 2 == 1) && (f.sf <==> w / 0x80 % 2 == 1)
    ensures var w := FlagsWord(f) / 0x100;
      && (f.tf <==> w % 2 == 1) && (f.ifl <==> w / 2 % 2 == 1) && (f.df <==> w / 4 % 2 == 1)
      && (f.of <==> w / 8 % 2 == 1) && f.high == w / 0x10
  {
    hide StatusBits, ControlBits, FlagsWord;
    var s, r := StatusBits(f), ControlBits(f) + 0x10 * f.high;
    FlagsOfWord(f);
    Unpacks(f);
    DivUnique(s + 0x100 * r, 0x100, r, s);
    StatusHalves(f);
    LowBits(s, r);
    ControlBitsAre(f, f.high);
  }

  // ---- descriptors, byte by byte ----

  function Entry(f: FlatMem, a: u32, k: nat): u8 { Data(f, U32(a + k)) }

  /** The eight bytes of a table entry can be read and are initialised. */
  ghost predicate Intact(f: FlatMem, a: u32) { forall b: u32 :: Hit(a, 8, b) ==> Ready(f, b) }

  /** The fields of the descriptor at `a`. */
  function DescrAt(f: FlatMem, a: u32): Descr {
    DescrOf(Entry(f, a, 0), Entry(f, a, 1), Entry(f, a, 2), Entry(f, a, 3), Entry(f, a, 4), Entry(f, a, 5),
            Entry(f, a, 6), Entry(f, a, 7))
  }

  function DescrOf(b0: u8, b1: u8, b2: u8, b3: u8, b4: u8, b5: u8, b6: u8, b7: u8): Descr {
    var limit := b0 + 0x100 * b1 + 0x1_0000 * (b6 % 0x10);
    Descr(b5 + 0x100 * (b6 / 0x10),
          b2 + 0x100 * b3 + 0x1_0000 * b4 + 0x100_0000 * b7,
          if b6 >= 0x80 then 0x1000 * limit + 0xfff else limit,
          b2 + 0x100 * b3,
          b0 + 0x100 * b1 + 0x1_0000 * b6 + 0x100_0000 * b7)
  }

  lemma LowDword(b0: u8, b1: u8, b2: u8, b3: u8)
    ensures var dl := Dword(Word(b0, b1), Word(b2, b3));
      dl % 0x1_0000 == b0 + 0x100 * b1 && dl / 0x1_0000 == b2 + 0x100 * b3
  {
    DivUnique(Dword(Word(b0, b1), Word(b2, b3)), 0x1_0000, b2 + 0x100 * b3, b0 + 0x100 * b1);
  }

  lemma HighDword(b4: u8, b5: u8, b6: u8, b7: u8)
    ensures var dh := Dword(Word(b4, b5), Word(b6, b7));
      && dh == b4 + 0x100 * b5 + 0x1_0000 * (b6 % 0x10) + 0x10_0000 * (b6 / 0x10) + 0x100_0000 * b7
      && dh / 0x1_0000 == b6 + 0x100 * b7
    ensures (b5 + 0x100 * (b6 / 0x10)) / 0x800 == b6 / 0x80
  {
    LowDword(b4, b5, b6, b7);
    DivUnique(b5 + 0x100 * (b6 / 0x10), 0x800, b6 / 0x80, b5 + 0x100 * (b6 / 0x10 % 8));
  }

  lemma DecodesBytes(b0: u8, b1: u8, b2: u8, b3: u8, b4: u8, b5: u8, b6: u8, b7: u8)
    ensures Decode(Dword(Word(b0, b1), Word(b2, b3)), Dword(Word(b4, b5), Word(b6, b7)))
      == DescrOf(b0, b1, b2, b3, b4, b5, b6, b7)
  {
    hide Word, Dword;
    LowDword(b0, b1, b2, b3);
    HighDword(b4, b5, b6, b7);
    HighFields(b4, b5, b6 % 0x10, b6 / 0x10, b7);
  }

  lemma HitEight(a: u32, b: u32)
    ensures Hit(a, 8, b) <==> Hit(a, 4, b) || Hit(U32(a + 4), 4, b)
  {
  }

  lemma Later(a: nat, k: nat, j: nat)
    ensures U32(U32(a + k) + j) == U32(a + (k + j))
  {
    DivMod(a + k, 0x1_0000_0000);
    DivMod(a + k + j, 0x1_0000_0000);
    DivUnique(U32(a + k) + j, 0x1_0000_0000, (a + k + j) / 0x1_0000_0000 - (a + k) / 0x1_0000_0000, U32(a + (k + j)));
  }

  /** A dword read that does not fail shows four bytes. */
  lemma ReadyValue(f: FlatMem, a: u32, k: nat)
    requires forall b: u32 :: Hit(U32(a + k), 4, b) ==> Ready(f, b)
    ensures Value(f, U32(a + k), 4, KRead) ==
      Dword(Word(Entry(f, a, k), Entry(f, a, k + 1)), Word(Entry(f, a, k + 2), Entry(f, a, k + 3)))
  {
    hide U32, Hit, Data, IsValid, Word, Dword;
    var c := U32(a + k);
    HitAt(c, 4, 0);
    HitAt(c, 4, 1);
    HitAt(c, 4, 2);
    HitAt(c, 4, 3);
    Later(a, k, 1);
    Later(a, k, 2);
    Later(a, k, 3);
    assert Ready(f, c) && Ready(f, U32(a + (k + 1))) && Ready(f, U32(a + (k + 2))) && Ready(f, U32(a + (k + 3)));
  }

  /** The code's read of a table entry: it fails exactly when some byte cannot be read, and decodes the bytes. */
  lemma ReadDescrLaw(s: St, a: u32)
    ensures var (t, d) := ReadDescr(s, a);
      && t == s.(mem := t.mem) && SameCode(s.mem, t.mem)
      && d == if Intact(s.mem, a) then Some(DescrAt(s.mem, a)) else None
  {
    hide MemIo, Decode, DescrOf, Hit, U32, Ready, SameCode, Word, Dword, Data, Faulty, Value;
    var g := MemIo(s.mem, a, 0, KRead, 2).0;
    AccessReads(s.mem, a, 0, KRead, 2);
    AccessReads(g, U32(a + 4), 0, KRead, 2);
    SameCodeTrans(s.mem, g, MemIo(g, U32(a + 4), 0, KRead, 2).0);
    SameShown(s.mem, g, KRead);
    AccessFails(s.mem, a, 0, KRead, 2);
    AccessFails(g, U32(a + 4), 0, KRead, 2);
    forall b: u32 ensures Hit(a, 8, b) <==> Hit(a, 4, b) || Hit(U32(a + 4), 4, b) {
      HitEight(a, b);
    }
    forall b: u32 ensures Faulty(s.mem, b, KRead) == !Ready(s.mem, b) {
      FaultyIs(s.mem, b);
    }
    if Intact(s.mem, a) {
      Start(a);
      ReadyValue(s.mem, a, 0);
      ReadyValue(s.mem, a, 4);
      DecodesBytes(Entry(s.mem, a, 0), Entry(s.mem, a, 1), Entry(s.mem, a, 2), Entry(s.mem, a, 3),
                   Entry(s.mem, a, 4), Entry(s.mem, a, 5), Entry(s.mem, a, 6), Entry(s.mem, a, 7));
    }
  }

  lemma Start(a: u32)
    ensures U32(a + 0) == a
  {
  }

  lemma FaultyIs(f: FlatMem, b: u32)
    ensures Faulty(f, b, KRead) == !Ready(f, b)
  {
  }

  // ---- segment loads ----

  function TableOf(sys: Sys, val: u16): DescrTable { if val / 4 % 2 == 1 then sys.ldt else sys.gdt }

  /** Where the descriptor of a selector lies. */
  function EntryAt(sys: Sys, val: u16): u32 { U32(TableOf(sys, val).base + 8 * (val / 8)) }

  /** The selector's descriptor lies in its table, can be read, and is that of a present code or data segment. */
  ghost predicate Loadable(f: FlatMem, sys: Sys, val: u16) {
    var a := EntryAt(sys, val);
    && 8 * (val / 8) + 7 <= TableOf(sys, val).limit && Intact(f, a)
    && Entry(f, a, 5) >= 0x80 && Entry(f, a, 5) / 0x10 % 2 == 1
  }

  /** A segment register that held `was`, after `val` was loaded. */
  ghost function Loaded(f: FlatMem, sys: Sys, was: Seg, val: u16): Seg {
    if !sys.protected then was.(sel := val, base := 0x10 * val)
    else if val < 8 then Seg(0, 0, 0, 0)
    else if !Loadable(f, sys, val) then was
    else
      var d := DescrAt(f, EntryAt(sys, val));
      Seg(val, d.base, d.limit, d.acc)
  }

  lemma SetAndGet(segs: Segs, r: SegReg, v: Seg)
    ensures segs.Set(r, v).Get(r) == v && forall q: SegReg :: q != r ==> segs.Set(r, v).Get(q) == segs.Get(q)
  {
  }

  lemma AccessBits(b: u8, h: nat)
    ensures var x := b + 0x100 * h;
      x / 0x80 % 2 == b / 0x80 % 2 && x / 0x10 % 2 == b / 0x10 % 2 && x % 8 == b % 8
  {
    LowBit(b, 0x100, h, 0x80, 1);
    LowBit(b, 0x100, h, 0x10, 8);
    DivMod(b, 8);
    DivUnique(b + 0x100 * h, 8, b / 8 + 0x20 * h, b % 8);
  }

  lemma TopBit(b: u8)
    ensures b / 0x80 % 2 == 1 <==> b >= 0x80
  {
  }

  lemma BitValues()
    ensures Pow2(7) == 0x80 && Pow2(4) == 0x10
  {
    assert Pow2(4) == 2 * Pow2(3) && Pow2(5) == 2 * Pow2(4) && Pow2(7) == 2 * Pow2(6);
  }

  lemma TypeBits(b0: u8, b1: u8, b2: u8, b3: u8, b4: u8, b5: u8, b6: u8, b7: u8)
    ensures var d := DescrOf(b0, b1, b2, b3, b4, b5, b6, b7);
      && (d.Present() <==> b5 >= 0x80) && (d.Segment() <==> b5 / 0x10 % 2 == 1) && d.acc % 8 == b5 % 8
  {
    hide Pow2;
    BitValues();
    AccessBits(b5, b6 / 0x10);
    TopBit(b5);
  }

  lemma EntryBits(f: FlatMem, a: u32)
    ensures var d := DescrAt(f, a);
      && Loads(Some(d)) == (Entry(f, a, 5) >= 0x80 && Entry(f, a, 5) / 0x10 % 2 == 1)
      && (!d.Invalid() && d.Present() && d.IntGate()) ==
           (Entry(f, a, 5) >= 0x80 && Entry(f, a, 5) / 0x10 % 2 == 0 && Entry(f, a, 5) % 8 >= 6)
  {
    hide DescrOf, Descr.Flag, Data, U32;
    TypeBits(Entry(f, a, 0), Entry(f, a, 1), Entry(f, a, 2), Entry(f, a, 3), Entry(f, a, 4), Entry(f, a, 5),
             Entry(f, a, 6), Entry(f, a, 7));
  }

  lemma Offsets(val: u16)
    ensures val - val % 8 == 8 * (val / 8) && (val - val % 8 == 0 <==> val < 8)
  {
  }

  /**
  Theorem: a segment load writes that register alone; in protected mode with base, limit and access bits of the bytes
  in the table the selector names. What cannot be loaded leaves the register and requests a general protection fault
  with the selector as error code.
  */
  lemma SegmentLoads(s: St, r: SegReg, val: u16)
    ensures var t := SetSeg(s, r, val);
      && t == s.(segs := t.segs, intr := t.intr, mem := t.mem) && SameCode(s.mem, t.mem)
      && t.segs.Get(r) == Loaded(s.mem, s.sys, s.segs.Get(r), val)
      && (forall q: SegReg :: q != r ==> t.segs.Get(q) == s.segs.Get(q))
      && t.intr == if s.sys.protected && val >= 8 && !Loadable(s.mem, s.sys, val)
                   then Raise(s.intr, Raised(0x0d, true, true, Some(val))) else s.intr
  {
    hide ReadDescr, Intact, DescrAt, Descr.Flag, Segs.Get, Segs.Set, SameCode, Raise, Entry, U32;
    var a := EntryAt(s.sys, val);
    Offsets(val);
    SameCodeSelf(s.mem);
    ReadDescrLaw(s, a);
    EntryBits(s.mem, a);
    SetAndGet(s.segs, r, Loaded(s.mem, s.sys, s.segs.Get(r), val));
  }

  // ---- delivery ----

  /** Selector and offset of a vector's handler, by the bytes of the table; without a usable entry `cs` and `eip`. */
  ghost function Handler(s: St, nr: u8, cs: u16, eip: u32): (u16, u32) {
    if !s.sys.protected then
      var a := U32(s.sys.idt.base + 4 * nr);
      (Word(Shown(s.mem, U32(a + 2), KRead), Shown(s.mem, U32(a + 3), KRead)),
       Word(Shown(s.mem, a, KRead), Shown(s.mem, U32(a + 1), KRead)))
    else
      var a := U32(s.sys.idt.base + 8 * nr);
      if 8 * nr + 7 <= s.sys.idt.limit && Intact(s.mem, a)
         && Entry(s.mem, a, 5) >= 0x80 && Entry(s.mem, a, 5) / 0x10 % 2 == 0 && Entry(s.mem, a, 5) % 8 >= 6
      then (DescrAt(s.mem, a).sel, DescrAt(s.mem, a).offset) else (cs, eip)
  }

  lemma ReadWordLaw(s: St, a: u32)
    ensures var (t, v, _) := ReadWord(s, a);
      t == s.(mem := t.mem) && SameCode(s.mem, t.mem) && v == Value(s.mem, a, 2, KRead) < 0x1_0000
  {
    hide MemIo, SameCode, Shown, U32;
    AccessReads(s.mem, a, 0, KRead, 1);
  }

  lemma LookupReads(s: St, nr: u8, cs: u16, eip: u32)
    ensures var (t, newCs, newEip) := IdtLookup(s, nr, cs, eip);
      t == s.(mem := t.mem) && SameCode(s.mem, t.mem) && (newCs, newEip) == Handler(s, nr, cs, eip)
  {
    hide ReadWord, ReadDescr, Intact, DescrAt, Entry, Shown, SameCode, U32, Word, Descr.Flag;
    SameCodeSelf(s.mem);
    if s.sys.protected {
      ReadDescrLaw(s, U32(s.sys.idt.base + 8 * nr));
      EntryBits(s.mem, U32(s.sys.idt.base + 8 * nr));
    } else {
      var b := s.sys.idt.base + 4 * nr;
      var t := ReadWord(s, U32(b)).0;
      ReadWordLaw(s, U32(b));
      ReadWordLaw(t, U32(b + 2));
      SameShown(s.mem, t.mem, KRead);
      SameCodeTrans(s.mem, t.mem, ReadWord(t, U32(b + 2)).0.mem);
      FourBytes(b);
      SmallLow(Value(s.mem, U32(b), 2, KRead));
      SmallLow(Value(t.mem, U32(b + 2), 2, KRead));
    }
  }

  lemma FourBytes(b: nat)
    ensures U32(U32(b) + 1) == U32(b + 1) && U32(U32(b) + 2) == U32(b + 2) && U32(U32(b) + 3) == U32(b + 3)
    ensures U32(U32(b + 2) + 1) == U32(b + 3)
  {
    hide U32;
    Later(b, 0, 1);
    Later(b, 0, 2);
    Later(b, 0, 3);
    Later(b, 2, 1);
  }

  /** `items` were pushed, the last one first, and `d` more bytes would fit. */
  ghost predicate Built(s: St, t: St, items: seq<Item>, d: nat) {
    && Moved(s, t) && Room(t, d) && OnStack(t, 0, items) && Sp(t) == (Sp(s) - Depth(items)) % SpMod(s)
    && SpMod(t) == SpMod(s) && Depth(items) + d <= SpMod(s)
  }

  lemma BuiltNone(s: St, d: nat)
    requires Room(s, d)
    ensures Built(s, s, [], d)
  {
    hide Moved, Room, Sp, SpMod;
    MovedIs(s, s);
    StaysPut(s);
    RoomIs(s, d);
  }

  lemma BuiltMore(s: St, t: St, items: seq<Item>, d: nat, n: Width, v: u32)
    requires Built(s, t, items, d) && n <= d
    ensures Built(s, Push(t, n, v), [Item(n, v)] + items, d - n)
  {
    hide Moved, Room, Sp, SpMod, OnStack, Depth, Push, SameLayout;
    PushOnto(t, n, v, d, items);
    MovedTrans(s, t, Push(t, n, v));
    Shifted(SpMod(s), Sp(s), Depth(items), 0 - n - Depth(items));
  }

  /** What a delivery leaves on the stack, top first: an error code if there is one, EIP, CS and flags. */
  function Frame(s: St, i: Request): seq<Item> {
    var n: Width := if s.sys.protected && s.mode.code32 then 4 else 2;
    var (cs, eip) := if i.restart then (s.savedCs, s.savedEip) else (s.segs.cs.sel, s.eip);
    var frame := [Item(n, Low(eip, n)), Item(n, cs), Item(n, Low(FlagsWord(s.f), n))];
    if i.errcode.Some? then [Item(4, i.errcode.value)] + frame else frame
  }

  lemma FrameSize(s: St, i: Request)
    ensures var n: int := if s.sys.protected && s.mode.code32 then 4 else 2;
      Depth(Frame(s, i)) == 3 * n + if i.errcode.Some? then 4 else 0
  {
    hide Low, FlagsWord;
    var n: Width := if s.sys.protected && s.mode.code32 then 4 else 2;
    var (cs, eip) := if i.restart then (s.savedCs, s.savedEip) else (s.segs.cs.sel, s.eip);
    var x, y, z := Item(n, Low(eip, n)), Item(n, cs), Item(n, Low(FlagsWord(s.f), n));
    assert [x, y, z][1..] == [y, z] && [y, z][1..] == [z] && [z][1..] == [];
    assert Depth([z]) == n && Depth([y, z]) == n + Depth([z]) && Depth([x, y, z]) == n + Depth([y, z]);
    if i.errcode.Some? {
      var e := Item(4, i.errcode.value);
      assert ([e] + [x, y, z])[1..] == [x, y, z];
    }
  }

  lemma ReturnBuilt(s: St, n: Width, cs: u16, eip: u32, d: nat)
    requires var k: int := n; Room(s, d) && 3 * k <= d
    ensures var k: int := n;
      var frame := [Item(n, Low(eip, n)), Item(n, cs), Item(n, Low(FlagsWord(s.f), n))];
      Built(s, PushReturn(s, n, cs, eip), frame, d - 3 * k)
  {
    hide Built, Push, Low, FlagsWord, Room;
    var w := Low(FlagsWord(s.f), n);
    var k: int := n;
    BuiltNone(s, d);
    BuiltMore(s, s, [], d, n, w);
    assert [Item(n, w)] + [] == [Item(n, w)];
    var t := Push(s, n, w);
    BuiltMore(s, t, [Item(n, w)], d - k, n, cs);
    assert [Item(n, cs)] + [Item(n, w)] == [Item(n, cs), Item(n, w)];
    BuiltMore(s, Push(t, n, cs), [Item(n, cs), Item(n, w)], d - k - k, n, Low(eip, n));
    assert [Item(n, Low(eip, n))] + [Item(n, cs), Item(n, w)] == [Item(n, Low(eip, n)), Item(n, cs), Item(n, w)];
  }

  /** The frame of any delivery, and the handler. */
  lemma FrameBuilt(s: St, i: Request, d: nat)
    requires Room(s, d) && Depth(Frame(s, i)) <= d
    ensures var (t, newCs, newEip) := IntFrame(s, i);
      && Built(s, t, Frame(s, i), d - Depth(Frame(s, i)))
      && (newCs, newEip) == (if i.restart then Handler(s, i.nr, s.savedCs, s.savedEip)
                             else Handler(s, i.nr, s.segs.cs.sel, s.eip))
  {
    hide Built, PushReturn, Push, Low, FlagsWord, Room, IdtLookup, Handler, Depth, SameCode;
    var (cs, eip) := if i.restart then (s.savedCs, s.savedEip) else (s.segs.cs.sel, s.eip);
    var n: Width := if s.sys.protected && s.mode.code32 then 4 else 2;
    LookupReads(s, i.nr, cs, eip);
    var t := IdtLookup(s, i.nr, cs, eip).0;
    FrameSize(s, i);
    RoomAfterReads(s, t, d);
    ReturnBuilt(t, n, cs, eip, d);
    BuiltFrom(s, t);
    var frame := [Item(n, Low(eip, n)), Item(n, cs), Item(n, Low(FlagsWord(s.f), n))];
    if i.errcode.Some? {
      BuiltMore(t, PushReturn(t, n, cs, eip), frame, d - if n == 4 then 12 else 6, 4, i.errcode.value);
    }
  }

  lemma RoomAfterReads(s: St, t: St, d: nat)
    requires Room(s, d) && t == s.(mem := t.mem) && SameCode(s.mem, t.mem)
    ensures Room(t, d)
  {
    hide SameLayout, Separate, Usable;
    SameSp(s, t);
    RoomIs(s, d);
    LayoutSeparate(s.mem, t.mem);
    RoomLayout(s, t, d);
  }

  lemma BuiltFrom(s: St, t: St)
    requires t == s.(mem := t.mem)
    ensures forall u: St, items: seq<Item>, d: nat :: Built(t, u, items, d) ==> Built(s, u, items, d)
  {
    hide Room, OnStack, Depth, SetLo16, U16, U32;
  }

  lemma LoadedSame(f: FlatMem, g: FlatMem, sys: Sys, was: Seg, val: u16)
    requires SameCode(f, g)
    ensures Loaded(g, sys, was, val) == Loaded(f, sys, was, val)
  {
    hide Has, Data, U32, DescrOf, Hit, Perms;
    var a := EntryAt(sys, val);
    forall b: u32 ensures Ready(g, b) == Ready(f, b) {
      PermsFix(Attr(f, b), Attr(g, b));
    }
    hide SameLayout, IsValid;
    assert forall k: nat :: Entry(g, a, k) == Entry(f, a, k);
  }

  /**
  Theorem: delivery in any mode. It leaves the frame on the stack (an error code if there is one, EIP, CS, flags;
  EIP and CS of before the instruction for a restart), enters the handler the table names with IF and TF clear, and
  changes nothing else but memory and the interrupt line. The code segment is loaded as the tables say.
  */
  lemma Delivers(s: St, i: Request)
    requires Room(s, Depth(Frame(s, i)))
    ensures var t := GenerateInt(s, i);
      var (cs, eip) := if i.restart then Handler(s, i.nr, s.savedCs, s.savedEip)
                       else Handler(s, i.nr, s.segs.cs.sel, s.eip);
      && OnStack(t, 0, Frame(s, i)) && Sp(t) == (Sp(s) - Depth(Frame(s, i))) % SpMod(s)
      && t.eip == eip && t.segs.cs == Loaded(t.mem, s.sys, s.segs.cs, cs)
      && t == SetSp(s, Sp(t)).(segs := s.segs.(cs := t.segs.cs), eip := eip, f := s.f.(ifl := false, tf := false),
                               intr := t.intr, mem := t.mem)
  {
    hide Room, OnStack, Depth, Frame, Handler, IntFrame, SetSeg, SameCode, Loaded, Loadable, SetSp, Sp, SpMod, Raise,
         Segs.Get, Moved;
    FrameBuilt(s, i, Depth(Frame(s, i)));
    var (u, cs, eip) := IntFrame(s, i);
    MovedParts(s, u);
    var v := u.(f := u.f.(ifl := false, tf := false));
    SegmentLoads(v, CS, cs);
    var w := SetSeg(v, CS, cs);
    OnlyCs(v.segs, w.segs);
    LoadedSame(v.mem, w.mem, s.sys, s.segs.cs, cs);
    OnStackStill(u, w.(eip := eip), Frame(s, i));
  }

  lemma OnlyCs(segs: Segs, to: Segs)
    requires forall q: SegReg :: q != CS ==> to.Get(q) == segs.Get(q)
    ensures to == segs.(cs := to.cs) && to.Get(CS) == to.cs && segs.Get(CS) == segs.cs
  {
    assert to.Get(ES) == segs.Get(ES) && to.Get(SS) == segs.Get(SS) && to.Get(DS) == segs.Get(DS);
    assert to.Get(FS) == segs.Get(FS) && to.Get(GS) == segs.Get(GS);
  }

  lemma MovedParts(s: St, t: St)
    requires Moved(s, t)
    ensures t == s.(gen := SetSp(s, Sp(t)).gen, intr := t.intr, mem := t.mem)
    ensures forall x: int :: SetSp(s, x) == s.(gen := SetSp(s, x).gen)
  {
    hide SetLo16, U16, U32;
  }

  lemma OnStackStill(s: St, t: St, items: seq<Item>)
    requires OnStack(s, 0, items) && SameCode(s.mem, t.mem) && t.gen == s.gen && t.mode == s.mode
      && t.segs.ss == s.segs.ss
    ensures OnStack(t, 0, items) && Sp(t) == Sp(s) && SpMod(t) == SpMod(s)
  {
    hide OnStack, SameLayout, Data;
    SameSp(s, t);
    StackLayout(s, t, items);
  }

  lemma HeldAt(s: St, off: nat, n: Width, v: u32)
    requires Slot(s, off, n, v)
    ensures Holds(s.mem, U32(s.segs.ss.base + (Sp(s) + off) % SpMod(s)), n, v)
  {
    hide Holds, Sp, SpMod;
    Start(s.segs.ss.base);
  }

  lemma FrameSlots(t: St, ip: u32, cs: u16, w: u32)
    requires OnStack(t, 0, [Item(2, ip), Item(2, cs), Item(2, w)])
    ensures Slot(t, 0, 2, ip) && Slot(t, 2, 2, cs) && Slot(t, 4, 2, w)
  {
    hide Slot;
    var x, y, z := Item(2, ip), Item(2, cs), Item(2, w);
    assert [x, y, z][1..] == [y, z] && [y, z][1..] == [z];
    assert OnStack(t, 2, [y, z]) && OnStack(t, 4, [z]);
  }

  /** CS and EIP are the two words at 4n in the vector table of `s`, offset first. */
  predicate AtHandler(s: St, nr: u8, t: St) {
    var a := s.sys.idt.base + 4 * nr;
    && t.segs.cs.sel == Word(Data(s.mem, U32(a + 2)), Data(s.mem, U32(a + 3)))
    && t.segs.cs.base == 0x10 * t.segs.cs.sel
    && t.eip == Word(Data(s.mem, U32(a)), Data(s.mem, U32(a + 1)))
  }

  /** Three words more lie on the stack: `ip` lowest, then `cs`, then `flags`. */
  ghost predicate ReturnSaved(s: St, t: St, ip: u16, cs: u16, flags: u16) {
    var m, base, sp: int := SpMod(s), s.segs.ss.base, Sp(s);
    && Sp(t) == (sp - 6) % m
    && Holds(t.mem, U32(base + (sp - 6) % m), 2, ip)
    && Holds(t.mem, U32(base + (sp - 4) % m), 2, cs)
    && Holds(t.mem, U32(base + (sp - 2) % m), 2, flags)
  }

  /**
  Theorem: in real mode vector n enters the handler whose offset and selector are the two words at 4n in the table,
  with IF and TF clear, and leaves IP, CS and flags in three words, IP lowest; IP and CS are those of before the
  instruction when it is to be restarted.
  */
  lemma EntersHandler(s: St, i: Request)
    requires !s.sys.protected && i.errcode.None? && Room(s, 6)
    requires Readable(s.mem, U32(s.sys.idt.base + 4 * i.nr), 4)
    ensures var t := GenerateInt(s, i);
      && AtHandler(s, i.nr, t) && !t.f.ifl && !t.f.tf
      && ReturnSaved(s, t, (if i.restart then s.savedEip else s.eip) % 0x1_0000,
                     if i.restart then s.savedCs else s.segs.cs.sel, FlagsWord(s.f) % 0x1_0000)
  {
    hide Room, OnStack, GenerateInt, Loadable, SetSp, Sp, SpMod, Moved, Slot, U32, Word, Data, FlagsWord, Depth, Holds,
         Readable;
    var t := GenerateInt(s, i);
    FrameSize(s, i);
    Delivers(s, i);
    TableBytes(s, i.nr);
    var ip := Low(if i.restart then s.savedEip else s.eip, 2);
    var cs := if i.restart then s.savedCs else s.segs.cs.sel;
    FrameSlots(t, ip, cs, Low(FlagsWord(s.f), 2));
    SpStill(s, t);
    HeldAt(t, 0, 2, ip);
    HeldAt(t, 2, 2, cs);
    HeldAt(t, 4, 2, Low(FlagsWord(s.f), 2));
    Shifted(SpMod(s), Sp(s), 6, 0 - 6);
    Shifted(SpMod(s), Sp(s), 6, 0 - 4);
    Shifted(SpMod(s), Sp(s), 6, 0 - 2);
  }

  lemma SpStill(s: St, t: St)
    requires t == SetSp(s, Sp(t)).(segs := s.segs.(cs := t.segs.cs), eip := t.eip, f := t.f, intr := t.intr,
                                   mem := t.mem)
    ensures SpMod(t) == SpMod(s) && t.segs.ss.base == s.segs.ss.base
  {
    hide SetLo16, U16, U32;
  }

  lemma TableBytes(s: St, nr: u8)
    requires Readable(s.mem, U32(s.sys.idt.base + 4 * nr), 4)
    ensures var a := s.sys.idt.base + 4 * nr; var b := U32(a);
      && Shown(s.mem, b, KRead) == Data(s.mem, U32(a))
      && Shown(s.mem, U32(b + 1), KRead) == Data(s.mem, U32(a + 1))
      && Shown(s.mem, U32(b + 2), KRead) == Data(s.mem, U32(a + 2))
      && Shown(s.mem, U32(b + 3), KRead) == Data(s.mem, U32(a + 3))
  {
    hide U32, Data, CanRead, Hit;
    var b := U32(s.sys.idt.base + 4 * nr);
    FourBytes(s.sys.idt.base + 4 * nr);
    HitAt(b, 4, 0);
    HitAt(b, 4, 1);
    HitAt(b, 4, 2);
    HitAt(b, 4, 3);
  }

  // ---- iret ----

  /** What the next pop of `n` bytes shows, `off` bytes above the stack pointer. */
  function Top(s: St, off: nat, n: Width): u32 {
    Value(s.mem, U32(s.segs.ss.base + (Sp(s) + off) % SpMod(s)), n, KRead)
  }

  lemma PopShows(s: St, n: Width, k: nat)
    ensures var (t, v) := Pop(s, n);
      v == Top(s, 0, n) && Top(t, k, n) == Top(s, n + k, n) && Moved(s, t) && SameCode(s.mem, t.mem)
        && Sp(t) == (Sp(s) + n) % SpMod(s) && SpMod(t) == SpMod(s)
  {
    hide Pop, Moved, Sp, SpMod, Value, ReadN, SameCode, U32;
    PopIs(s, n);
    var t := Pop(s, n).0;
    var a := At(Base(s), Sp(s) % SpMod(s));
    SameCodeSelf(s.mem);
    SameShown(s.mem, s.mem.(invalid := false), KRead);
    ReadShows(s.mem.(invalid := false), a, n);
    SameCodeTrans(s.mem, s.mem.(invalid := false), t.mem);
    SameShown(s.mem, t.mem, KRead);
    Shifted(SpMod(s), Sp(s), 0 - n, n + k);
    Start(s.segs.ss.base);
  }

  /**
  Theorem: iret takes EIP, CS and the flags from the stack in this order, by operand size, loads CS as the tables say,
  sets bit 1 of the flags, and moves the stack pointer past them; nothing else changes but marks and requests.
  */
  lemma IretReads(s: St, t: St)
    requires t == Iret(s)
    ensures var n: int := OpBytes(s);
      && t.eip == Top(s, 0, OpBytes(s))
      && t.segs == s.segs.(cs := Loaded(s.mem, s.sys, s.segs.cs, Lo16(Top(s, n, OpBytes(s)))))
      && t.f == FlagsOf(Top(s, 2 * n, OpBytes(s))).(b1 := true)
      && Sp(t) == (Sp(s) + 3 * n) % SpMod(s) && SameCode(s.mem, t.mem)
      && t == SetSp(s, Sp(t)).(eip := t.eip, segs := t.segs, f := t.f, intr := t.intr, mem := t.mem)
  {
    hide Pop, Moved, Sp, SpMod, Top, SameCode, SetSp, FlagsOf, Lo16, Iret, Loaded;
    var n: Width, k: int := OpBytes(s), OpBytes(s);
    var t1 := Pop(s, n).0;
    var t2 := Pop(t1, n).0;
    var t3 := Pop(t2, n).0;
    PopShows(s, n, 0);
    PopShows(s, n, n);
    PopShows(t1, n, 0);
    PopShows(t2, n, 0);
    MovedTrans(s, t1, t2);
    MovedTrans(s, t2, t3);
    SameCodeTrans(s.mem, t1.mem, t2.mem);
    SameCodeTrans(s.mem, t2.mem, t3.mem);
    IretParts(s, t1, t2, t3, t);
    SameCodeTrans(s.mem, t3.mem, t.mem);
    LoadedSame(s.mem, t3.mem, s.sys, s.segs.cs, Lo16(Pop(t1, n).1));
    Shifted(SpMod(s), Sp(s), 0 - k, 2 * k);
    Shifted(SpMod(s), Sp(s), 0 - 2 * k, 3 * k);
    MovedParts(s, t3);
  }

  lemma IretParts(s: St, t1: St, t2: St, t3: St, t: St)
    requires var n := OpBytes(s); t1 == Pop(s, n).0 && t2 == Pop(t1, n).0 && t3 == Pop(t2, n).0
    requires Moved(s, t3) && t == Iret(s)
    ensures var n := OpBytes(s);
      && t == t3.(f := FlagsOf(Pop(t2, n).1).(b1 := true), eip := Pop(s, n).1,
                  segs := s.segs.(cs := Loaded(t3.mem, s.sys, s.segs.cs, Lo16(Pop(t1, n).1))),
                  intr := t.intr, mem := t.mem)
      && Sp(t) == Sp(t3) && SameCode(t3.mem, t.mem)
  {
    hide Pop, Lo16, FlagsOf, SetSeg, Moved, Loaded, Loadable, SameCode, Segs.Get, Raise;
    var n := OpBytes(s);
    MovedSys(s, t3);
    var v := t3.(f := IretFlags(Pop(t2, n).1));
    var cs := Lo16(Pop(t1, n).1);
    SegmentLoads(v, CS, cs);
    OnlyCs(v.segs, SetSeg(v, CS, cs).segs);
    SameSp(t3, t);
  }

  lemma MovedSys(s: St, t: St)
    requires Moved(s, t)
    ensures t.sys == s.sys && t.segs == s.segs
  {
  }
}
