/** Segment loads, interrupt delivery and iret (decode.c, ops.c). */
module Interrupts {
  import opened Words
  import opened Bits
  import opened FlatMemory
  import opened MemoryLaws
  import opened PagedMemory
  import opened Machine
  import opened Stack
  import opened Frames

  // ---- descriptors ----

  /** The fields of a decoded descriptor that the code uses; `acc` packs type, S, DPL, P and the high flags. */
  datatype Descr = Descr(acc: u16, base: u32, limit: u32, sel: u16, offset: u32) {
    predicate Flag(i: nat) { acc / Pow2(i) % 2 == 1 }
    predicate Present() { Flag(7) }
    predicate Segment() { Flag(4) }
    predicate Invalid() { !Segment() && acc % 8 == 0 }
    predicate IntGate() { !Segment() && acc % 8 >= 6 }
  }

  /** decode_descriptor */
  function Decode(dl: u32, dh: u32): Descr {
    var acc := dh / 0x100 % 0x100 + dh / 0x10_0000 % 0x10 * 0x100;
    var limit := dl % 0x1_0000 + dh / 0x1_0000 % 0x10 * 0x1_0000;
    Descr(acc,
          dl / 0x1_0000 + dh % 0x100 * 0x1_0000 + dh / 0x100_0000 * 0x100_0000,
          if acc / 0x800 % 2 == 1 then 0x1000 * limit + 0xfff else limit,
          dl / 0x1_0000,
          dl % 0x1_0000 + dh / 0x1_0000 * 0x1_0000)
  }

  /** A segment descriptor put together from its fields (`limit` in units of the granularity). */
  function EncodeLow(base: u32, limit: nat): u32
    requires limit < 0x10_0000
  {
    limit % 0x1_0000 + base % 0x1_0000 * 0x1_0000
  }

  function EncodeHigh(base: u32, limit: nat, acc: nat): u32
    requires limit < 0x10_0000 && acc < 0x1000
  {
    base / 0x1_0000 % 0x100 + acc % 0x100 * 0x100 + limit / 0x1_0000 * 0x1_0000 + acc / 0x100 * 0x10_0000
      + base / 0x100_0000 * 0x100_0000
  }

  lemma HighFields(a: u8, b: u8, c: nat, d: nat, e: u8)
    requires c < 0x10 && d < 0x10
    ensures var dh := a + 0x100 * b + 0x1_0000 * c + 0x10_0000 * d + 0x100_0000 * e;
      && dh % 0x100 == a && dh / 0x100 % 0x100 == b && dh / 0x1_0000 % 0x10 == c
      && dh / 0x10_0000 % 0x10 == d && dh / 0x100_0000 == e
  {
    var dh := a + 0x100 * b + 0x1_0000 * c + 0x10_0000 * d + 0x100_0000 * e;
    DivUnique(dh, 0x100, b + 0x100 * c + 0x1000 * d + 0x1_0000 * e, a);
    DivUnique(b + 0x100 * c + 0x1000 * d + 0x1_0000 * e, 0x100, c + 0x10 * d + 0x100 * e, b);
    DivUnique(dh, 0x1_0000, c + 0x10 * d + 0x100 * e, a + 0x100 * b);
    DivUnique(c + 0x10 * d + 0x100 * e, 0x10, d + 0x10 * e, c);
    DivUnique(dh, 0x10_0000, d + 0x10 * e, a + 0x100 * b + 0x1_0000 * c);
    DivUnique(d + 0x10 * e, 0x10, e, d);
    DivUnique(dh, 0x100_0000, e, a + 0x100 * b + 0x1_0000 * c + 0x10_0000 * d);
  }

  lemma LowFields(base: u32, limit: nat)
    requires limit < 0x10_0000
    ensures var dl := EncodeLow(base, limit);
      && dl % 0x1_0000 == limit % 0x1_0000 && dl / 0x1_0000 == base % 0x1_0000
      && limit == limit % 0x1_0000 + 0x1_0000 * (limit / 0x1_0000)
      && base == base % 0x1_0000 + 0x1_0000 * (base / 0x1_0000 % 0x100) + 0x100_0000 * (base / 0x100_0000)
  {
    DivUnique(EncodeLow(base, limit), 0x1_0000, base % 0x1_0000, limit % 0x1_0000);
    assert base / 0x1_0000 / 0x100 == base / 0x100_0000;
  }

  /** Decoding gives back what was encoded. */
  lemma DecodesEncoded(base: u32, limit: nat, acc: nat)
    requires limit < 0x10_0000 && acc < 0x1000
    ensures var d := Decode(EncodeLow(base, limit), EncodeHigh(base, limit, acc));
      d.acc == acc && d.base == base && d.limit == if acc / 0x800 % 2 == 1 then 0x1000 * limit + 0xfff else limit
  {
    hide EncodeLow;
    HighFields(base / 0x1_0000 % 0x100, acc % 0x100, limit / 0x1_0000, acc / 0x100, base / 0x100_0000);
    LowFields(base, limit);
  }

  // ---- segment loads ----

  function ReadDword(s: St, a: u32): (St, u32, bool) {
    var (m, v, err) := MemIo(s.mem, a, 0, KRead, 2);
    (s.(mem := m), v, err)
  }

  function ReadWord(s: St, a: u32): (St, u32, bool) {
    var (m, v, err) := MemIo(s.mem, a, 0, KRead, 1);
    (s.(mem := m), v, err)
  }

  /** Two dwords of a descriptor table. */
  function ReadDescr(s: St, a: u32): (St, Option<Descr>) {
    var (t, dl, e1) := ReadDword(s, a);
    var (u, dh, e2) := ReadDword(t, U32(a + 4));
    (u, if e1 || e2 then None else Some(Decode(dl, dh)))
  }

  function RealSeg(seg: Seg, val: u16): Seg { seg.(sel := val, base := 0x10 * val) }

  /** A descriptor that may go into a segment register. */
  predicate Loads(d: Option<Descr>) { d.Some? && !d.value.Invalid() && d.value.Present() && d.value.Segment() }

  /** x86emu_set_seg_register */
  function SetSeg(s: St, r: SegReg, val: u16): St {
    if !s.sys.protected then s.(segs := s.segs.Set(r, RealSeg(s.segs.Get(r), val)))
    else
      var ofs := val - val % 8;
      var table := if val / 4 % 2 == 1 then s.sys.ldt else s.sys.gdt;
      if ofs == 0 then s.(segs := s.segs.Set(r, Seg(0, 0, 0, 0)))
      else if ofs + 7 > table.limit then s.(intr := Raise(s.intr, GpFault(val)))
      else
        var (t, d) := ReadDescr(s, U32(table.base + ofs));
        if Loads(d) then t.(segs := t.segs.Set(r, Seg(val, d.value.base, d.value.limit, d.value.acc)))
        else t.(intr := Raise(t.intr, GpFault(val)))
  }

  method ReadDescrN(emu: Emu, a: u32) returns (d: Option<Descr>)
    requires emu.Valid()
    modifies emu.mem, emu.mem.Repr(), emu.mem.host
    ensures emu.Valid() && fresh(emu.mem.Repr() - old(emu.mem.Repr()))
    ensures (emu.State(), d) == ReadDescr(old(emu.State()), a)
  {
    hide Mem.Valid, FlatMemory.MemIo, Decode;
    var dl, e1 := emu.DecodeMemio(a, 0, KRead, 2);
    var dh, e2 := emu.DecodeMemio(U32(a + 4), 0, KRead, 2);
    d := if e1 || e2 then None else Some(Decode(dl, dh));
  }

  method LoadDescr(emu: Emu, r: SegReg, val: u16, a: u32) returns (err: bool)
    requires emu.Valid()
    modifies emu`segs, emu.mem, emu.mem.Repr(), emu.mem.host
    ensures emu.Valid() && fresh(emu.mem.Repr() - old(emu.mem.Repr()))
    ensures var (t, d) := ReadDescr(old(emu.State()), a);
      && err == !Loads(d)
      && emu.State() == if err then t
                        else t.(segs := t.segs.Set(r, Seg(val, d.value.base, d.value.limit, d.value.acc)))
  {
    hide Mem.Valid, ReadDescr, Pow2, Segs.Set;
    var d := ReadDescrN(emu, a);
    err := !Loads(d);
    if !err {
      emu.segs := emu.segs.Set(r, Seg(val, d.value.base, d.value.limit, d.value.acc));
    }
  }

  method SetSegRegister(emu: Emu, r: SegReg, val: u16)
    requires emu.Valid()
    modifies emu`segs, emu`intr, emu`made, emu.mem, emu.mem.Repr(), emu.mem.host
    ensures emu.Valid() && fresh(emu.mem.Repr() - old(emu.mem.Repr()))
    ensures emu.State() == SetSeg(old(emu.State()), r, val)
  {
    hide Mem.Valid, ReadDescr, Loads, Pow2, Segs.Set, Segs.Get;
    var err := true;
    if !emu.sys.protected {
      emu.segs := emu.segs.Set(r, RealSeg(emu.segs.Get(r), val));
      err := false;
    } else {
      var ofs := val - val % 8;
      var table := if val / 4 % 2 == 1 then emu.sys.ldt else emu.sys.gdt;
      if ofs == 0 {
        emu.segs := emu.segs.Set(r, Seg(0, 0, 0, 0));
        err := false;
      } else if ofs + 7 <= table.limit {
        err := LoadDescr(emu, r, val, U32(table.base + ofs));
      }
    }
    if err {
      emu.IntrRaise(GpFault(val));
    }
  }

  // ---- delivery ----

  /** idt_lookup: without a usable entry the caller's CS and EIP stay. */
  function IdtLookup(s: St, nr: u8, cs: u16, eip: u32): (St, u16, u32) {
    if !s.sys.protected then
      var (t, ip, _) := ReadWord(s, U32(s.sys.idt.base + 4 * nr));
      var (u, sel, _) := ReadWord(t, U32(s.sys.idt.base + 4 * nr + 2));
      (u, Lo16(sel), Lo16(ip))
    else if 8 * nr + 7 > s.sys.idt.limit then (s, cs, eip)
    else
      var (t, d) := ReadDescr(s, U32(s.sys.idt.base + 8 * nr));
      if d.Some? && !d.value.Invalid() && d.value.Present() && d.value.IntGate()
      then (t, d.value.sel, d.value.offset) else (t, cs, eip)
  }

  /** Flags, CS and instruction pointer, 32 bits each or 16 bits each. */
  function PushReturn(s: St, n: Width, cs: u16, eip: u32): St {
    Push(Push(Push(s, n, Low(FlagsWord(s.f), n)), n, cs), n, Low(eip, n))
  }

  /** The new CS and EIP are looked up before the return frame is pushed. */
  function IntFrame(s: St, i: Intr): (St, u16, u32)
    requires i.Raised?
  {
    var cs := if i.restart then s.savedCs else s.segs.cs.sel;
    var eip := if i.restart then s.savedEip else s.eip;
    var (t, newCs, newEip) := IdtLookup(s, i.nr, cs, eip);
    var u := PushReturn(t, if t.sys.protected && t.mode.code32 then 4 else 2, cs, eip);
    (if i.errcode.Some? then Push(u, 4, i.errcode.value) else u, newCs, newEip)
  }

  /** generate_int, with no host handler installed */
  function GenerateInt(s: St, i: Intr): St
    requires i.Raised?
  {
    var (t, newCs, newEip) := IntFrame(s, i);
    SetSeg(t.(f := t.f.(ifl := false, tf := false)), CS, newCs).(eip := newEip)
  }

  /** `intr_type = 0` */
  function Acknowledged(s: St): St { s.(intr := s.intr.(pending := NoIntr)) }

  /** handle_interrupt: at most one delivery, and whatever it requests is dropped. */
  function HandleInterrupt(s: St): St {
    if s.intr.pending.NoIntr? then s else Acknowledged(GenerateInt(s, s.intr.pending))
  }

  method IdtLookupN(emu: Emu, nr: u8, cs: u16, eip: u32) returns (newCs: u16, newEip: u32)
    requires emu.Valid()
    modifies emu.mem, emu.mem.Repr(), emu.mem.host
    ensures emu.Valid() && fresh(emu.mem.Repr() - old(emu.mem.Repr()))
    ensures (emu.State(), newCs, newEip) == IdtLookup(old(emu.State()), nr, cs, eip)
  {
    hide Mem.Valid, ReadDescr, FlatMemory.MemIo, Pow2, Lo16;
    newCs, newEip := cs, eip;
    if !emu.sys.protected {
      var ip, e1 := emu.DecodeMemio(U32(emu.sys.idt.base + 4 * nr), 0, KRead, 1);
      var sel, e2 := emu.DecodeMemio(U32(emu.sys.idt.base + 4 * nr + 2), 0, KRead, 1);
      newCs, newEip := Lo16(sel), Lo16(ip);
    } else if 8 * nr + 7 <= emu.sys.idt.limit {
      var d := ReadDescrN(emu, U32(emu.sys.idt.base + 8 * nr));
      if d.Some? && !d.value.Invalid() && d.value.Present() && d.value.IntGate() {
        newCs, newEip := d.value.sel, d.value.offset;
      }
    }
  }

  method PushReturnN(emu: Emu, n: Width, cs: u16, eip: u32)
    requires emu.Valid()
    modifies emu`gen, emu`intr, emu`made, emu.mem, emu.mem.Repr(), emu.mem.host
    ensures emu.Valid() && fresh(emu.mem.Repr() - old(emu.mem.Repr()))
    ensures emu.State() == PushReturn(old(emu.State()), n, cs, eip)
  {
    hide Mem.Valid, Push, FlagsWord;
    PushN(emu, n, Low(FlagsWord(emu.f), n));
    PushN(emu, n, cs);
    PushN(emu, n, Low(eip, n));
  }

  method IntFrameN(emu: Emu, i: Intr) returns (newCs: u16, newEip: u32)
    requires emu.Valid() && i.Raised?
    modifies emu`gen, emu`intr, emu`made, emu.mem, emu.mem.Repr(), emu.mem.host
    ensures emu.Valid() && fresh(emu.mem.Repr() - old(emu.mem.Repr()))
    ensures (emu.State(), newCs, newEip) == IntFrame(old(emu.State()), i)
  {
    hide Mem.Valid, Push, PushReturn, IdtLookup;
    var cs, eip := emu.segs.cs.sel, emu.eip;
    if i.restart {
      cs, eip := emu.savedCs, emu.savedEip;
    }
    newCs, newEip := IdtLookupN(emu, i.nr, cs, eip);
    PushReturnN(emu, if emu.sys.protected && emu.mode.code32 then 4 else 2, cs, eip);
    if i.errcode.Some? {
      PushN(emu, 4, i.errcode.value);
    }
  }

  method GenerateIntN(emu: Emu, i: Intr)
    requires emu.Valid() && i.Raised?
    modifies emu`gen, emu`f, emu`segs, emu`eip, emu`intr, emu`made, emu.mem, emu.mem.Repr(), emu.mem.host
    ensures emu.Valid() && fresh(emu.mem.Repr() - old(emu.mem.Repr()))
    ensures emu.State() == GenerateInt(old(emu.State()), i)
  {
    hide Mem.Valid, IntFrame, SetSeg;
    var newCs, newEip := IntFrameN(emu, i);
    emu.f := emu.f.(ifl := false, tf := false);
    SetSegRegister(emu, CS, newCs);
    emu.eip := newEip;
  }

  method HandleInterruptN(emu: Emu)
    requires emu.Valid()
    modifies emu`gen, emu`f, emu`segs, emu`eip, emu`intr, emu`made, emu.mem, emu.mem.Repr(), emu.mem.host
    ensures emu.Valid() && fresh(emu.mem.Repr() - old(emu.mem.Repr()))
    ensures emu.State() == HandleInterrupt(old(emu.State()))
  {
    hide Mem.Valid, GenerateInt;
    if !emu.intr.NoIntr? {
      GenerateIntN(emu, emu.intr);
    }
    emu.intr := NoIntr;
  }

  // ---- int and iret ----

  function Soft(nr: u8): Request { Raised(nr, false, false, None) }

  /** The handler of int imm8 only requests the interrupt. */
  function IntImm(s: St): St {
    var (t, v) := FetchCode(s, 1);
    t.(intr := Raise(t.intr, Soft(U8(v))))
  }

  function IretFlags(w: u32): Flags { FlagsOf(w).(b1 := true) }

  /** The return frame: the instruction pointer, the code segment and the flags. */
  function PopReturn(s: St, n: Width): (St, u32, u32, u32) {
    var (t, eip) := Pop(s, n);
    var (u, cs) := Pop(t, n);
    var (v, w) := Pop(u, n);
    (v, eip, cs, w)
  }

  function Iret(s: St): St {
    var (t, eip, cs, w) := PopReturn(s, OpBytes(s));
    SetSeg(t.(f := IretFlags(w)), CS, Lo16(cs)).(eip := eip)
  }

  method IntImmN(emu: Emu)
    requires emu.Valid()
    modifies emu`mode, emu`eip, emu`intr, emu`made, emu.mem, emu.mem.Repr(), emu.mem.host
    ensures emu.Valid() && fresh(emu.mem.Repr() - old(emu.mem.Repr()))
    ensures emu.State() == IntImm(old(emu.State()))
  {
    hide Mem.Valid, FetchCode, U8;
    var nr := emu.FetchImm(1);
    emu.IntrRaise(Soft(U8(nr)));
  }

  method PopReturnN(emu: Emu, n: Width) returns (eip: u32, cs: u32, w: u32)
    requires emu.Valid()
    modifies emu`gen, emu`intr, emu`made, emu.mem, emu.mem.Repr(), emu.mem.host
    ensures emu.Valid() && fresh(emu.mem.Repr() - old(emu.mem.Repr()))
    ensures (emu.State(), eip, cs, w) == PopReturn(old(emu.State()), n)
  {
    hide Mem.Valid, Emu.Valid, Pop;
    eip := PopN(emu, n);
    cs := PopN(emu, n);
    w := PopN(emu, n);
  }

  method IretN(emu: Emu)
    requires emu.Valid()
    modifies emu`gen, emu`f, emu`segs, emu`eip, emu`intr, emu`made, emu.mem, emu.mem.Repr(), emu.mem.host
    ensures emu.Valid() && fresh(emu.mem.Repr() - old(emu.mem.Repr()))
    ensures emu.State() == Iret(old(emu.State()))
  {
    hide Mem.Valid, PopReturn, SetSeg, FlagsOf, Lo16;
    var eip, cs, w := PopReturnN(emu, if emu.mode.data32 then 4 else 2);
    emu.f := IretFlags(w);
    SetSegRegister(emu, CS, Lo16(cs));
    emu.eip := eip;
  }

  // ---- real mode: nested interrupts unwind ----

  function Deliver(s: St, nr: u8): St { HandleInterrupt(s.(intr := Raise(s.intr, Soft(nr)))) }

  /** The vectors of `nrs` are delivered one inside the other. */
  function Nest(s: St, nrs: seq<u8>): St
    decreases |nrs|
  {
    if nrs == [] then s else Nest(Deliver(s, nrs[0]), nrs[1..])
  }

  function Irets(s: St, k: nat): St { if k == 0 then s else Iret(Irets(s, k - 1)) }

  /** Real mode with 16-bit code, operands and stack. */
  predicate Real16(s: St) {
    !s.sys.protected && !s.mode.data32 && !s.mode.stack32 && s.eip < 0x1_0000 && s.segs.cs.base == 0x10 * s.segs.cs.sel
  }

  /** The stack after one delivery, top first. */
  function IntItems(s: St, rest: seq<Item>): seq<Item> {
    [Item(2, Low(s.eip, 2))] + ([Item(2, s.segs.cs.sel)] + ([Item(2, Low(FlagsWord(s.f), 2))] + rest))
  }

  /** IDT reads touch access marks only. */
  lemma LookupLaw(s: St, nr: u8, cs: u16, eip: u32)
    requires !s.sys.protected && Separate(s.mem)
    ensures var (t, newCs, newEip) := IdtLookup(s, nr, cs, eip);
      t == s.(mem := t.mem) && Separate(t.mem) && SameLayout(s.mem, t.mem) && SameData(s.mem, t.mem)
        && newEip < 0x1_0000
  {
    hide RWord, Separate, SameLayout, Data;
    var a := U32(s.sys.idt.base + 4 * nr);
    var b := U32(s.sys.idt.base + 4 * nr + 2);
    var g := s.mem.(invalid := false);
    Quiet(s.mem);
    RWordLaw(g, a);
    var h := RWord(g, a).0;
    SameLayoutTrans(s.mem, g, h);
    Quiet(h);
    SameLayoutTrans(s.mem, h, h.(invalid := false));
    RWordLaw(h.(invalid := false), b);
    SameLayoutTrans(s.mem, h.(invalid := false), RWord(h.(invalid := false), b).0);
  }

  lemma PushReturnLaw(s: St, d: nat, rest: seq<Item>)
    requires Room(s, d) && 6 <= d && OnStack(s, 0, rest) && Depth(rest) + d <= SpMod(s)
    ensures var t := PushReturn(s, 2, s.segs.cs.sel, s.eip);
      && Moved(s, t) && Room(t, d - 6) && SameLayout(s.mem, t.mem) && Sp(t) == (Sp(s) - 6) % SpMod(s)
      && OnStack(t, 0, IntItems(s, rest)) && Depth(IntItems(s, rest)) == 6 + Depth(rest)
  {
    hide Moved, Push, Room, Slot, SameLayout, Sp, SpMod, Base, OnStack, Depth, FlagsWord, Low;
    var w := Low(FlagsWord(s.f), 2);
    var cs, eip := s.segs.cs.sel, s.eip;
    var t1 := Push(s, 2, w);
    PushOnto(s, 2, w, d, rest);
    var rest1 := [Item(2, w)] + rest;
    var t2 := Push(t1, 2, cs);
    PushOnto(t1, 2, cs, d - 2, rest1);
    var rest2 := [Item(2, cs)] + rest1;
    PushOnto(t2, 2, Low(eip, 2), d - 4, rest2);
    var t3 := Push(t2, 2, Low(eip, 2));
    MovedTrans(s, t1, t2);
    MovedTrans(s, t2, t3);
    SameLayoutTrans(s.mem, t1.mem, t2.mem);
    SameLayoutTrans(s.mem, t2.mem, t3.mem);
    Shifted(SpMod(s), Sp(s), 2, 0 - 4);
    Shifted(SpMod(s), Sp(s), 4, 0 - 6);
  }

  /** What delivery leaves alone: everything but CS, EIP, the flags, the pointer and memory. */
  predicate Entered(s: St, t: St) {
    && t == s.(gen := SetSp(s, Sp(t)).gen, segs := s.segs.(cs := RealSeg(s.segs.cs, t.segs.cs.sel)),
               eip := t.eip, f := t.f, intr := t.intr, mem := t.mem)
  }

  /** Flags, CS and EIP on arrival. */
  function Arrived(s: St, t: St, cs: u16, eip: u32): St {
    t.(f := t.f.(ifl := false, tf := false), segs := s.segs.(cs := RealSeg(s.segs.cs, cs)), eip := eip,
      intr := t.intr.(pending := NoIntr))
  }

  lemma DeliverIs(s: St, nr: u8)
    requires Real16(s) && s.intr.pending.NoIntr? && Separate(s.mem)
    ensures var u := s.(intr := Raise(s.intr, Soft(nr)));
      var (t, cs, eip) := IdtLookup(u, nr, s.segs.cs.sel, s.eip);
      && Deliver(s, nr) == Arrived(s, PushReturn(t, 2, s.segs.cs.sel, s.eip), cs, eip)
      && t == u.(mem := t.mem) && Separate(t.mem) && SameLayout(s.mem, t.mem) && SameData(s.mem, t.mem)
        && eip < 0x1_0000
  {
    hide Push, IdtLookup, Separate, SameLayout, SameData, FlagsWord, SetLo16;
    var u := s.(intr := Raise(s.intr, Soft(nr)));
    LookupLaw(u, nr, s.segs.cs.sel, s.eip);
    var t := IdtLookup(u, nr, s.segs.cs.sel, s.eip).0;
    PushReturnKeeps(t, s.segs.cs.sel, s.eip);
  }

  lemma PushReturnKeeps(s: St, cs: u16, eip: u32)
    ensures Moved(s, PushReturn(s, 2, cs, eip))
  {
    hide Moved, Push, FlagsWord, Low;
    var t1 := Push(s, 2, Low(FlagsWord(s.f), 2));
    var t2 := Push(t1, 2, cs);
    PushIs(s, 2, Low(FlagsWord(s.f), 2));
    PushIs(t1, 2, cs);
    PushIs(t2, 2, Low(eip, 2));
    MovedTrans(s, t1, t2);
    MovedTrans(s, t2, Push(t2, 2, Low(eip, 2)));
  }

  /** The pointer and the stack segment decide where the stack is; other registers do not matter. */
  lemma SamePlace(s: St, t: St, d: nat, items: seq<Item>)
    requires Sp(t) == Sp(s) && SpMod(t) == SpMod(s) && Base(t) == Base(s) && t.mem == s.mem
    ensures Room(s, d) ==> Room(t, d)
    ensures Reach(s, d) ==> Reach(t, d)
    ensures OnStack(s, 0, items) ==> OnStack(t, 0, items)
  {
    hide Sp, SpMod, Base, OnStack, Usable, Separate;
    SameStack(s, t, 0, items);
  }

  /** One delivery: a return frame on the stack, and 16-bit real mode again. */
  lemma DeliverLaw(s: St, nr: u8, d: nat, rest: seq<Item>)
    requires Real16(s) && s.intr.pending.NoIntr? && Room(s, d) && 6 <= d && OnStack(s, 0, rest)
      && Depth(rest) + d <= SpMod(s)
    ensures var t := Deliver(s, nr);
      && Entered(s, t) && Real16(t) && t.intr.pending.NoIntr? && Room(t, d - 6) && SameLayout(s.mem, t.mem)
      && OnStack(t, 0, IntItems(s, rest)) && Depth(IntItems(s, rest)) == 6 + Depth(rest)
      && Sp(t) == (Sp(s) - 6) % SpMod(s)
  {
    hide Room, Slot, SameLayout, SameData, OnStack, Depth, PushReturn, Separate, IdtLookup, FlagsWord, Moved, Base, Sp,
         SpMod, SetSp;
    RoomIs(s, d);
    DeliverIs(s, nr);
    var t := IdtLookup(s.(intr := Raise(s.intr, Soft(nr))), nr, s.segs.cs.sel, s.eip).0;
    SameSp(s, t);
    RoomLayout(s, t, d);
    StackLayout(s, t, rest);
    PushReturnLaw(t, d, rest);
    var u := PushReturn(t, 2, t.segs.cs.sel, t.eip);
    MovedIs(t, u);
    SameLayoutTrans(s.mem, t.mem, u.mem);
    DeliverEntered(s, nr, t, u);
    SamePlace(u, Deliver(s, nr), d - 6, IntItems(s, rest));
  }

  lemma DeliverEntered(s: St, nr: u8, t: St, u: St)
    requires Real16(s) && t == s.(intr := Raise(s.intr, Soft(nr)), mem := t.mem) && Moved(t, u)
    requires exists cs: u16, eip: u32 :: eip < 0x1_0000 && Deliver(s, nr) == Arrived(s, u, cs, eip)
    ensures var v := Deliver(s, nr);
      Entered(s, v) && Real16(v) && v.intr.pending.NoIntr? && Sp(v) == Sp(u) && SpMod(v) == SpMod(u)
        && Base(v) == Base(u)
  {
    hide Deliver, SetLo16, U16, U32;
  }

  lemma SmallLow(x: u32)
    ensures Low(x, 2) == x % 0x1_0000 && Lo16(x) == x % 0x1_0000 && (x < 0x1_0000 ==> x % 0x1_0000 == x)
    ensures Low(x % 0x1_0000, 2) == x % 0x1_0000 && Lo16(Low(x, 2)) == Lo16(x)
  {
  }

  /** The three pops of iret on a frame of a real-mode delivery. */
  lemma PopReturnLaw(s: St, x: St, d: nat, rest: seq<Item>)
    requires Reach(s, d) && 6 <= d && OnStack(s, 0, IntItems(x, rest))
    ensures var t1 := Pop(s, 2).0; var t2 := Pop(t1, 2).0; var t := Pop(t2, 2).0;
      && Moved(s, t) && SameLayout(s.mem, t.mem) && Sp(t) == (Sp(s) + 6) % SpMod(s)
      && OnStack(t, 0, rest) && Reach(t, d - 6)
      && Pop(s, 2).1 == Low(Low(x.eip, 2), 2) && Pop(t1, 2).1 == Low(x.segs.cs.sel, 2)
      && Pop(t2, 2).1 == Low(Low(FlagsWord(x.f), 2), 2)
  {
    hide Reach, Slot, SameLayout, OnStack, Pop, Sp, SpMod, Base, Moved, SetSp, FlagsWord, Depth, Low;
    var w := Low(FlagsWord(x.f), 2);
    var rest1 := [Item(2, w)] + rest;
    var rest2 := [Item(2, x.segs.cs.sel)] + rest1;
    PopOff(s, Item(2, Low(x.eip, 2)), rest2, d);
    var t1 := Pop(s, 2).0;
    PopOff(t1, Item(2, x.segs.cs.sel), rest1, d - 2);
    var t2 := Pop(t1, 2).0;
    PopOff(t2, Item(2, w), rest, d - 4);
    var t3 := Pop(t2, 2).0;
    MovedTrans(s, t1, t2);
    MovedTrans(s, t2, t3);
    SameLayoutTrans(s.mem, t1.mem, t2.mem);
    SameLayoutTrans(s.mem, t2.mem, t3.mem);
    Shifted(SpMod(s), Sp(s), 0 - 2, 4);
    Shifted(SpMod(s), Sp(s), 0 - 4, 6);
  }

  /** iret on a frame of a real-mode delivery. */
  lemma IretLaw(s: St, x: St, d: nat, rest: seq<Item>)
    requires !s.sys.protected && !s.mode.data32 && x.eip < 0x1_0000
    requires Reach(s, d) && 6 <= d && OnStack(s, 0, IntItems(x, rest))
    ensures var t := Iret(s);
      && t == s.(gen := SetSp(s, Sp(t)).gen, segs := s.segs.(cs := RealSeg(s.segs.cs, x.segs.cs.sel)), eip := x.eip,
                 f := IretFlags(FlagsWord(x.f) % 0x1_0000), intr := t.intr, mem := t.mem)
      && Sp(t) == (Sp(s) + 6) % SpMod(s) && OnStack(t, 0, rest) && Reach(t, d - 6) && SameLayout(s.mem, t.mem)
  {
    hide Reach, Slot, SameLayout, OnStack, Pop, Sp, SpMod, Base, Moved, SetSp, FlagsOf, FlagsWord, Iret, IntItems, Low;
    PopReturnLaw(s, x, d, rest);
    var t3 := Pop(Pop(Pop(s, 2).0, 2).0, 2).0;
    IretIs(s, t3);
    SamePlace(t3, Iret(s), d - 6, rest);
    SmallLow(x.eip);
    SmallLow(x.segs.cs.sel);
    SmallLow(FlagsWord(x.f));
  }

  lemma IretIs(s: St, t: St)
    requires !s.sys.protected && !s.mode.data32 && Moved(s, t)
    requires t == Pop(Pop(Pop(s, 2).0, 2).0, 2).0
    ensures var v := Iret(s);
      && v == s.(gen := SetSp(s, Sp(t)).gen, segs := s.segs.(cs := RealSeg(s.segs.cs, Lo16(Pop(Pop(s, 2).0, 2).1))),
                 eip := Pop(s, 2).1, f := IretFlags(Pop(Pop(Pop(s, 2).0, 2).0, 2).1), intr := t.intr, mem := t.mem)
      && Sp(v) == Sp(t) && SpMod(v) == SpMod(t) && Base(v) == Base(t)
  {
    hide Pop, SetLo16, FlagsOf, Lo16, U16, U32;
    MovedIs(s, t);
    SameSp(t, Iret(s));
  }

  /** A word on an even 16-bit stack never crosses the 64K limit. */
  predicate EvenStack(s: St) { !s.mode.stack32 && s.segs.ss.limit >= 0xffff && Sp(s) % 2 == 0 }

  lemma PopChecks(s: St)
    ensures Pop(s, 2).0.intr == Check(s, s.segs.ss, Sp(s), 2).intr
  {
    hide ReadN, SetLo16, U16, U32, Check;
    CheckIs(s, s.segs.ss, Sp(s), 2);
  }

  lemma CheckQuiet(s: St, seg: Seg, ofs: u32)
    requires ofs % 2 == 0 && ofs < 0x1_0000 <= seg.limit + 1
    ensures Check(s, seg, ofs, 2).intr == s.intr
  {
  }

  lemma PopQuiet(s: St)
    requires EvenStack(s)
    ensures Pop(s, 2).0.intr == s.intr && EvenStack(Pop(s, 2).0)
  {
    hide Pop, Sp, Moved, Check;
    PopIs(s, 2);
    MovedIs(s, Pop(s, 2).0);
    PopChecks(s);
    StaysPut(s);
    CheckQuiet(s, s.segs.ss, Sp(s));
    EvenBelow(Sp(s) + 2);
  }

  lemma IretQuiet(s: St)
    requires EvenStack(s) && !s.sys.protected && !s.mode.data32
    ensures Iret(s).intr == s.intr
  {
    hide Pop, FlagsOf, EvenStack;
    PopQuiet(s);
    PopQuiet(Pop(s, 2).0);
    var t := Pop(Pop(s, 2).0, 2).0;
    PopQuiet(t);
    PopIs(s, 2);
    PopIs(Pop(s, 2).0, 2);
    PopIs(t, 2);
  }

  lemma EvenSix(s: St, t: St)
    requires EvenStack(s) && Sp(t) == (Sp(s) - 6) % SpMod(s) && t.mode == s.mode && t.segs.ss == s.segs.ss
    ensures EvenStack(t)
  {
    hide Sp;
    EvenBelow(Sp(s) - 6);
  }

  lemma EvenBelow(x: int)
    requires x % 2 == 0
    ensures x % 0x1_0000 % 2 == 0
  {
    DivMod(x, 2);
    DivMod(x, 0x1_0000);
    DivUnique(x % 0x1_0000, 2, x / 2 - 0x8000 * (x / 0x1_0000), 0);
  }

  /** Delivered, unwound to the delivery, returned: the registers are back. */
  lemma Returned(s: St, t: St, u: St, v: St)
    requires Real16(s) && Entered(s, t) && u == t.(f := u.f, intr := u.intr, mem := u.mem)
    requires v == u.(gen := SetSp(u, Sp(v)).gen, segs := u.segs.(cs := RealSeg(u.segs.cs, s.segs.cs.sel)), eip := s.eip,
                     f := v.f, intr := v.intr, mem := v.mem)
    requires Sp(v) == Sp(s)
    ensures v == s.(f := v.f, intr := v.intr, mem := v.mem)
  {
  }

  lemma {:induction false} Unwind(s: St, nrs: seq<u8>, d: nat, rest: seq<Item>)
    requires Real16(s) && s.intr.pending.NoIntr? && Room(s, d) && 6 * |nrs| <= d
    requires OnStack(s, 0, rest) && Depth(rest) + d <= SpMod(s)
    ensures var u := Irets(Nest(s, nrs), |nrs|);
      && u == s.(f := u.f, intr := u.intr, mem := u.mem)
      && u.f == (if nrs == [] then s.f else s.f.(b1 := true, high := s.f.high % 0x10))
      && SameLayout(s.mem, u.mem) && Separate(u.mem) && OnStack(u, 0, rest)
      && (EvenStack(s) ==> u.intr.pending.NoIntr?)
    decreases |nrs|
  {
    hide Room, Reach, SameLayout, OnStack, Deliver, Iret, Sp, SpMod, Base, SetSp, FlagsOf, FlagsWord, Depth, Separate,
         EvenStack;
    RoomIs(s, d);
    StaysPut(s);
    if nrs != [] {
      var t := Deliver(s, nrs[0]);
      DeliverLaw(s, nrs[0], d, rest);
      SameSp(s, s);
      EnteredPlace(s, t);
      Unwind(t, nrs[1..], d - 6, IntItems(s, rest));
      var k := |nrs| - 1;
      var u := Irets(Nest(t, nrs[1..]), k);
      SameSp(t, u);
      SameLayoutTrans(s.mem, t.mem, u.mem);
      RoomReached(s, u, 6, d);
      IretLaw(u, s, 6, rest);
      var v := Iret(u);
      assert v == Irets(Nest(s, nrs), |nrs|);
      Shifted(SpMod(s), Sp(s), 6, 0);
      Returned(s, t, u, v);
      SameLayoutTrans(s.mem, u.mem, v.mem);
      FlagsOfLow(s.f);
      ReachIs(v, 0);
      if EvenStack(s) {
        EvenSix(s, t);
        EvenSame(t, u);
        IretQuiet(u);
      }
    }
  }

  lemma EnteredPlace(s: St, t: St)
    requires Entered(s, t)
    ensures SpMod(t) == SpMod(s) && Base(t) == Base(s) && t.mode == s.mode && t.segs.ss == s.segs.ss && t.sys == s.sys
  {
  }

  lemma ReachIs(s: St, d: nat)
    ensures Reach(s, d) ==> Separate(s.mem)
  {
    hide Separate, Usable;
  }

  lemma EvenSame(s: St, t: St)
    requires EvenStack(s) && t == s.(f := t.f, intr := t.intr, mem := t.mem)
    ensures EvenStack(t)
  {
  }

  /**
  Theorem: in 16-bit real mode, k interrupts delivered one inside the other and then k returns restore CS (selector
  and base), IP, the stack pointer and every other register, and the low 16 flags with bit 1 set; for every k that
  fits the stack, every vector sequence and every IDT content. On an even stack no fault is requested on the way.
  */
  lemma IretsUndoInterrupts(s: St, nrs: seq<u8>)
    requires Real16(s) && s.intr.pending.NoIntr? && nrs != [] && Room(s, 6 * |nrs|)
    ensures var u := Irets(Nest(s, nrs), |nrs|);
      && u == s.(f := s.f.(b1 := true, high := s.f.high % 0x10), intr := u.intr, mem := u.mem)
      && (EvenStack(s) ==> u.intr.pending.NoIntr?)
  {
    hide Room, SameLayout, Separate, Irets, Nest, EvenStack;
    RoomIs(s, 6 * |nrs|);
    Unwind(s, nrs, 6 * |nrs|, []);
  }
}
