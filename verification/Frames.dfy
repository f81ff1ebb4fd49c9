/** pusha and popa (ops.c): all registers go to the stack and come back. */
module Frames {
  import opened Words
  import opened Bits
  import opened FlatMemory
  import opened MemoryLaws
  import opened PagedMemory
  import opened Machine
  import opened Stack

  /** Operand size of the instruction, in bytes. */
  function OpBytes(s: St): Width { if s.mode.data32 then 4 else 2 }

  /** Operand size and stack size agree. */
  predicate Matched(s: St) { s.mode.data32 == s.mode.stack32 }

  // ---- pusha and popa ----

  /** The registers in the order pusha stores them. */
  function Reg(g: Regs, i: nat): u32
    requires i < 8
  {
    if i == 0 then g.eax else if i == 1 then g.ecx else if i == 2 then g.edx else if i == 3 then g.ebx
    else if i == 4 then g.esp else if i == 5 then g.ebp else if i == 6 then g.esi else g.edi
  }

  /** A 32- or 16-bit register write. */
  function Merge(old32: u32, n: Width, v: u32): u32 { if n == 4 then v else SetLo16(old32, Lo16(v)) }

  function SetReg(g: Regs, i: nat, n: Width, v: u32): Regs
    requires i < 8
  {
    var x := Merge(Reg(g, i), n, v);
    if i == 0 then g.(eax := x) else if i == 1 then g.(ecx := x) else if i == 2 then g.(edx := x)
    else if i == 3 then g.(ebx := x) else if i == 4 then g.(esp := x) else if i == 5 then g.(ebp := x)
    else if i == 6 then g.(esi := x) else g.(edi := x)
  }

  /** The first `k` registers as stack items, the last one on top. */
  function Saves(g: Regs, n: Width, k: nat): seq<Item>
    requires k <= 8
  {
    if k == 0 then [] else [Item(n, Low(Reg(g, k - 1), n))] + Saves(g, n, k - 1)
  }

  function PushA(s: St): St { PushAll(s, Saves(s.gen, OpBytes(s), 8)) }

  lemma {:induction false} PushAllMoved(s: St, items: seq<Item>)
    ensures Moved(s, PushAll(s, items))
    decreases |items|
  {
    hide Moved, Push, Sp, SpMod, Base;
    MovedIs(s, s);
    if items != [] {
      var t := PushAll(s, items[1..]);
      PushAllMoved(s, items[1..]);
      PushIs(t, items[0].n, items[0].v);
      MovedTrans(s, t, Push(t, items[0].n, items[0].v));
    }
  }

  /** One more register of the frame. */
  lemma PushOne(s: St, n: Width, k: nat)
    requires k < 8
    ensures PushAll(s, Saves(s.gen, n, k + 1)) == Push(PushAll(s, Saves(s.gen, n, k)), n, Low(Reg(s.gen, k), n))
    ensures PushAll(s, Saves(s.gen, n, 0)) == s
    ensures k != 4 ==> Reg(PushAll(s, Saves(s.gen, n, k)).gen, k) == Reg(s.gen, k)
    ensures PushAll(s, Saves(s.gen, n, k)).mode == s.mode
  {
    hide Push;
    PushAllMoved(s, Saves(s.gen, n, k));
    assert Saves(s.gen, n, k + 1)[1..] == Saves(s.gen, n, k);
  }

  /** One step of pusha. */
  method PushReg(emu: Emu, ghost s: St, n: Width, ghost k: nat, v: u32)
    requires emu.Valid() && k < 8
    requires emu.State() == PushAll(s, Saves(s.gen, n, k)) && v == Reg(s.gen, k)
    modifies emu`gen, emu`intr, emu`made, emu.mem, emu.mem.Repr(), emu.mem.host
    ensures emu.Valid() && fresh(emu.mem.Repr() - old(emu.mem.Repr()))
    ensures emu.State() == PushAll(s, Saves(s.gen, n, k + 1))
    ensures k < 7 && k != 3 ==> Reg(emu.gen, k + 1) == Reg(s.gen, k + 1)
  {
    hide Mem.Valid, PushAll, Saves, Push;
    PushOne(s, n, k);
    if k < 7 {
      PushOne(s, n, k + 1);
    }
    PushN(emu, n, Low(v, n));
  }

  method PushFirstHalf(emu: Emu, n: Width)
    requires emu.Valid()
    modifies emu`gen, emu`intr, emu`made, emu.mem, emu.mem.Repr(), emu.mem.host
    ensures emu.Valid() && fresh(emu.mem.Repr() - old(emu.mem.Repr()))
    ensures emu.State() == PushAll(old(emu.State()), Saves(old(emu.gen), n, 4))
  {
    hide Mem.Valid, PushAll, Saves, Push, Low;
    ghost var s := emu.State();
    PushOne(s, n, 0);
    PushReg(emu, s, n, 0, emu.gen.eax);
    PushReg(emu, s, n, 1, emu.gen.ecx);
    PushReg(emu, s, n, 2, emu.gen.edx);
    PushReg(emu, s, n, 3, emu.gen.ebx);
  }

  method PushAllRegs(emu: Emu)
    requires emu.Valid()
    modifies emu`gen, emu`intr, emu`made, emu.mem, emu.mem.Repr(), emu.mem.host
    ensures emu.Valid() && fresh(emu.mem.Repr() - old(emu.mem.Repr()))
    ensures emu.State() == PushA(old(emu.State()))
  {
    hide Mem.Valid, PushAll, Saves, Push, Low;
    ghost var s := emu.State();
    var esp := emu.gen.esp;
    var n: Width := if emu.mode.data32 then 4 else 2;
    PushFirstHalf(emu, n);
    PushReg(emu, s, n, 4, esp);
    PushReg(emu, s, n, 5, emu.gen.ebp);
    PushReg(emu, s, n, 6, emu.gen.esi);
    PushReg(emu, s, n, 7, emu.gen.edi);
  }

  /** One step of popa; the saved stack pointer is skipped by operand size. */
  function PopReg(s: St, n: Width, i: nat): St
    requires i < 8
  {
    if i == 4 then s.(gen := SetReg(s.gen, 4, n, U32(s.gen.esp + n)))
    else
      var (t, v) := Pop(s, n);
      t.(gen := SetReg(t.gen, i, n, v))
  }

  /** popa, from register `k - 1` down. */
  function PopA(s: St, n: Width, k: nat): St
    requires k <= 8
    decreases k
  {
    if k == 0 then s else PopA(PopReg(s, n, k - 1), n, k - 1)
  }

  method PopRegN(emu: Emu, n: Width, i: nat)
    requires emu.Valid() && i < 8 && n != 1
    modifies emu`gen, emu`intr, emu`made, emu.mem, emu.mem.Repr(), emu.mem.host
    ensures emu.Valid() && fresh(emu.mem.Repr() - old(emu.mem.Repr()))
    ensures emu.State() == PopReg(old(emu.State()), n, i)
  {
    hide Mem.Valid, Pop, SetReg;
    if i == 4 {
      emu.gen := SetReg(emu.gen, 4, n, U32(emu.gen.esp + n));
    } else {
      var v := PopN(emu, n);
      emu.gen := SetReg(emu.gen, i, n, v);
    }
  }

  lemma PopAFrom(s: St, n: Width)
    ensures var s7 := PopReg(s, n, 7);
      var s6 := PopReg(s7, n, 6);
      var s5 := PopReg(s6, n, 5);
      var s4 := PopReg(s5, n, 4);
      PopA(s, n, 8) == PopA(s4, n, 4)
  {
    hide PopReg;
    assert PopA(s, n, 8) == PopA(PopReg(s, n, 7), n, 7);
    assert PopA(PopReg(s, n, 7), n, 7) == PopA(PopReg(PopReg(s, n, 7), n, 6), n, 6);
  }

  lemma PopATo(s: St, n: Width)
    ensures var s3 := PopReg(s, n, 3);
      var s2 := PopReg(s3, n, 2);
      var s1 := PopReg(s2, n, 1);
      PopA(s, n, 4) == PopReg(s1, n, 0)
  {
    hide PopReg;
    assert PopA(s, n, 4) == PopA(PopReg(s, n, 3), n, 3);
    assert PopA(PopReg(s, n, 3), n, 3) == PopA(PopReg(PopReg(s, n, 3), n, 2), n, 2);
  }

  method PopLastHalf(emu: Emu, n: Width)
    requires emu.Valid() && n != 1
    modifies emu`gen, emu`intr, emu`made, emu.mem, emu.mem.Repr(), emu.mem.host
    ensures emu.Valid() && fresh(emu.mem.Repr() - old(emu.mem.Repr()))
    ensures emu.State() == PopA(old(emu.State()), n, 4)
  {
    hide Mem.Valid, PopA, PopReg;
    PopATo(emu.State(), n);
    PopRegN(emu, n, 3);
    PopRegN(emu, n, 2);
    PopRegN(emu, n, 1);
    PopRegN(emu, n, 0);
  }

  method PopAllRegs(emu: Emu)
    requires emu.Valid()
    modifies emu`gen, emu`intr, emu`made, emu.mem, emu.mem.Repr(), emu.mem.host
    ensures emu.Valid() && fresh(emu.mem.Repr() - old(emu.mem.Repr()))
    ensures emu.State() == PopA(old(emu.State()), OpBytes(old(emu.State())), 8)
  {
    hide Mem.Valid, PopA, PopReg;
    var n: Width := if emu.mode.data32 then 4 else 2;
    PopAFrom(emu.State(), n);
    PopRegN(emu, n, 7);
    PopRegN(emu, n, 6);
    PopRegN(emu, n, 5);
    PopRegN(emu, n, 4);
    PopLastHalf(emu, n);
  }

  lemma {:induction false} SavesSize(g: Regs, n: Width, k: nat)
    requires k <= 8
    ensures Depth(Saves(g, n, k)) == n * k
  {
    if k > 0 {
      SavesSize(g, n, k - 1);
      assert Saves(g, n, k)[1..] == Saves(g, n, k - 1);
    }
  }

  lemma SavesTop(s: St, g: Regs, n: Width, k: nat)
    requires 0 < k <= 8 && OnStack(s, 0, Saves(g, n, k))
    ensures Slot(s, 0, n, Low(Reg(g, k - 1), n)) && OnStack(s, n, Saves(g, n, k - 1))
    ensures Depth(Saves(g, n, k)) == n + Depth(Saves(g, n, k - 1))
  {
    assert Saves(g, n, k)[1..] == Saves(g, n, k - 1);
  }

  lemma MergeLow(x: u32, n: Width, y: u32)
    requires n != 1
    ensures Merge(x, n, Low(Low(y, n), n)) == Merge(x, n, y)
  {
    hide SetLo16;
  }

  /** Writing a register other than the stack pointer leaves the stack where it is. */
  lemma SetRegStack(s: St, i: nat, n: Width, v: u32)
    requires i < 8 && i != 4
    ensures var t := s.(gen := SetReg(s.gen, i, n, v));
      && Sp(t) == Sp(s) && SpMod(t) == SpMod(s) && Base(t) == Base(s) && t.gen.esp == s.gen.esp
      && Reg(t.gen, i) == Merge(Reg(s.gen, i), n, v)
      && forall j: nat :: j < 8 && j != i ==> Reg(t.gen, j) == Reg(s.gen, j)
  {
    hide Merge;
  }

  /** Stack facts depend on memory, pointer and stack segment alone. */
  lemma {:induction false} SameStack(s: St, t: St, off: nat, items: seq<Item>)
    requires t.mem == s.mem && Sp(t) == Sp(s) && SpMod(t) == SpMod(s) && Base(t) == Base(s)
    ensures OnStack(s, off, items) ==> OnStack(t, off, items)
    ensures forall d: nat :: Reach(s, d) ==> Reach(t, d)
    decreases |items|
  {
    hide Sp, SpMod, Base, Saved, Usable, Separate;
    if items != [] {
      SameStack(s, t, off + items[0].n, items[1..]);
    }
  }

  lemma MovedRegs(s: St, t: St)
    requires Moved(s, t)
    ensures forall j: nat :: j < 8 && j != 4 ==> Reg(t.gen, j) == Reg(s.gen, j)
    ensures !s.mode.stack32 ==> t.gen.esp / 0x1_0000 == s.gen.esp / 0x1_0000
    ensures t.mode == s.mode
  {
  }

  /** Register `k` has the operand-sized part it has in `g`; the others, but for the pointer, are unchanged. */
  predicate RegBack(s: St, t: St, g: Regs, n: Width, k: nat)
    requires k < 8
  {
    && (forall i: nat :: i < 8 && i != 4 && i != k ==> Reg(t.gen, i) == Reg(s.gen, i))
    && (k != 4 ==> Reg(t.gen, k) == Merge(Reg(s.gen, k), n, Reg(g, k)))
  }

  predicate RegsBack(s: St, t: St, g: Regs, n: Width, k: nat)
    requires k <= 8
  {
    forall i: nat :: i < 8 && i != 4 ==>
      Reg(t.gen, i) == if i < k then Merge(Reg(s.gen, i), n, Reg(g, i)) else Reg(s.gen, i)
  }

  lemma RegsBackStep(s: St, t: St, u: St, g: Regs, n: Width, k: nat)
    requires 0 < k <= 8 && RegBack(s, t, g, n, k - 1) && RegsBack(t, u, g, n, k - 1)
    ensures RegsBack(s, u, g, n, k)
  {
    hide Reg, Merge;
  }

  /**
  The skip over the saved stack pointer, `off` bytes further up, moves the pointer as a pop would: operand size and
  stack size agree, or the skip stays within its 64K.
  */
  predicate SkipFits(s: St, n: Width, off: nat) {
    (if s.mode.stack32 then n == 4 else n == 2) || (Sp(s) + off) % 0x1_0000 + n < 0x1_0000
  }

  /** How far up the skip is when register `k - 1` is next. */
  function SkipAhead(n: Width, k: nat): nat { if k < 6 then 0 else n + SkipAhead(n, k - 1) }

  lemma SkipNearer(s: St, t: St, n: Width, k: nat)
    requires Sp(t) == (Sp(s) + n) % SpMod(s) && t.mode == s.mode && k > 0
    ensures k > 5 && SkipFits(s, n, SkipAhead(n, k)) ==> SkipFits(t, n, SkipAhead(n, k - 1))
    ensures SkipAhead(n, 5) == 0
  {
    hide Sp, SpMod;
    LowOfSum(SpMod(s), Sp(s) + n, SkipAhead(n, k - 1));
  }

  lemma LowOfSum(m: nat, x: int, y: int)
    requires IsSpMod(m)
    ensures (x % m + y) % 0x1_0000 == (x + y) % 0x1_0000
  {
    if m == 0x1_0000 {
      assert x + y == x % m + y + 0x1_0000 * (x / m);
    } else {
      assert x + y == x % m + y + 0x1_0000 * (0x1_0000 * (x / m));
    }
  }

  /** One register of the frame comes back, and the rest of the frame is next. */
  lemma PopRegLaw(s: St, g: Regs, n: Width, k: nat, d: nat)
    requires 0 < k <= 8 && n != 1 && (k == 5 ==> SkipFits(s, n, 0))
    requires Reach(s, d) && n <= d && OnStack(s, 0, Saves(g, n, k))
    ensures var t := PopReg(s, n, k - 1);
      && Sp(t) == (Sp(s) + n) % SpMod(s) && t.mode == s.mode && SpMod(t) == SpMod(s)
      && Reach(t, d - n) && OnStack(t, 0, Saves(g, n, k - 1))
      && (!s.mode.stack32 ==> t.gen.esp / 0x1_0000 == s.gen.esp / 0x1_0000)
      && RegBack(s, t, g, n, k - 1)
  {
    hide Moved, Sp, SpMod, Base, Reach, Slot, Pop, Merge, Reg, SetReg, Saves, Depth, SameData, SameLayout, OnStack;
    SavesTop(s, g, n, k);
    var v := Low(Reg(g, k - 1), n);
    if k == 5 {
      SkipIs(s, n);
      SkipLaw(s, n, d);
      RisenStack(s, PopReg(s, n, 4), n, n, Saves(g, n, 4));
    } else {
      PopStep(s, n, v, d);
      var (t, r) := Pop(s, n);
      MovedRegs(s, t);
      RisenStack(s, t, n, n, Saves(g, n, k - 1));
      SetRegStack(t, k - 1, n, r);
      SameStack(t, PopReg(s, n, k - 1), 0, Saves(g, n, k - 1));
      MergeLow(Reg(s.gen, k - 1), n, Reg(g, k - 1));
    }
  }

  /** Skipping the saved stack pointer is a pop without a value. */
  lemma SkipLaw(s: St, n: Width, d: nat)
    requires Reach(s, d) && n <= d && n != 1 && SkipFits(s, n, 0)
    ensures var t := PopReg(s, n, 4); Risen(s, t, n) && Reach(t, d - n)
  {
    hide Usable, Separate, At, Data, Sp, SpMod;
    SkipIs(s, n);
    Regroup(SpMod(s), Sp(s), d, n);
    UsableDeeper(s.mem, Base(s), SpMod(s), (Sp(s) + d) % SpMod(s), d, 0, d - n);
    Reduced(SpMod(s), Sp(s) + d);
    Fits(SpMod(s), (Sp(s) + d) % SpMod(s));
  }

  lemma Lo16Adds(x: u32, n: Width)
    ensures Lo16(U32(x + n)) == (Lo16(x) + n) % 0x1_0000
  {
    var q, r := x / 0x1_0000, x % 0x1_0000;
    assert x == 0x1_0000 * q + r;
  }

  lemma LowHalves(s: St)
    ensures Sp(s) % 0x1_0000 == Lo16(s.gen.esp)
  {
  }

  lemma SkipIs(s: St, n: Width)
    requires n != 1 && SkipFits(s, n, 0)
    ensures var t := PopReg(s, n, 4);
      && t == s.(gen := t.gen) && Sp(t) == (Sp(s) + n) % SpMod(s) && SpMod(t) == SpMod(s) && Base(t) == Base(s)
      && (!s.mode.stack32 ==> t.gen.esp / 0x1_0000 == s.gen.esp / 0x1_0000)
      && (forall i: nat :: i < 8 && i != 4 ==> Reg(t.gen, i) == Reg(s.gen, i))
  {
    hide Lo16, SetLo16, U32;
    LowHalves(s);
    U32Is(s.gen.esp + n);
    if Lo16(s.gen.esp) + n < 0x1_0000 {
      NoCarry(s.gen.esp, n);
    }
    Lo16Adds(s.gen.esp, n);
    SetLo16Is(s.gen.esp, Lo16(U32(s.gen.esp + n)));
  }

  /** A sum that stays within its 64K. */
  lemma NoCarry(x: u32, n: Width)
    requires Lo16(x) + n < 0x1_0000
    ensures x + n < 0x1_0000_0000 && (x + n) / 0x1_0000 == x / 0x1_0000 && Lo16(x + n) == Lo16(x) + n
    ensures SetLo16(x, Lo16(x + n)) == x + n
  {
    DivMod(x, 0x1_0000);
    DivUnique(x + n, 0x1_0000, x / 0x1_0000, Lo16(x) + n);
  }

  lemma U32Is(x: int)
    ensures U32(x) == x % 0x1_0000_0000 && (0 <= x < 0x1_0000_0000 ==> U32(x) == x)
  {
  }

  lemma {:induction false} PopALaw(s: St, g: Regs, n: Width, k: nat)
    requires k <= 8 && n != 1 && (k >= 5 ==> SkipFits(s, n, SkipAhead(n, k)))
    requires Reach(s, Depth(Saves(g, n, k))) && OnStack(s, 0, Saves(g, n, k))
    ensures var t := PopA(s, n, k);
      && Sp(t) == (Sp(s) + Depth(Saves(g, n, k))) % SpMod(s) && t.mode == s.mode
      && (!s.mode.stack32 ==> t.gen.esp / 0x1_0000 == s.gen.esp / 0x1_0000)
      && RegsBack(s, t, g, n, k)
    decreases k
  {
    hide Moved, Sp, SpMod, Base, Reach, Slot, Pop, PopReg, Merge, Reg, SetReg, Saves, Depth, Risen, SameLayout,
         OnStack, RegBack;
    if k == 0 {
      StaysPut(s);
      SavesSize(g, n, 0);
    } else {
      var d := Depth(Saves(g, n, k));
      SavesTop(s, g, n, k);
      PopRegLaw(s, g, n, k, d);
      var t := PopReg(s, n, k - 1);
      SkipNearer(s, t, n, k);
      PopALaw(t, g, n, k - 1);
      RegsBackStep(s, t, PopA(t, n, k - 1), g, n, k);
      Regroup(SpMod(s), Sp(s), d, n);
    }
  }

  /** The registers that popa must give back: all of them, or their low halves over what `q` left in the high ones. */
  predicate AllBack(s: St, q: St, u: St, n: Width) {
    RegsBack(q, u, s.gen, n, 8) && u.gen.esp == s.gen.esp
  }

  lemma AllBackIs(s: St, q: St, u: St, n: Width)
    requires AllBack(s, q, u, n)
    ensures n == 4 ==> u.gen == s.gen
    ensures n == 2 && (forall i: nat :: i < 8 && i != 4 ==> Reg(q.gen, i) == Reg(s.gen, i)) ==> u.gen == s.gen
  {
    assert forall i: nat :: i < 8 && i != 4 ==> Reg(u.gen, i) == Merge(Reg(q.gen, i), n, Reg(s.gen, i));
    assert Reg(u.gen, 0) == u.gen.eax && Reg(u.gen, 1) == u.gen.ecx && Reg(u.gen, 2) == u.gen.edx;
    assert Reg(u.gen, 3) == u.gen.ebx && Reg(u.gen, 5) == u.gen.ebp;
    assert Reg(u.gen, 6) == u.gen.esi && Reg(u.gen, 7) == u.gen.edi;
  }

  lemma EspBack(s: St, p: St, q: St, u: St)
    requires Moved(s, p) && q.gen.esp == p.gen.esp && q.mode == p.mode && u.mode == q.mode && Sp(u) == Sp(s)
    requires !s.mode.stack32 ==> u.gen.esp / 0x1_0000 == q.gen.esp / 0x1_0000
    ensures u.gen.esp == s.gen.esp
  {
  }

  /** The skip between pusha and popa lies five slots below the old pointer. */
  predicate SkipStays(s: St) {
    Matched(s) || (s.gen.esp - 5 * OpBytes(s)) % 0x1_0000 + OpBytes(s) < 0x1_0000
  }

  lemma SkipFrom(s: St, q: St)
    requires var n := OpBytes(s); Sp(q) == (Sp(s) - 8 * n) % SpMod(s) && q.mode == s.mode
    ensures var n := OpBytes(s); SkipFits(q, n, SkipAhead(n, 8)) <==> SkipStays(s)
    ensures var n := OpBytes(s); SkipAhead(n, 8) == 3 * n
  {
    var n := OpBytes(s);
    LowHalves(s);
    hide Sp, SpMod;
    var k: int := n;
    LowOfSum(SpMod(s), Sp(s) - 8 * k, 3 * k);
    LowOfSum(0x1_0000, s.gen.esp, 0 - 5 * k);
    LowOfSum(0x1_0000, Sp(s), 0 - 5 * k);
  }

  lemma PopaRestores(s: St, q: St)
    requires SkipStays(s) && Room(s, 8 * OpBytes(s))
    requires var p := PushA(s); q.mem == p.mem && q.mode == p.mode && q.segs == p.segs && q.gen.esp == p.gen.esp
    ensures AllBack(s, q, PopA(q, OpBytes(s), 8), OpBytes(s))
  {
    hide Moved, SameLayout, Sp, SpMod, Reach, Room, Slot, OnStack, PushAll, PopA, Saves, Depth, RegsBack, SkipFits,
         SkipStays;
    var n := OpBytes(s);
    var p, items := PushA(s), Saves(s.gen, n, 8);
    var d := Depth(items);
    SavesSize(s.gen, n, 8);
    PushAllLaw(s, items, d);
    MovedIs(s, p);
    RoomIs(p, 0);
    RoomReached(s, p, d, d);
    SameSp(p, q);
    SameStack(p, q, 0, items);
    SkipFrom(s, q);
    PopALaw(q, s.gen, n, 8);
    StaysPut(s);
    Shifted(SpMod(s), Sp(s), d, 0);
    EspBack(s, p, q, PopA(q, n, 8));
  }

  lemma SameSp(p: St, q: St)
    requires q.mode == p.mode && q.segs.ss == p.segs.ss && q.gen.esp == p.gen.esp
    ensures Sp(q) == Sp(p) && SpMod(q) == SpMod(p) && Base(q) == Base(p)
  {
  }

  // ---- popa when the skip crosses 64K ----

  /** `t` is `s` with the pointer moved by `k`, the way pops move it. */
  predicate Raised(s: St, t: St, k: int) {
    && t.mode == s.mode && Sp(t) == (Sp(s) + k) % SpMod(s)
    && (!s.mode.stack32 ==> t.gen.esp / 0x1_0000 == s.gen.esp / 0x1_0000)
  }

  lemma RaisedTrans(s: St, t: St, u: St, j: int, k: int)
    requires Raised(s, t, j) && Raised(t, u, k)
    ensures Raised(s, u, j + k)
  {
    hide Sp;
    Shifted(SpMod(s), Sp(s), 0 - j, j + k);
  }

  lemma PopRegRaises(s: St, n: Width, i: nat)
    requires i < 8 && i != 4
    ensures Raised(s, PopReg(s, n, i), n)
  {
    hide Pop, Sp, SpMod, Moved, SetReg;
    PopIs(s, n);
    var (t, v) := Pop(s, n);
    MovedRegs(s, t);
    SetRegStack(t, i, n, v);
  }

  lemma PopHalfRaises(s: St, n: Width)
    ensures Raised(s, PopA(s, n, 4), 4 * n)
  {
    hide PopReg, PopA, Raised;
    PopATo(s, n);
    var s3 := PopReg(s, n, 3);
    var s2 := PopReg(s3, n, 2);
    var s1 := PopReg(s2, n, 1);
    PopRegRaises(s, n, 3);
    PopRegRaises(s3, n, 2);
    PopRegRaises(s2, n, 1);
    PopRegRaises(s1, n, 0);
    RaisedTrans(s, s3, s2, n, n);
    var k: int := n;
    RaisedTrans(s, s2, s1, 2 * k, n);
    RaisedTrans(s, s1, PopReg(s1, n, 0), 3 * k, n);
  }

  /** Crossing 64K, the skip carries into the high half of ESP with a 16-bit stack, and does not with a 32-bit one. */
  lemma SkipBreaks(s: St, n: Width)
    requires n != 1 && !SkipFits(s, n, 0)
    ensures var t := PopReg(s, n, 4);
      t.mode == s.mode &&
      if s.mode.stack32 then Sp(t) == Sp(s) + n - 0x1_0000 else t.gen.esp / 0x1_0000 != s.gen.esp / 0x1_0000
  {
    var x := s.gen.esp;
    Carries(x, n);
    if s.mode.stack32 {
      assert PopReg(s, n, 4).gen.esp == SetLo16(x, Lo16(U32(x + n)));
    } else {
      assert PopReg(s, n, 4).gen.esp == U32(x + n);
    }
  }

  lemma Carries(x: u32, n: Width)
    requires x % 0x1_0000 + n >= 0x1_0000
    ensures U32(x + n) / 0x1_0000 != x / 0x1_0000 && SetLo16(x, Lo16(U32(x + n))) == x + n - 0x1_0000
  {
    var q, r := x / 0x1_0000, x % 0x1_0000;
    assert x + n == 0x1_0000 * (q + 1) + (r + n - 0x1_0000);
    Lo16Adds(x, n);
    assert Lo16(U32(x + n)) == r + n - 0x1_0000;
    if q < 0xffff {
      assert U32(x + n) == 0x1_0000 * (q + 1) + (r + n - 0x1_0000);
    } else {
      assert U32(x + n) == r + n - 0x1_0000;
    }
  }

  /** Three pops, the skip and four pops, from a pointer `q` that is eight slots below that of `s`. */
  lemma PopaBreaks(s: St, q: St)
    requires !SkipStays(s) && q.mode == s.mode && Sp(q) == (Sp(s) - 8 * OpBytes(s)) % SpMod(s)
    requires !s.mode.stack32 ==> q.gen.esp / 0x1_0000 == s.gen.esp / 0x1_0000
    ensures PopA(q, OpBytes(s), 8).gen.esp != s.gen.esp
    ensures s.mode.stack32 ==> PopA(q, OpBytes(s), 8).gen.esp == (s.gen.esp - 0x1_0000) % 0x1_0000_0000
  {
    hide PopA, PopReg, Sp, SpMod, SkipFits, SkipStays;
    var n := OpBytes(s);
    var s7 := PopReg(q, n, 7);
    var s6 := PopReg(s7, n, 6);
    var s5 := PopReg(s6, n, 5);
    PopAFrom(q, n);
    PopRegRaises(q, n, 7);
    PopRegRaises(s7, n, 6);
    PopRegRaises(s6, n, 5);
    RaisedTrans(q, s7, s6, n, n);
    var k: int := n;
    RaisedTrans(q, s6, s5, 2 * k, n);
    SkipFrom(s, q);
    SkipAt(q, s5, n);
    SkipBreaks(s5, n);
    PopHalfRaises(PopReg(s5, n, 4), n);
    Ends(s, q, s5, PopReg(s5, n, 4), PopA(q, n, 8));
  }

  lemma SkipAt(q: St, t: St, n: Width)
    requires Raised(q, t, 3 * n)
    ensures SkipFits(t, n, 0) == SkipFits(q, n, 3 * n)
  {
    hide Sp, SpMod;
    LowOfSum(SpMod(q), Sp(q) + 3 * n, 0);
  }

  lemma Ends(s: St, q: St, t: St, t': St, u: St)
    requires var n := OpBytes(s);
      && q.mode == s.mode && Sp(q) == (Sp(s) - 8 * n) % SpMod(s) && Raised(q, t, 3 * n) && Raised(t', u, 4 * n)
      && t'.mode == s.mode
      && if s.mode.stack32 then Sp(t') == Sp(t) + n - 0x1_0000 else t'.gen.esp / 0x1_0000 != t.gen.esp / 0x1_0000
    requires !s.mode.stack32 ==> q.gen.esp / 0x1_0000 == s.gen.esp / 0x1_0000
    ensures u.gen.esp != s.gen.esp
    ensures s.mode.stack32 ==> u.gen.esp == (s.gen.esp - 0x1_0000) % 0x1_0000_0000
  {
    var n: int := OpBytes(s);
    if s.mode.stack32 {
      Shifted(0x1_0000_0000, s.gen.esp, 8 * n, 0 - 5 * n);
      Shifted(0x1_0000_0000, s.gen.esp, 5 * n, 0 - 0x1_0000);
    }
  }

  lemma PopaLosesPointer(s: St, q: St)
    requires !SkipStays(s)
    requires var p := PushA(s); q.mem == p.mem && q.mode == p.mode && q.segs == p.segs && q.gen.esp == p.gen.esp
    ensures PopA(q, OpBytes(s), 8).gen.esp != s.gen.esp
  {
    hide PopA, RegsBack, PushAll, SkipStays, Sp, SpMod, Saves, Moved, SameLayout, OnStack;
    PushedBelow(s);
    SameSp(PushA(s), q);
    PopaBreaks(s, q);
  }

  /** Where pusha leaves the pointer, on any stack. */
  lemma PushedBelow(s: St)
    ensures var p := PushA(s);
      && p.mode == s.mode && Sp(p) == (Sp(s) - 8 * OpBytes(s)) % SpMod(s)
      && (!s.mode.stack32 ==> p.gen.esp / 0x1_0000 == s.gen.esp / 0x1_0000)
  {
    hide PushAll, Sp, SpMod, Saves, Moved;
    var n := OpBytes(s);
    SavesSize(s.gen, n, 8);
    PushAllMoved(s, Saves(s.gen, n, 8));
    MovedRegs(s, PushA(s));
    PushAllSp(s, Saves(s.gen, n, 8));
  }

  lemma {:induction false} PushAllSp(s: St, items: seq<Item>)
    ensures Sp(PushAll(s, items)) == (Sp(s) - Depth(items)) % SpMod(s)
    decreases |items|
  {
    hide Push, Sp, SpMod, Base, Moved;
    StaysPut(s);
    if items != [] {
      var t := PushAll(s, items[1..]);
      PushAllSp(s, items[1..]);
      PushAllMoved(s, items[1..]);
      MovedIs(s, t);
      PushIs(t, items[0].n, items[0].v);
      Shifted(SpMod(s), Sp(s), Depth(items[1..]), 0 - Depth(items));
    }
  }

  /**
  Theorem: popa gives back what pusha saved, whatever happened to the other registers in between, as long as the
  stack pointer and the stack are as pusha left them, exactly when the skip of the saved stack pointer stays within
  64K or operand size and stack size agree.
  */
  lemma PopaUndoesPusha(s: St, q: St)
    requires Room(s, 8 * OpBytes(s))
    requires var p := PushA(s); q.mem == p.mem && q.mode == p.mode && q.segs == p.segs && q.gen.esp == p.gen.esp
    ensures AllBack(s, q, PopA(q, OpBytes(s), 8), OpBytes(s)) <==> SkipStays(s)
  {
    hide Room, PopA, RegsBack, PushAll, SkipStays, Sp, SpMod, Saves, Moved, SameLayout, OnStack;
    if SkipStays(s) {
      PopaRestores(s, q);
    } else {
      PopaLosesPointer(s, q);
    }
  }

  /** Theorem: with nothing in between, the same condition decides whether all registers are what they were. */
  lemma PopaAfterPusha(s: St)
    requires Room(s, 8 * OpBytes(s))
    ensures PopA(PushA(s), OpBytes(s), 8).gen == s.gen <==> SkipStays(s)
  {
    hide Room, PopA, RegsBack, PushAll, SkipStays, Sp, SpMod, Saves, Moved, SameLayout, OnStack;
    var n := OpBytes(s);
    var p := PushA(s);
    var u := PopA(p, n, 8);
    PopaUndoesPusha(s, p);
    PushAllMoved(s, Saves(s.gen, n, 8));
    MovedRegs(s, p);
    if AllBack(s, p, u, n) {
      AllBackIs(s, p, u, n);
    } else {
      PopaLosesPointer(s, p);
    }
  }

  /** Concretely: with 16-bit operands, a 32-bit stack and ESP = 0x10008, popa after pusha leaves ESP = 8. */
  lemma PopaFails(s: St)
    requires !s.mode.data32 && s.mode.stack32 && s.gen.esp == 0x1_0008
    ensures PopA(PushA(s), 2, 8).gen.esp == 8
  {
    hide PopA, PushA, Sp, SpMod;
    PushedBelow(s);
    PopaBreaks(s, PushA(s));
  }

  /** The image of pusha: EDI on top, and the stack pointer of before in the fifth place from below. */
  function Image(g: Regs, n: Width): seq<Item> {
    [Item(n, Low(g.edi, n)), Item(n, Low(g.esi, n)), Item(n, Low(g.ebp, n)), Item(n, Low(g.esp, n)),
     Item(n, Low(g.ebx, n)), Item(n, Low(g.edx, n)), Item(n, Low(g.ecx, n)), Item(n, Low(g.eax, n))]
  }

  lemma SavesTwo(g: Regs, n: Width, k: nat)
    requires k <= 6
    ensures Saves(g, n, k + 2) == [Item(n, Low(Reg(g, k + 1), n)), Item(n, Low(Reg(g, k), n))] + Saves(g, n, k)
    ensures Saves(g, n, 0) == []
  {
    hide Low, Reg;
    assert Saves(g, n, k + 2) == [Item(n, Low(Reg(g, k + 1), n))] + Saves(g, n, k + 1);
    assert Saves(g, n, k + 1) == [Item(n, Low(Reg(g, k), n))] + Saves(g, n, k);
  }

  lemma SavesImage(g: Regs, n: Width)
    ensures Saves(g, n, 8) == Image(g, n)
  {
    hide Low, Saves;
    SavesTwo(g, n, 0);
    SavesTwo(g, n, 2);
    SavesTwo(g, n, 4);
    SavesTwo(g, n, 6);
  }

  /** Theorem: what lies on the stack after pusha, operand-sized parts of all eight registers of before. */
  lemma PushaImage(s: St)
    requires Room(s, 8 * OpBytes(s))
    ensures var n: int := OpBytes(s); var t := PushA(s);
      OnStack(t, 0, Image(s.gen, OpBytes(s))) && Sp(t) == (Sp(s) - 8 * n) % SpMod(s) && Moved(s, t)
  {
    hide Moved, Room, OnStack, Saves, Image, PushAll, Depth, Sp, SpMod, SameLayout;
    var n := OpBytes(s);
    SavesSize(s.gen, n, 8);
    SavesImage(s.gen, n);
    PushAllLaw(s, Saves(s.gen, n, 8), Depth(Saves(s.gen, n, 8)));
  }

  /** Where popa leaves the pointer when operand and stack size agree. */
  lemma PopaMoves(s: St)
    requires Matched(s)
    ensures var k: int := OpBytes(s); Sp(PopA(s, OpBytes(s), 8)) == (Sp(s) + 8 * k) % SpMod(s)
  {
    hide PopA, PopReg, Sp, SpMod, SkipFits, Raised;
    var n, k: int := OpBytes(s), OpBytes(s);
    var s7 := PopReg(s, n, 7);
    var s6 := PopReg(s7, n, 6);
    var s5 := PopReg(s6, n, 5);
    var s4 := PopReg(s5, n, 4);
    PopAFrom(s, n);
    PopRegRaises(s, n, 7);
    PopRegRaises(s7, n, 6);
    PopRegRaises(s6, n, 5);
    RaisedTrans(s, s7, s6, n, n);
    RaisedTrans(s, s6, s5, 2 * k, n);
    SkipRaises(s, s5, 3 * k);
    RaisedTrans(s, s5, s4, 3 * k, n);
    PopHalfRaises(s4, n);
    RaisedTrans(s, s4, PopA(s, n, 8), 4 * k, 4 * k);
    RaisedIs(s, PopA(s, n, 8), 8 * k);
  }

  lemma SkipRaises(s: St, t: St, k: int)
    requires Matched(s) && Raised(s, t, k)
    ensures Raised(t, PopReg(t, OpBytes(s), 4), OpBytes(s))
  {
    hide PopReg, Sp, SpMod;
    SkipIs(t, OpBytes(s));
  }

  lemma RaisedIs(s: St, t: St, k: int)
    requires Raised(s, t, k)
    ensures Sp(t) == (Sp(s) + k) % SpMod(s)
  {
  }
}
