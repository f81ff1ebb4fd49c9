/** enter and leave (ops.c): a nested stack frame is built and removed. */
module EnterLeave {
  import opened Words
  import opened FlatMemory
  import opened MemoryLaws
  import opened PagedMemory
  import opened Machine
  import opened Stack
  import opened Frames

  function StackBytes(s: St): Width { if s.mode.stack32 then 4 else 2 }

  function Bp(s: St): u32 { if s.mode.stack32 then s.gen.ebp else Lo16(s.gen.ebp) }

  function SetBp(s: St, x: int): St {
    s.(gen := s.gen.(ebp := if s.mode.stack32 then U32(x) else SetLo16(s.gen.ebp, U16(x))))
  }

  /** One entry of the caller's display is read below its frame and pushed. */
  function CopyEntry(s: St, n: Width): St {
    var t := SetBp(s, Bp(s) - n);
    var (u, v) := Fetch(t, t.segs.ss, Bp(t), n);
    Push(u, n, v)
  }

  function CopyDisplay(s: St, n: Width, k: nat): St
    decreases k
  {
    if k == 0 then s else CopyDisplay(CopyEntry(s, n), n, k - 1)
  }

  /** The saved frame pointer and the display. */
  function PushFrame(s: St, nesting: nat): St {
    var t := Push(s, StackBytes(s), Bp(s));
    if nesting == 0 then t else Push(CopyDisplay(t, OpBytes(s), nesting - 1), OpBytes(s), Sp(t))
  }

  function EnterFrame(s: St, local: u16, nesting: nat): St {
    var t := PushFrame(s, nesting);
    var u := SetBp(t, Sp(Push(s, StackBytes(s), Bp(s))));
    SetSp(u, Sp(u) - local)
  }

  /** The operands of enter: the size of the locals and the nesting level. */
  function EnterArgs(s: St): (St, u32, u32) {
    var (s1, local) := FetchCode(s, 2);
    var (s2, nesting) := FetchCode(s1, 1);
    (s2, local, nesting)
  }

  function Enter(s: St): St {
    var (t, local, nesting) := EnterArgs(s);
    EnterFrame(t, U16(local), nesting % 0x20)
  }

  function Leave(s: St): St {
    var (t, v) := Pop(SetSp(s, Bp(s)), OpBytes(s));
    t.(gen := t.gen.(ebp := Merge(t.gen.ebp, OpBytes(s), v)))
  }

  method CopyEntryN(emu: Emu, n: Width)
    requires emu.Valid()
    modifies emu`gen, emu`intr, emu`made, emu.mem, emu.mem.Repr(), emu.mem.host
    ensures emu.Valid() && fresh(emu.mem.Repr() - old(emu.mem.Repr()))
    ensures emu.State() == CopyEntry(old(emu.State()), n)
  {
    hide Mem.Valid, Push, Fetch, SetLo16;
    var v;
    if emu.mode.stack32 {
      emu.gen := emu.gen.(ebp := U32(emu.gen.ebp - n));
      v := emu.FetchData(emu.segs.ss, emu.gen.ebp, n);
    } else {
      emu.gen := emu.gen.(ebp := SetLo16(emu.gen.ebp, U16(Lo16(emu.gen.ebp) - n)));
      v := emu.FetchData(emu.segs.ss, Lo16(emu.gen.ebp), n);
    }
    PushN(emu, n, v);
  }

  method CopyDisplayN(emu: Emu, n: Width, count: nat)
    requires emu.Valid()
    modifies emu`gen, emu`intr, emu`made, emu.mem, emu.mem.Repr(), emu.mem.host
    ensures emu.Valid() && fresh(emu.mem.Repr() - old(emu.mem.Repr()))
    ensures emu.State() == CopyDisplay(old(emu.State()), n, count)
  {
    hide Mem.Valid, Emu.Valid, CopyEntry;
    var i := 0;
    while i < count
      invariant i <= count && emu.Valid() && fresh(emu.mem.Repr() - old(emu.mem.Repr()))
      invariant CopyDisplay(emu.State(), n, count - i) == CopyDisplay(old(emu.State()), n, count)
    {
      CopyEntryN(emu, n);
      i := i + 1;
    }
  }

  method PushDisplayN(emu: Emu, n: Width, count: nat, fp: u32)
    requires emu.Valid()
    modifies emu`gen, emu`intr, emu`made, emu.mem, emu.mem.Repr(), emu.mem.host
    ensures emu.Valid() && fresh(emu.mem.Repr() - old(emu.mem.Repr()))
    ensures emu.State() == Push(CopyDisplay(old(emu.State()), n, count), n, fp)
  {
    hide Mem.Valid, Emu.Valid, Push, CopyDisplay;
    CopyDisplayN(emu, n, count);
    PushN(emu, n, fp);
  }

  method PushFrameN(emu: Emu, nesting: nat) returns (fp: u32)
    requires emu.Valid()
    modifies emu`gen, emu`intr, emu`made, emu.mem, emu.mem.Repr(), emu.mem.host
    ensures emu.Valid() && fresh(emu.mem.Repr() - old(emu.mem.Repr()))
    ensures emu.State() == PushFrame(old(emu.State()), nesting)
    ensures var s := old(emu.State()); fp == Sp(Push(s, StackBytes(s), Bp(s)))
  {
    hide Mem.Valid, Push, CopyDisplay, SetSp, SetLo16, U16, U32;
    ghost var s := emu.State();
    PushIs(s, StackBytes(s), Bp(s));
    PushN(emu, if emu.mode.stack32 then 4 else 2, if emu.mode.stack32 then emu.gen.ebp else Lo16(emu.gen.ebp));
    fp := if emu.mode.stack32 then emu.gen.esp else Lo16(emu.gen.esp);
    if nesting > 0 {
      PushDisplayN(emu, if emu.mode.data32 then 4 else 2, nesting - 1, fp);
    }
  }

  method EnterArgsN(emu: Emu) returns (local: u32, nesting: u32)
    requires emu.Valid()
    modifies emu`eip, emu`mode, emu`intr, emu`made, emu.mem, emu.mem.Repr(), emu.mem.host
    ensures emu.Valid() && fresh(emu.mem.Repr() - old(emu.mem.Repr()))
    ensures (emu.State(), local, nesting) == EnterArgs(old(emu.State()))
  {
    hide Mem.Valid, Emu.Valid, FetchCode;
    local := emu.FetchImm(2);
    nesting := emu.FetchImm(1);
  }

  method EnterN(emu: Emu)
    requires emu.Valid()
    modifies emu`gen, emu`eip, emu`mode, emu`intr, emu`made, emu.mem, emu.mem.Repr(), emu.mem.host
    ensures emu.Valid() && fresh(emu.mem.Repr() - old(emu.mem.Repr()))
    ensures emu.State() == Enter(old(emu.State()))
  {
    hide Mem.Valid, PushFrame, Push, FetchCode, SetLo16, U16, U32;
    var local, nesting := EnterArgsN(emu);
    FrameKept(emu.State(), nesting % 0x20);
    var fp := PushFrameN(emu, nesting % 0x20);
    if emu.mode.stack32 {
      emu.gen := emu.gen.(ebp := U32(fp), esp := U32(emu.gen.esp - U16(local)));
    } else {
      emu.gen := emu.gen.(ebp := SetLo16(emu.gen.ebp, U16(fp)),
                          esp := SetLo16(emu.gen.esp, U16(Lo16(emu.gen.esp) - U16(local))));
    }
  }

  method LeaveN(emu: Emu)
    requires emu.Valid()
    modifies emu`gen, emu`intr, emu`made, emu.mem, emu.mem.Repr(), emu.mem.host
    ensures emu.Valid() && fresh(emu.mem.Repr() - old(emu.mem.Repr()))
    ensures emu.State() == Leave(old(emu.State()))
  {
    hide Mem.Valid, Pop, SetLo16, U16, U32, Merge;
    if emu.mode.stack32 {
      emu.gen := emu.gen.(esp := U32(emu.gen.ebp));
    } else {
      emu.gen := emu.gen.(esp := SetLo16(emu.gen.esp, U16(Lo16(emu.gen.ebp))));
    }
    var n: Width := if emu.mode.data32 then 4 else 2;
    var v := PopN(emu, n);
    emu.gen := emu.gen.(ebp := Merge(emu.gen.ebp, n, v));
  }

  // ---- what stays the same while a frame is built ----

  /** Only stack and frame pointer, pending fault and memory differ, and 16-bit pointers keep their high halves. */
  predicate Kept(s: St, t: St) {
    && t == s.(gen := s.gen.(esp := t.gen.esp, ebp := t.gen.ebp), intr := t.intr, mem := t.mem)
    && (!s.mode.stack32 ==>
      t.gen.esp / 0x1_0000 == s.gen.esp / 0x1_0000 && t.gen.ebp / 0x1_0000 == s.gen.ebp / 0x1_0000)
  }

  lemma KeptTrans(s: St, t: St, u: St)
    requires Kept(s, t) && Kept(t, u)
    ensures Kept(s, u)
  {
  }

  lemma KeptIs(s: St, t: St)
    requires Kept(s, t)
    ensures SpMod(t) == SpMod(s) && Base(t) == Base(s) && t.mode == s.mode && t.segs == s.segs
  {
  }

  lemma MovedKept(s: St, t: St)
    requires Moved(s, t)
    ensures Kept(s, t)
  {
    hide SetLo16, U16, U32;
    MovedRegs(s, t);
    SetLo16Is(s.gen.esp, U16(Sp(t)));
  }

  lemma SetBpKept(s: St, x: int)
    ensures Kept(s, SetBp(s, x)) && Sp(SetBp(s, x)) == Sp(s) && Bp(SetBp(s, x)) == x % SpMod(s)
  {
    hide SetLo16;
    SetLo16Is(s.gen.ebp, U16(x));
  }

  lemma SetSpKept(s: St, x: int)
    ensures Kept(s, SetSp(s, x)) && Sp(SetSp(s, x)) == x % SpMod(s) && Bp(SetSp(s, x)) == Bp(s)
  {
    hide SetLo16;
    SetLo16Is(s.gen.esp, U16(x));
  }

  lemma FrameKept(s: St, nesting: nat)
    ensures Kept(s, PushFrame(s, nesting))
  {
    hide Push, CopyDisplay, Kept, Moved;
    var t := Push(s, StackBytes(s), Bp(s));
    PushIs(s, StackBytes(s), Bp(s));
    MovedKept(s, t);
    if nesting > 0 {
      var n := OpBytes(s);
      var u := CopyDisplay(t, n, nesting - 1);
      DisplayKept(t, n, nesting - 1);
      KeptTrans(s, t, u);
      PushIs(u, n, Sp(t));
      MovedKept(u, Push(u, n, Sp(t)));
      KeptTrans(s, u, Push(u, n, Sp(t)));
    }
  }

  lemma {:induction false} DisplayKept(s: St, n: Width, k: nat)
    ensures Kept(s, CopyDisplay(s, n, k))
    decreases k
  {
    hide Kept, CopyEntry;
    if k == 0 {
      KeptSelf(s);
    } else {
      EntryKept(s, n);
      DisplayKept(CopyEntry(s, n), n, k - 1);
      KeptTrans(s, CopyEntry(s, n), CopyDisplay(s, n, k));
    }
  }

  lemma KeptSelf(s: St)
    ensures Kept(s, s)
  {
  }

  /** Reading a display entry. */
  lemma FetchKept(s: St, ofs: u32, n: Width)
    ensures var t := Fetch(s, s.segs.ss, ofs, n).0;
      t == s.(intr := t.intr, mem := t.mem) && t.mem == ReadN(s.mem.(invalid := false), At(Base(s), ofs), n).0
  {
    hide ReadN;
  }

  lemma EntryKept(s: St, n: Width)
    ensures Kept(s, CopyEntry(s, n))
  {
    hide SetBp, Fetch, Push, Kept, Moved;
    var t := SetBp(s, Bp(s) - n);
    SetBpKept(s, Bp(s) - n);
    var (u, v) := Fetch(t, t.segs.ss, Bp(t), n);
    FetchKept(t, Bp(t), n);
    SameRegsKept(t, u);
    KeptTrans(s, t, u);
    PushIs(u, n, v);
    MovedKept(u, Push(u, n, v));
    KeptTrans(s, u, Push(u, n, v));
  }

  lemma SameRegsKept(s: St, t: St)
    requires t == s.(intr := t.intr, mem := t.mem)
    ensures Kept(s, t)
  {
  }

  // ---- the saved frame pointer survives the display copy ----

  function Bytes(n: Width, k: nat): nat { if k == 0 then 0 else n + Bytes(n, k - 1) }

  /** Reading a display entry moves nothing. */
  lemma FetchLaw(s: St, ofs: u32, n: Width, d: nat, off: nat, n0: Width, v: u32)
    requires Room(s, d) && Slot(s, off, n0, v)
    ensures var t := Fetch(s, s.segs.ss, ofs, n).0;
      && Room(t, d) && Slot(t, off, n0, v) && SameLayout(s.mem, t.mem)
      && Sp(t) == Sp(s) && SpMod(t) == SpMod(s) && Base(t) == Base(s)
  {
    hide Fetch, ReadN, Usable, Separate, SameLayout, Slot, At, Data;
    var g := s.mem.(invalid := false);
    var t := Fetch(s, s.segs.ss, ofs, n).0;
    FetchKept(s, ofs, n);
    Quiet(s.mem);
    ReadLaw(g, At(Base(s), ofs), n);
    SameLayoutTrans(s.mem, g, t.mem);
    RoomLayout(s, t, d);
    StaysPut(s);
    RisenSlot(s, t, 0, off, n0, v);
  }

  lemma EntryLaw(s: St, n: Width, d: nat, off: nat, n0: Width, v: u32)
    requires Room(s, d) && n <= d && Slot(s, off, n0, v) && off + n0 + n <= SpMod(s)
    ensures var t := CopyEntry(s, n);
      && Room(t, d - n) && Slot(t, off + n, n0, v) && SameLayout(s.mem, t.mem)
      && Sp(t) == (Sp(s) - n) % SpMod(s) && SpMod(t) == SpMod(s)
  {
    hide SetBp, Fetch, Push, Kept, Moved, Room, Slot, SameLayout, Separate, Sp, SpMod, Base;
    var t := SetBp(s, Bp(s) - n);
    SetBpKept(s, Bp(s) - n);
    KeptIs(s, t);
    SetBpLaw(s, Bp(s) - n, d, off, n0, v);
    var (u, x) := Fetch(t, t.segs.ss, Bp(t), n);
    FetchLaw(t, Bp(t), n, d, off, n0, v);
    SameLayoutTrans(s.mem, t.mem, u.mem);
    PushLaw(u, n, x, d);
    RoomIs(u, d);
    PushKeepsSlot(u, n, x, off, n0, v);
    SameLayoutTrans(s.mem, u.mem, Push(u, n, x).mem);
  }

  lemma SetBpLaw(s: St, x: int, d: nat, off: nat, n0: Width, v: u32)
    requires Room(s, d) && Slot(s, off, n0, v)
    ensures Room(SetBp(s, x), d) && Slot(SetBp(s, x), off, n0, v) && SameLayout(s.mem, SetBp(s, x).mem)
  {
    hide Usable, Separate, Saved, SameLayout, U16, U32, SetLo16;
    StaysPut(s);
  }

  lemma {:induction false} DisplayLaw(s: St, n: Width, k: nat, d: nat, off: nat, n0: Width, v: u32)
    requires Room(s, d) && Bytes(n, k) <= d && Slot(s, off, n0, v) && off + n0 + d <= SpMod(s)
    ensures var t := CopyDisplay(s, n, k);
      && Room(t, d - Bytes(n, k)) && Slot(t, off + Bytes(n, k), n0, v) && SameLayout(s.mem, t.mem)
      && Sp(t) == (Sp(s) - Bytes(n, k)) % SpMod(s) && SpMod(t) == SpMod(s)
    decreases k
  {
    hide CopyEntry, Room, Slot, SameLayout, Sp, SpMod;
    StaysPut(s);
    if k > 0 {
      var t := CopyEntry(s, n);
      EntryLaw(s, n, d, off, n0, v);
      DisplayLaw(t, n, k - 1, d - n, off + n, n0, v);
      SameLayoutTrans(s.mem, t.mem, CopyDisplay(s, n, k).mem);
      Shifted(SpMod(s), Sp(s), n, 0 - Bytes(n, k));
    }
  }

  /** The frame: the old frame pointer lies above the display, which nothing overwrote. */
  lemma FrameLaw(s: St, nesting: nat, d: nat)
    requires Matched(s) && Room(s, d) && Bytes(OpBytes(s), nesting + 1) <= d
    ensures var n := OpBytes(s); var t := PushFrame(s, nesting);
      && Slot(t, Bytes(n, nesting), n, Bp(s)) && Separate(t.mem) && SameLayout(s.mem, t.mem)
      && Sp(Push(s, n, Bp(s))) == (Sp(s) - n) % SpMod(s)
      && Sp(t) == ((Sp(s) - n) % SpMod(s) - Bytes(n, nesting)) % SpMod(s)
  {
    hide Push, CopyDisplay, Room, Slot, SameLayout, Sp, SpMod, Separate, Moved, Base;
    var n := OpBytes(s);
    RoomIs(s, d);
    var t := Push(s, n, Bp(s));
    PushLaw(s, n, Bp(s), d);
    RoomIs(t, d - n);
    StaysPut(t);
    if nesting > 0 {
      var k := nesting - 1;
      var u := CopyDisplay(t, n, k);
      DisplayLaw(t, n, k, d - n, 0, n, Bp(s));
      SameLayoutTrans(s.mem, t.mem, u.mem);
      RoomIs(u, d - n - Bytes(n, k));
      PushLaw(u, n, Sp(t), d - n - Bytes(n, k));
      PushKeepsSlot(u, n, Sp(t), Bytes(n, k), n, Bp(s));
      SameLayoutTrans(s.mem, u.mem, Push(u, n, Sp(t)).mem);
      RoomIs(Push(u, n, Sp(t)), d - n - Bytes(n, k) - n);
      Shifted(SpMod(s), Sp(t), Bytes(n, k), 0 - n - Bytes(n, k));
    }
  }

  lemma EnterFrameIs(s: St, local: u16, nesting: nat)
    ensures var t := PushFrame(s, nesting); var u := EnterFrame(s, local, nesting);
      var fp := Sp(Push(s, StackBytes(s), Bp(s)));
      && Kept(s, u) && u.mem == t.mem && Bp(u) == fp % SpMod(s) && SpMod(u) == SpMod(s) && Base(u) == Base(s)
  {
    hide Push, PushFrame, Kept, SetSp, SetBp, SpMod, Sp, Base, Bp;
    var t := PushFrame(s, nesting);
    FrameKept(s, nesting);
    KeptIs(s, t);
    var fp := Sp(Push(s, StackBytes(s), Bp(s)));
    var v := SetBp(t, fp);
    SetBpKept(t, fp);
    KeptTrans(s, t, v);
    KeptIs(s, v);
    SetSpKept(v, Sp(v) - local);
    KeptTrans(s, v, EnterFrame(s, local, nesting));
    KeptIs(s, EnterFrame(s, local, nesting));
    SetMem(t, fp, Sp(v) - local);
  }

  lemma SetMem(s: St, x: int, y: int)
    ensures SetSp(SetBp(s, x), y).mem == s.mem
  {
    hide SetLo16, U16, U32;
  }

  /** leave, from a state whose frame slot is intact. */
  lemma LeaveLaw(s: St, v: u32)
    requires Matched(s) && Separate(s.mem)
    requires Saved(s.mem, Base(s), SpMod(s), Bp(s), 0, OpBytes(s), v)
    requires Usable(s.mem, Base(s), SpMod(s), (Bp(s) + OpBytes(s)) % SpMod(s), OpBytes(s))
    ensures var n := OpBytes(s); var t := Leave(s);
      && Sp(t) == (Bp(s) + n) % SpMod(s) && t.gen.ebp == Merge(s.gen.ebp, n, Low(v, n))
      && t == s.(gen := s.gen.(esp := t.gen.esp, ebp := t.gen.ebp), intr := t.intr, mem := t.mem)
      && (!s.mode.stack32 ==> t.gen.esp / 0x1_0000 == s.gen.esp / 0x1_0000)
  {
    hide SetSp, Pop, Sp, SpMod, Base, Bp, Saved, Usable, Separate, SameLayout, SameData, Merge, Moved, Kept;
    var n := OpBytes(s);
    var t := SetSp(s, Bp(s));
    SetSpKept(s, Bp(s));
    KeptIs(s, t);
    BpFits(s);
    SetSpMoved(s, Bp(s));
    PopLaw(t, n, v);
    MovedTrans(s, t, Pop(t, n).0);
    MovedRegs(s, Pop(t, n).0);
    LeaveIs(s, Pop(t, n).0);
  }

  lemma BpFits(s: St)
    ensures Bp(s) % SpMod(s) == Bp(s)
  {
  }

  lemma SetSpMoved(s: St, x: int)
    ensures Moved(s, SetSp(s, x)) && SetSp(s, x).mem == s.mem && SetSp(s, x).mode == s.mode
  {
    hide SetLo16;
    SetSpIs(s, x);
  }

  lemma LeaveIs(s: St, t: St)
    requires Moved(s, t)
    ensures t == s.(gen := s.gen.(esp := t.gen.esp), intr := t.intr, mem := t.mem)
    ensures forall x: u32 :: Sp(t.(gen := t.gen.(ebp := x))) == Sp(t)
  {
    hide SetLo16, U16, U32;
  }

  /** Both halves of a register that came back. */
  lemma Restored(s: St, t: St, u: St)
    requires Kept(s, t) && u.mode == s.mode && Matched(s) && Sp(u) == Sp(s)
    requires !s.mode.stack32 ==> u.gen.esp / 0x1_0000 == t.gen.esp / 0x1_0000
    requires u.gen.ebp == Merge(t.gen.ebp, OpBytes(s), Low(Bp(s), OpBytes(s)))
    ensures u.gen.esp == s.gen.esp && u.gen.ebp == s.gen.ebp
  {
  }

  /**
  Theorem: leave after enter restores everything but memory and a possible fault request, for every local size and
  every nesting level, when operand size and stack size agree.
  */
  lemma LeaveUndoesEnter(s: St, local: u16, nesting: nat)
    requires Matched(s) && Room(s, Bytes(OpBytes(s), nesting + 1))
    ensures var t := Leave(EnterFrame(s, local, nesting)); t == s.(intr := t.intr, mem := t.mem)
  {
    hide SameLayout, Sp, SpMod, Base, Bp, Holds, At, Usable, Separate, SameData, Merge, Kept, PushFrame, Push, Leave,
         EnterFrame;
    var n := OpBytes(s);
    var d := Bytes(n, nesting + 1);
    var x := PushFrame(s, nesting);
    var w := EnterFrame(s, local, nesting);
    EnterFrameIs(s, local, nesting);
    FrameLaw(s, nesting, d);
    FrameKept(s, nesting);
    KeptIs(s, x);
    KeptIs(s, w);
    var fp := (Sp(s) - n) % SpMod(s);
    Reduced(SpMod(s), Sp(s) - n);
    Fits(SpMod(s), fp);
    StaysPut(s);
    Shifted(SpMod(s), fp, Bytes(n, nesting), 0);
    Shifted(SpMod(s), Sp(s), n, 0);
    UsableDeeper(s.mem, Base(s), SpMod(s), Sp(s), d, 0, n);
    UsableLayout(s.mem, w.mem, Base(s), SpMod(s), Sp(s), n);
    LeaveLaw(w, Bp(s));
    Restored(s, w, Leave(w));
    AllTheSame(s, w, Leave(w));
  }

  lemma AllTheSame(s: St, t: St, u: St)
    requires Kept(s, t) && u == t.(gen := t.gen.(esp := u.gen.esp, ebp := u.gen.ebp), intr := u.intr, mem := u.mem)
    requires u.gen.esp == s.gen.esp && u.gen.ebp == s.gen.ebp
    ensures u == s.(intr := u.intr, mem := u.mem)
  {
  }

  lemma Unequal(m: nat, sp: nat, a: Width, b: Width)
    requires IsSpMod(m) && sp < m
    ensures ((sp - a) % m % m + b) % m == sp <==> a == b
  {
    Reduced(m, sp - a);
    Fits(m, (sp - a) % m);
    Shifted(m, sp, a, b - a);
    NoShift(m, sp, b - a);
  }

  lemma NoShift(m: nat, sp: nat, k: int)
    requires IsSpMod(m) && sp < m && -4 <= k <= 4
    ensures (sp + k) % m == sp <==> k == 0
  {
  }

  /** Where leave puts the stack pointer, from any state. */
  lemma LeaveSp(s: St)
    ensures Sp(Leave(s)) == (Bp(s) + OpBytes(s)) % SpMod(s)
  {
    hide Pop, SetSp, Merge, Moved, Kept, Sp, SpMod, Bp, Base;
    var t := SetSp(s, Bp(s));
    SetSpKept(s, Bp(s));
    KeptIs(s, t);
    BpFits(s);
    PopIs(t, OpBytes(s));
    LeaveIs(t, Pop(t, OpBytes(s)).0);
  }

  /** The sizes have to agree: leave moves the pointer by the operand size, enter saved by the stack size. */
  lemma LeaveNeedsMatch(s: St, local: u16, nesting: nat)
    ensures Sp(Leave(EnterFrame(s, local, nesting))) == Sp(s) <==> Matched(s)
  {
    hide Push, PushFrame, EnterFrame, Leave, Kept, Moved, Sp, SpMod, Bp, Base;
    var w := EnterFrame(s, local, nesting);
    EnterFrameIs(s, local, nesting);
    KeptIs(s, w);
    PushIs(s, StackBytes(s), Bp(s));
    LeaveSp(w);
    StaysPut(s);
    Reduced(SpMod(s), Sp(s));
    Unequal(SpMod(s), Sp(s), StackBytes(s), OpBytes(s));
  }

  /** Concretely: with 32-bit operands, a 16-bit stack and SP = 0x1000, leave after enter ends at SP = 0x1002. */
  lemma LeaveFails(s: St, local: u16, nesting: nat)
    requires s.mode.data32 && !s.mode.stack32 && Sp(s) == 0x1000
    ensures Sp(Leave(EnterFrame(s, local, nesting))) == 0x1002
  {
    hide Push, PushFrame, EnterFrame, Leave, Kept, Moved, Sp, Bp, Base;
    var w := EnterFrame(s, local, nesting);
    EnterFrameIs(s, local, nesting);
    KeptIs(s, w);
    PushIs(s, StackBytes(s), Bp(s));
    LeaveSp(w);
  }
}
