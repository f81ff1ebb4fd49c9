/** The stack: push and pop with 16- and 32-bit stack pointers, and runs of them. */
module Stack {
  import opened Words
  import opened Bits
  import opened FlatMemory
  import opened MemoryLaws
  import opened PagedMemory
  import opened Machine

  /** The stack pointer counts modulo this. */
  function SpMod(s: St): (m: nat)
    ensures IsSpMod(m)
  {
    if s.mode.stack32 then 0x1_0000_0000 else 0x1_0000
  }

  predicate IsSpMod(m: nat) { m == 0x1_0000 || m == 0x1_0000_0000 }

  function Sp(s: St): u32 { if s.mode.stack32 then s.gen.esp else Lo16(s.gen.esp) }

  function SetSp(s: St, x: int): St {
    s.(gen := s.gen.(esp := if s.mode.stack32 then U32(x) else SetLo16(s.gen.esp, U16(x))))
  }

  lemma SetSpIs(s: St, x: int)
    ensures Sp(SetSp(s, x)) == x % SpMod(s)
    ensures SetSp(s, Sp(s)) == s
    ensures SetSp(s, x) == SetSp(s, x % SpMod(s))
  {
  }

  /** Only the stack pointer, the pending fault and memory differ. */
  predicate Moved(s: St, t: St) {
    t == SetSp(s, Sp(t)).(intr := t.intr, mem := t.mem)
  }

  lemma MovedTrans(s: St, t: St, u: St)
    requires Moved(s, t) && Moved(t, u)
    ensures Moved(s, u)
  {
  }

  lemma MovedIs(s: St, t: St)
    ensures Moved(s, t) ==> SpMod(t) == SpMod(s) && Base(t) == Base(s) && t.mode == s.mode && t.segs == s.segs
    ensures Moved(s, t) && Sp(t) == Sp(s) ==> t == s.(intr := t.intr, mem := t.mem)
    ensures Moved(s, s)
  {
    SetSpIs(s, Sp(s));
  }

  function Push(s: St, n: Width, v: u32): St {
    var t := SetSp(s, Sp(s) - n);
    Store(t, t.segs.ss, Sp(t), n, v)
  }

  function Pop(s: St, n: Width): (St, u32) {
    var (t, v) := Fetch(s, s.segs.ss, Sp(s), n);
    (SetSp(t, Sp(t) + n), v)
  }

  /** push_word and push_long */
  method PushN(emu: Emu, n: Width, v: u32)
    requires emu.Valid()
    modifies emu`gen, emu`intr, emu`made, emu.mem, emu.mem.Repr(), emu.mem.host
    ensures emu.Valid() && fresh(emu.mem.Repr() - old(emu.mem.Repr()))
    ensures emu.State() == Push(old(emu.State()), n, v)
  {
    hide Mem.Valid, Store, SetLo16;
    if emu.mode.stack32 {
      emu.gen := emu.gen.(esp := U32(emu.gen.esp - n));
      emu.StoreData(emu.segs.ss, emu.gen.esp, n, v);
    } else {
      emu.gen := emu.gen.(esp := SetLo16(emu.gen.esp, U16(Lo16(emu.gen.esp) - n)));
      emu.StoreData(emu.segs.ss, Lo16(emu.gen.esp), n, v);
    }
  }

  /** pop_word and pop_long */
  method PopN(emu: Emu, n: Width) returns (v: u32)
    requires emu.Valid()
    modifies emu`gen, emu`intr, emu`made, emu.mem, emu.mem.Repr(), emu.mem.host
    ensures emu.Valid() && fresh(emu.mem.Repr() - old(emu.mem.Repr()))
    ensures (emu.State(), v) == Pop(old(emu.State()), n)
  {
    hide Mem.Valid, Fetch, SetLo16;
    if emu.mode.stack32 {
      v := emu.FetchData(emu.segs.ss, emu.gen.esp, n);
      emu.gen := emu.gen.(esp := U32(emu.gen.esp + n));
    } else {
      v := emu.FetchData(emu.segs.ss, Lo16(emu.gen.esp), n);
      emu.gen := emu.gen.(esp := SetLo16(emu.gen.esp, U16(Lo16(emu.gen.esp) + n)));
    }
  }

  // ---- addresses on the stack ----

  /** Offset `o` into the stack segment; a word at the very top of a 64K segment spills past it. */
  function At(base: u32, o: nat): u32 { if o == 0 then base else U32(base + o) }

  /** Offset `o` is among the `d` bytes below `sp`, counted modulo `m`. */
  predicate Below(m: nat, sp: nat, d: nat, o: nat)
    requires IsSpMod(m)
  {
    (sp - 1 - o) % m < d
  }

  /** The `d` bytes below `sp` may be read and written. */
  ghost predicate Usable(f: FlatMem, base: u32, m: nat, sp: nat, d: nat)
    requires IsSpMod(m)
  {
    forall o: nat :: o < m + 3 && Below(m, sp, d, o) ==> CanRead(f, At(base, o)) && CanWrite(f, At(base, o))
  }

  /** The slot `off` bytes above `sp` holds `v`. */
  ghost predicate Saved(f: FlatMem, base: u32, m: nat, sp: nat, off: nat, n: Width, v: u32)
    requires IsSpMod(m)
  {
    Holds(f, At(base, (sp + off) % m), n, v)
  }

  /** Byte `j` of the slot at offset `a`, as an integer equation. */
  lemma HitByte(base: u32, a: nat, n: Width, b: u32)
    requires Hit(At(base, a), n, b)
    ensures var j := U32(b - At(base, a));
      j < n && At(base, a + j) == b && base + a + j - b == 0x1_0000_0000 * ((base + a + j) / 0x1_0000_0000)
  {
  }

  lemma Reduced(m: nat, x: int)
    requires IsSpMod(m)
    ensures 0 <= x % m < m
    ensures x - x % m == if m == 0x1_0000 then 0x1_0000 * (x / 0x1_0000) else 0x1_0000_0000 * (x / 0x1_0000_0000)
  {
  }

  lemma Congruent(m: nat, x1: int, x2: int, a1: int, a2: int, q1: int, q2: int, p: int)
    requires IsSpMod(m) && x1 - a1 == m * q1 && x2 - a2 == m * q2 && a1 - a2 == 0x1_0000_0000 * p
    ensures (x1 - x2) % m == 0
  {
    if m == 0x1_0000 {
      assert x1 - x2 == 0x1_0000 * (q1 - q2 + 0x1_0000 * p);
    } else {
      assert x1 - x2 == 0x1_0000_0000 * (q1 - q2 + p);
    }
  }

  /** Two slots that share a byte are a multiple of `m` apart. */
  lemma SameByte(base: u32, m: nat, x1: int, n1: Width, x2: int, n2: Width, b: u32)
    requires IsSpMod(m) && Hit(At(base, x1 % m), n1, b) && Hit(At(base, x2 % m), n2, b)
    ensures var j1, j2 := U32(b - At(base, x1 % m)), U32(b - At(base, x2 % m));
      j1 < n1 && j2 < n2 && (x1 + j1 - x2 - j2) % m == 0
  {
    hide At, U32, Hit;
    var a1, a2 := x1 % m, x2 % m;
    HitByte(base, a1, n1, b);
    HitByte(base, a2, n2, b);
    var j1, j2 := U32(b - At(base, a1)), U32(b - At(base, a2));
    DivMod(x1, m);
    DivMod(x2, m);
    Congruent(m, x1 + j1, x2 + j2, a1 + j1, a2 + j2, x1 / m, x2 / m,
              (base + a1 + j1) / 0x1_0000_0000 - (base + a2 + j2) / 0x1_0000_0000);
  }

  /** Slots at different depths share no byte. */
  lemma SlotsApart(base: u32, m: nat, sp: nat, n: Width, off: nat, n2: Width, b: u32)
    requires IsSpMod(m) && off + n2 + n <= m
    requires Hit(At(base, (sp + off) % m), n2, b)
    ensures !Hit(At(base, (sp - n) % m), n, b)
  {
    hide At, U32, Hit;
    if Hit(At(base, (sp - n) % m), n, b) {
      SameByte(base, m, sp + off, n2, sp - n, n, b);
    }
  }

  /** The bytes of the next slot are the bytes below `sp`. */
  lemma SlotBelow(base: u32, m: nat, sp: nat, n: Width, d: nat, b: u32)
    requires IsSpMod(m) && n <= d <= m && Hit(At(base, (sp - n) % m), n, b)
    ensures var o := (sp - n) % m + U32(b - At(base, (sp - n) % m));
      o < m + 3 && Below(m, sp, d, o) && At(base, o) == b
  {
    hide At, U32, Hit;
    HitByte(base, (sp - n) % m, n, b);
    var j := U32(b - At(base, (sp - n) % m));
    DivMod(sp - n, m);
    DivUnique(sp - 1 - ((sp - n) % m + j), m, (sp - n) / m, n - 1 - j);
  }

  lemma SlotUsable(f: FlatMem, base: u32, m: nat, sp: nat, d: nat, n: Width)
    requires IsSpMod(m) && n <= d <= m && Usable(f, base, m, sp, d)
    ensures Writable(f, At(base, (sp - n) % m), n) && Readable(f, At(base, (sp - n) % m), n)
  {
    hide At, U32, Hit, CanRead, CanWrite, Below;
    var a := (sp - n) % m;
    forall b: u32 | Hit(At(base, a), n, b) ensures CanRead(f, b) && CanWrite(f, b) {
      SlotBelow(base, m, sp, n, d, b);
      assert CanRead(f, At(base, a + U32(b - At(base, a))));
    }
  }

  lemma Deeper(m: nat, sp: nat, d: nat, k: nat, e: nat, o: nat)
    requires IsSpMod(m) && k + e <= d <= m && Below(m, (sp - k) % m, e, o)
    ensures Below(m, sp, d, o)
  {
    var r := ((sp - k) % m - 1 - o) % m;
    if m == 0x1_0000 {
      assert sp - 1 - o == r + k + 0x1_0000 * ((sp - k) / 0x1_0000 + ((sp - k) % m - 1 - o) / 0x1_0000);
    } else {
      assert sp - 1 - o == r + k + 0x1_0000_0000 * ((sp - k) / 0x1_0000_0000 + ((sp - k) % m - 1 - o) / 0x1_0000_0000);
    }
  }

  /** Part of a usable stretch. */
  lemma UsableDeeper(f: FlatMem, base: u32, m: nat, sp: nat, d: nat, k: nat, e: nat)
    requires IsSpMod(m) && k + e <= d <= m && Usable(f, base, m, sp, d)
    ensures Usable(f, base, m, (sp - k) % m, e)
  {
    hide At, CanRead, CanWrite, Below;
    forall o: nat | o < m + 3 && Below(m, (sp - k) % m, e, o)
      ensures CanRead(f, At(base, o)) && CanWrite(f, At(base, o)) {
      Deeper(m, sp, d, k, e, o);
    }
  }

  lemma UsableLayout(f: FlatMem, g: FlatMem, base: u32, m: nat, sp: nat, d: nat)
    requires IsSpMod(m) && Usable(f, base, m, sp, d) && SameLayout(f, g)
    ensures Usable(g, base, m, sp, d)
  {
    hide At, CanRead, CanWrite, Below;
    forall o: nat | o < m + 3 && Below(m, sp, d, o) ensures CanRead(g, At(base, o)) && CanWrite(g, At(base, o)) {
      LayoutPerms(f, g, At(base, o));
    }
  }

  lemma Shifted(m: nat, sp: nat, n: int, off: int)
    requires IsSpMod(m)
    ensures ((sp - n) % m + off + n) % m == (sp + off) % m
  {
    Reduced(m, sp - n);
    var x := (sp - n) % m + off + n;
    if m == 0x1_0000 {
      assert x == sp + off - 0x1_0000 * ((sp - n) / 0x1_0000);
    } else {
      assert x == sp + off - 0x1_0000_0000 * ((sp - n) / 0x1_0000_0000);
    }
  }

  /** Writing the next slot leaves the slots above it alone. */
  lemma WriteKeepsSlot(f: FlatMem, base: u32, m: nat, sp: nat, n: Width, v: u32, off: nat, n2: Width, v2: u32)
    requires IsSpMod(m) && off + n2 + n <= m && Separate(f) && Saved(f, base, m, sp, off, n2, v2)
    ensures Saved(WriteN(f, At(base, (sp - n) % m), n, v), base, m, (sp - n) % m, off + n, n2, v2)
  {
    hide At, Hit, Holds;
    var a, a2 := At(base, (sp - n) % m), At(base, (sp + off) % m);
    var g := WriteN(f, a, n, v);
    hide WriteN;
    WriteLaw(f, a, n, v);
    forall b: u32 | Hit(a2, n2, b) ensures Data(g, b) == Data(f, b) {
      SlotsApart(base, m, sp, n, off, n2, b);
    }
    HoldsElsewhere(f, g, a2, n2, v2);
    Shifted(m, sp, n, off);
  }

  // ---- one push, one pop ----

  function Base(s: St): u32 { s.segs.ss.base }

  /** There is usable room for `d` more bytes. */
  ghost predicate Room(s: St, d: nat) {
    Separate(s.mem) && d <= SpMod(s) && Usable(s.mem, Base(s), SpMod(s), Sp(s), d)
  }

  /** The slot `off` bytes above the stack pointer. */
  ghost predicate Slot(s: St, off: nat, n: Width, v: u32) { Saved(s.mem, Base(s), SpMod(s), Sp(s), off, n, v) }

  lemma SavedSame(f: FlatMem, g: FlatMem, base: u32, m: nat, sp: nat, off: nat, n: Width, v: u32)
    requires IsSpMod(m) && Saved(f, base, m, sp, off, n, v) && SameData(f, g)
    ensures Saved(g, base, m, sp, off, n, v)
  {
    hide At, Data;
  }

  lemma Fits(m: nat, x: nat)
    requires IsSpMod(m) && x < m
    ensures x % m == x
  {
  }

  lemma CheckIs(s: St, seg: Seg, ofs: u32, n: Width)
    ensures Check(s, seg, ofs, n) == s.(intr := Check(s, seg, ofs, n).intr)
  {
  }

  lemma PushIs(s: St, n: Width, v: u32)
    ensures var t := Push(s, n, v); var sp' := (Sp(s) - n) % SpMod(s);
      && Moved(s, t)
      && t.mem == WriteN(s.mem.(invalid := false), At(Base(s), sp'), n, v) && Sp(t) == sp' % SpMod(s) == sp'
      && SpMod(t) == SpMod(s) && Base(t) == Base(s)
  {
    hide WriteN, SetLo16, Check, U16;
    var x := Sp(s) - n;
    SetSpIs(s, x);
    CheckIs(SetSp(s, x), s.segs.ss, x % SpMod(s), n);
    Reduced(SpMod(s), x);
    Fits(SpMod(s), x % SpMod(s));
    hide SpMod, Sp, SetSp;
    var t := SetSp(s, x);
    assert Push(s, n, v) == Store(t, s.segs.ss, x % SpMod(s), n, v);
  }

  lemma PopIs(s: St, n: Width)
    ensures var (t, r) := Pop(s, n);
      && Moved(s, t) && Sp(t) == (Sp(s) + n) % SpMod(s)
      && (t.mem, r) == ReadN(s.mem.(invalid := false), At(Base(s), Sp(s) % SpMod(s)), n) && Sp(s) == Sp(s) % SpMod(s)
      && SpMod(t) == SpMod(s) && Base(t) == Base(s)
  {
    hide ReadN, SetLo16, Check, U16;
    CheckIs(s, s.segs.ss, Sp(s), n);
    StaysPut(s);
    var t := Fetch(s, s.segs.ss, Sp(s), n).0;
    assert t == s.(intr := t.intr, mem := t.mem);
    SetSpIs(s, Sp(s) + n);
    SetSpIs(t, Sp(t) + n);
  }

  /** What a push does: the pointer, the slot, and nothing else but a possible fault request. */
  lemma PushLaw(s: St, n: Width, v: u32, d: nat)
    requires Room(s, d) && n <= d
    ensures var t := Push(s, n, v);
      && Moved(s, t)
      && Sp(t) == (Sp(s) - n) % SpMod(s) && SpMod(t) == SpMod(s) && Base(t) == Base(s)
      && SameLayout(s.mem, t.mem) && Room(t, d - n) && Slot(t, 0, n, v)
  {
    hide Moved, Push, WriteN, SetSp, Holds, At, Below, Sp, Base, Separate, SameLayout, SameData, Usable, Writable,
         Readable, SameDataOutside, Hit, IsValid;
    PushIs(s, n, v);
    var f, g := s.mem, s.mem.(invalid := false);
    var m, base, sp := SpMod(s), Base(s), Sp(s);
    var sp' := (sp - n) % m;
    var t := Push(s, n, v);
    Quiet(f);
    UsableLayout(f, g, base, m, sp, d);
    SlotUsable(g, base, m, sp, d, n);
    WriteLaw(g, At(base, sp'), n, v);
    SameLayoutTrans(f, g, t.mem);
    UsableDeeper(f, base, m, sp, d, n, d - n);
    UsableLayout(f, t.mem, base, m, sp', d - n);
  }

  lemma PushKeepsSlot(s: St, n: Width, v: u32, off: nat, n2: Width, v2: u32)
    requires Separate(s.mem) && off + n2 + n <= SpMod(s) && Slot(s, off, n2, v2)
    ensures Slot(Push(s, n, v), off + n, n2, v2)
  {
    hide Moved, Push, WriteN, SetSp, Saved, At, Sp, SpMod, Base, Separate, SameLayout, SameData;
    PushIs(s, n, v);
    var f, g := s.mem, s.mem.(invalid := false);
    Quiet(f);
    SavedSame(f, g, Base(s), SpMod(s), Sp(s), off, n2, v2);
    WriteKeepsSlot(g, Base(s), SpMod(s), Sp(s), n, v, off, n2, v2);
  }

  /** What a pop does: it delivers the slot and changes no byte. */
  lemma PopLaw(s: St, n: Width, v: u32)
    requires Separate(s.mem) && Slot(s, 0, n, v)
    requires Usable(s.mem, Base(s), SpMod(s), (Sp(s) + n) % SpMod(s), n)
    ensures var (t, r) := Pop(s, n);
      && Moved(s, t)
      && Sp(t) == (Sp(s) + n) % SpMod(s) && SpMod(t) == SpMod(s) && Base(t) == Base(s)
      && Separate(t.mem) && SameLayout(s.mem, t.mem) && SameData(s.mem, t.mem) && r == Low(v, n)
  {
    hide Moved, Base, Pop, ReadN, SetSp, At, Below, Sp, SpMod, Separate, SameLayout, Data, Usable, Readable, Writable,
         Hit, IsValid;
    PopIs(s, n);
    var f, g := s.mem, s.mem.(invalid := false);
    var m, base, sp := SpMod(s), Base(s), Sp(s);
    Quiet(f);
    SavedSame(f, g, base, m, sp, 0, n, v);
    UsableLayout(f, g, base, m, (sp + n) % m, n);
    SlotUsable(g, base, m, (sp + n) % m, n, n);
    Shifted(m, sp, 0 - n, 0);
    ReadLaw(g, At(base, sp % m), n);
    ReadBack(g, At(base, sp % m), n, v);
    SameLayoutTrans(f, g, Pop(s, n).0.mem);
  }

  // ---- many pushes, many pops ----

  datatype Item = Item(n: Width, v: u32)

  function Depth(items: seq<Item>): nat { if items == [] then 0 else items[0].n + Depth(items[1..]) }

  /** The items lie on the stack, the first one `off` bytes above the pointer. */
  ghost predicate OnStack(s: St, off: nat, items: seq<Item>)
    decreases |items|
  {
    items == [] || (Slot(s, off, items[0].n, items[0].v) && OnStack(s, off + items[0].n, items[1..]))
  }

  lemma {:induction false} PushKeepsStack(s: St, n: Width, v: u32, off: nat, items: seq<Item>)
    requires Separate(s.mem) && off + Depth(items) + n <= SpMod(s) && OnStack(s, off, items)
    ensures OnStack(Push(s, n, v), off + n, items)
    decreases |items|
  {
    hide Push, Slot, SpMod, Separate;
    if items != [] {
      PushKeepsSlot(s, n, v, off, items[0].n, items[0].v);
      PushKeepsStack(s, n, v, off + items[0].n, items[1..]);
    }
  }

  /** The pointer has moved up by `k` over unchanged bytes. */
  ghost predicate Risen(s: St, t: St, k: nat) {
    SameData(s.mem, t.mem) && SpMod(t) == SpMod(s) && Base(t) == Base(s) && Sp(t) == (Sp(s) + k) % SpMod(s)
  }

  lemma RisenSlot(s: St, t: St, k: nat, off: nat, n: Width, v: u32)
    requires Risen(s, t, k) && k <= off && Slot(s, off, n, v)
    ensures Slot(t, off - k, n, v)
  {
    hide SpMod, Sp, Base, At, SameData, Holds;
    Shifted(SpMod(s), Sp(s), 0 - k, off);
    SavedSame(s.mem, t.mem, Base(s), SpMod(s), Sp(s), off, n, v);
  }

  lemma {:induction false} RisenStack(s: St, t: St, k: nat, off: nat, items: seq<Item>)
    requires Risen(s, t, k) && k <= off && OnStack(s, off, items)
    ensures OnStack(t, off - k, items)
    decreases |items|
  {
    hide Risen, Slot;
    if items != [] {
      RisenSlot(s, t, k, off, items[0].n, items[0].v);
      RisenStack(s, t, k, off + items[0].n, items[1..]);
    }
  }

  lemma PushOnto(s: St, n: Width, v: u32, d: nat, rest: seq<Item>)
    requires Room(s, d) && n <= d && OnStack(s, 0, rest) && Depth(rest) + d <= SpMod(s)
    ensures var t := Push(s, n, v); var items := [Item(n, v)] + rest;
      && Moved(s, t) && Room(t, d - n) && SameLayout(s.mem, t.mem) && Sp(t) == (Sp(s) - n) % SpMod(s)
      && OnStack(t, 0, items) && Depth(items) == n + Depth(rest) && SpMod(t) == SpMod(s)
  {
    hide Moved, Push, Room, Slot, SameLayout, Sp, SpMod, Base;
    assert ([Item(n, v)] + rest)[1..] == rest;
    RoomIs(s, d);
    PushLaw(s, n, v, d);
    PushKeepsStack(s, n, v, 0, rest);
  }

  /** Accesses elsewhere that only mark bytes leave room and stack as they are. */
  lemma RoomLayout(s: St, t: St, d: nat)
    requires Room(s, d) && Separate(t.mem) && SameLayout(s.mem, t.mem)
    requires Sp(t) == Sp(s) && SpMod(t) == SpMod(s) && Base(t) == Base(s)
    ensures Room(t, d)
  {
    hide Usable, Separate, SameLayout, Sp, SpMod, Base;
    UsableLayout(s.mem, t.mem, Base(s), SpMod(s), Sp(s), d);
  }

  lemma StackLayout(s: St, t: St, items: seq<Item>)
    requires OnStack(s, 0, items) && SameData(s.mem, t.mem) && Sp(t) == Sp(s) && SpMod(t) == SpMod(s)
      && Base(t) == Base(s)
    ensures OnStack(t, 0, items)
  {
    hide SameData, Sp, SpMod, Base, OnStack;
    StaysPut(s);
    RisenStack(s, t, 0, 0, items);
  }

  /** Pushes the last item first, so that the first one ends on top. */
  function PushAll(s: St, items: seq<Item>): St
    decreases |items|
  {
    if items == [] then s else Push(PushAll(s, items[1..]), items[0].n, items[0].v)
  }

  function PopAll(s: St, items: seq<Item>): (St, seq<u32>)
    decreases |items|
  {
    if items == [] then (s, [])
    else
      var (t, v) := Pop(s, items[0].n);
      var (u, vs) := PopAll(t, items[1..]);
      (u, [v] + vs)
  }

  lemma {:induction false} PushAllLaw(s: St, items: seq<Item>, d: nat)
    requires Room(s, d) && Depth(items) <= d
    ensures var t := PushAll(s, items);
      && Moved(s, t) && Sp(t) == (Sp(s) - Depth(items)) % SpMod(s) && SameLayout(s.mem, t.mem)
      && Room(t, d - Depth(items)) && OnStack(t, 0, items)
    decreases |items|
  {
    hide Moved, Push, Room, Slot, SameLayout, Sp, SpMod, Base;
    if items == [] {
      MovedIs(s, s);
      StaysPut(s);
    } else {
      var t, n, v := PushAll(s, items[1..]), items[0].n, items[0].v;
      PushAllLaw(s, items[1..], d);
      MovedIs(s, t);
      PushLaw(t, n, v, d - Depth(items[1..]));
      MovedTrans(s, t, Push(t, n, v));
      SameLayoutTrans(s.mem, t.mem, Push(t, n, v).mem);
      Shifted(SpMod(s), Sp(s), Depth(items[1..]), 0 - Depth(items));
      RoomIs(s, d);
      RoomIs(t, d - Depth(items[1..]));
      PushKeepsStack(t, n, v, 0, items[1..]);
    }
  }

  lemma StaysPut(s: St)
    ensures SameLayout(s.mem, s.mem) && Sp(s) == Sp(s) % SpMod(s)
  {
    hide Perms, Has;
  }

  lemma RoomIs(s: St, d: nat)
    ensures Room(s, d) ==> Separate(s.mem) && d <= SpMod(s)
  {
    hide Separate, Usable;
  }

  /** The `d` bytes from the pointer up are usable. */
  ghost predicate Reach(s: St, d: nat) {
    Separate(s.mem) && d <= SpMod(s) && Usable(s.mem, Base(s), SpMod(s), (Sp(s) + d) % SpMod(s), d)
  }

  /** What was pushed can be reached. */
  lemma RoomReached(s: St, t: St, k: nat, d: nat)
    requires Room(s, d) && k <= d && SpMod(t) == SpMod(s) && Base(t) == Base(s)
    requires SameLayout(s.mem, t.mem) && Separate(t.mem) && Sp(t) == (Sp(s) - k) % SpMod(s)
    ensures Reach(t, k)
  {
    hide SameLayout, Separate, Usable, Sp, SpMod, Base;
    StaysPut(s);
    Shifted(SpMod(s), Sp(s), k, 0);
    UsableDeeper(s.mem, Base(s), SpMod(s), Sp(s), d, 0, k);
    UsableLayout(s.mem, t.mem, Base(s), SpMod(s), Sp(s), k);
  }

  lemma ReachedPart(s: St, d: nat, n: Width)
    requires Reach(s, d) && n <= d
    ensures Separate(s.mem) && Usable(s.mem, Base(s), SpMod(s), (Sp(s) + n) % SpMod(s), n)
  {
    hide Separate, Usable, Sp, SpMod, Base;
    var m := SpMod(s);
    UsableDeeper(s.mem, Base(s), m, (Sp(s) + d) % m, d, d - n, n);
    Regroup(m, Sp(s), d, n);
  }

  lemma Regroup(m: nat, sp: nat, d: nat, n: nat)
    requires IsSpMod(m) && n <= d
    ensures ((sp + d) % m - (d - n)) % m == (sp + n) % m && ((sp + n) % m + (d - n)) % m == (sp + d) % m
  {
    Shifted(m, sp, 0 - d, n);
    Shifted(m, sp, 0 - n, d);
  }

  lemma PopStep(s: St, n: Width, v: u32, d: nat)
    requires Reach(s, d) && n <= d && Slot(s, 0, n, v)
    ensures var (t, r) := Pop(s, n);
      Moved(s, t) && SameLayout(s.mem, t.mem) && Risen(s, t, n) && Reach(t, d - n) && r == Low(v, n)
  {
    hide Moved, SameLayout, Usable, Sp, SpMod, Base, Separate, Slot, Pop, Data;
    ReachedPart(s, d, n);
    PopLaw(s, n, v);
    var t := Pop(s, n).0;
    Regroup(SpMod(s), Sp(s), d, n);
    var m := SpMod(s);
    UsableDeeper(s.mem, Base(s), m, (Sp(s) + d) % m, d, 0, d - n);
    Reduced(m, Sp(s) + d);
    Fits(m, (Sp(s) + d) % m);
    UsableLayout(s.mem, t.mem, Base(s), m, (Sp(s) + d) % m, d - n);
  }

  lemma PopOff(s: St, x: Item, rest: seq<Item>, d: nat)
    requires Reach(s, d) && x.n <= d && OnStack(s, 0, [x] + rest)
    ensures var (t, r) := Pop(s, x.n);
      && Moved(s, t) && Reach(t, d - x.n) && SameLayout(s.mem, t.mem) && Sp(t) == (Sp(s) + x.n) % SpMod(s)
      && OnStack(t, 0, rest) && r == Low(x.v, x.n) && SpMod(t) == SpMod(s)
  {
    hide Moved, Pop, Reach, Slot, SameLayout, SameData, Sp, SpMod, Base;
    assert ([x] + rest)[1..] == rest;
    PopStep(s, x.n, x.v, d);
    RisenStack(s, Pop(s, x.n).0, x.n, x.n, rest);
  }

  /** The low bytes of the items, in order. */
  function Values(items: seq<Item>): seq<u32>
    decreases |items|
  {
    if items == [] then [] else [Low(items[0].v, items[0].n)] + Values(items[1..])
  }

  lemma {:induction false} PopAllLaw(s: St, items: seq<Item>, d: nat)
    requires Reach(s, d) && Depth(items) <= d && OnStack(s, 0, items)
    ensures var (t, vs) := PopAll(s, items);
      Moved(s, t) && vs == Values(items) && Sp(t) == (Sp(s) + Depth(items)) % SpMod(s)
    decreases |items|
  {
    hide Moved, SameLayout, Sp, SpMod, Base, Reach, Slot, Pop, Data;
    if items == [] {
      MovedIs(s, s);
      StaysPut(s);
    } else {
      var n, v, rest := items[0].n, items[0].v, items[1..];
      PopStep(s, n, v, d);
      var t := Pop(s, n).0;
      RisenStack(s, t, n, n, rest);
      PopAllLaw(t, rest, d - n);
      MovedTrans(s, t, PopAll(t, rest).0);
      MovedIs(s, t);
      Regroup(SpMod(s), Sp(s), Depth(items), n);
    }
  }

  /** Down and up again by the same amount. */
  lemma BackAgain(s: St, t: St, u: St, d: nat)
    requires Moved(s, t) && Moved(t, u)
    requires Sp(t) == (Sp(s) - d) % SpMod(s) && Sp(u) == (Sp(t) + d) % SpMod(t)
    ensures u == s.(intr := u.intr, mem := u.mem)
  {
    hide Moved, Sp, SpMod, Base;
    MovedIs(s, t);
    MovedTrans(s, t, u);
    StaysPut(s);
    Shifted(SpMod(s), Sp(s), d, 0);
    MovedIs(s, u);
  }

  /**
  Theorem: popping what was pushed, in reverse, returns every value and restores the pointer and all registers,
  for any mix of sizes that fits the stack, through any wrap of the pointer.
  */
  lemma PopsReversePushes(s: St, items: seq<Item>)
    requires Room(s, Depth(items))
    ensures var (t, vs) := PopAll(PushAll(s, items), items);
      vs == Values(items) && t == s.(intr := t.intr, mem := t.mem)
  {
    hide Moved, SameLayout, Sp, SpMod, Base, Reach, Room, Slot, OnStack, PushAll, PopAll, Depth, Values;
    var d := Depth(items);
    var t := PushAll(s, items);
    PushAllLaw(s, items, d);
    RoomIs(t, 0);
    MovedIs(s, t);
    RoomReached(s, t, d, d);
    PopAllLaw(t, items, d);
    BackAgain(s, t, PopAll(t, items).0, d);
  }
}
