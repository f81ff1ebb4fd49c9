/** movsb with its repeat prefixes, and the index registers it shares with cmpsb and scasb (ops.c). */
module Strings {
  import opened Words
  import opened Bits
  import opened FlatMemory
  import opened MemoryLaws
  import opened PagedMemory
  import opened Machine

  // ---- index registers ----

  function AddrMod(s: St): (m: nat)
    ensures m == 0x1_0000 || m == 0x1_0000_0000
  {
    if s.mode.addr32 then 0x1_0000_0000 else 0x1_0000
  }

  /** The part of a register that address size selects, and that part moved by `d`. */
  function Index(s: St, x: u32): u32 { if s.mode.addr32 then x else Lo16(x) }

  function Bump(s: St, x: u32, d: int): u32 {
    if s.mode.addr32 then U32(x + d) else SetLo16(x, U16(Lo16(x) + d))
  }

  function Cleared(s: St, x: u32): u32 { if s.mode.addr32 then 0 else SetLo16(x, 0) }

  lemma BumpIs(s: St, x: u32, d: int)
    ensures Index(s, Bump(s, x, d)) == (Index(s, x) + d) % AddrMod(s)
  {
    var q := x / 0x1_0000;
    var v := U16(Lo16(x) + d);
    assert SetLo16(x, v) == 0x1_0000 * q + v;
    DivUnique(SetLo16(x, v), 0x1_0000, q, v);
  }

  /** With 16-bit addresses the high half of an index register stays. */
  predicate SameUpper(s: St, x: u32, y: u32) { s.mode.addr32 || y / 0x1_0000 == x / 0x1_0000 }

  lemma BumpUpper(s: St, x: u32, d: int)
    ensures SameUpper(s, x, Bump(s, x, d)) && SameUpper(s, x, Cleared(s, x))
  {
    SetLo16Is(x, U16(Lo16(x) + d));
    SetLo16Is(x, 0);
    hide SetLo16, U16, U32, Lo16;
  }

  lemma UpperTrans(s: St, t: St, x: u32, y: u32, z: u32)
    requires SameUpper(s, x, y) && SameUpper(t, y, z) && t.mode == s.mode
    ensures SameUpper(s, x, z)
  {
  }

  function Direction(s: St): int { if s.f.df then -1 else 1 }

  function DataSeg(s: St): Seg {
    match s.override
    case Some(r) => s.segs.Get(r)
    case None => if s.mode.dsIsSs then s.segs.ss else s.segs.ds
  }

  /** Where the i-th source and destination bytes lie. */
  function Src(s: St, i: nat): u32 {
    U32(DataSeg(s).base + (Index(s, s.gen.esi) + Direction(s) * i) % AddrMod(s))
  }

  function Dst(s: St, i: nat): u32 {
    U32(s.segs.es.base + (Index(s, s.gen.edi) + Direction(s) * i) % AddrMod(s))
  }

  predicate Rep(s: St) { s.mode.repe || s.mode.repne }

  // ---- movsb ----

  function MovsStep(s: St): St {
    var (t, v) := Fetch(s, DataSeg(s), Index(s, s.gen.esi), 1);
    var u := Store(t, t.segs.es, Index(t, t.gen.edi), 1, v);
    u.(gen := u.gen.(esi := Bump(u, u.gen.esi, Direction(u)), edi := Bump(u, u.gen.edi, Direction(u))))
  }

  function MovsRun(s: St, k: nat): St
    decreases k
  {
    if k == 0 then s else MovsRun(MovsStep(s), k - 1)
  }

  /** CX or ECX is cleared first; the count lives on in a local variable. */
  function Movs(s: St): St {
    if Rep(s) then MovsRun(s.(gen := s.gen.(ecx := Cleared(s, s.gen.ecx))), Index(s, s.gen.ecx)) else MovsRun(s, 1)
  }

  function DataSegOf(emu: Emu): Seg
    reads emu
  {
    match emu.override
    case Some(r) => emu.segs.Get(r)
    case None => if emu.mode.dsIsSs then emu.segs.ss else emu.segs.ds
  }

  method MoveOne(emu: Emu)
    requires emu.Valid()
    modifies emu`gen, emu`intr, emu`made, emu.mem, emu.mem.Repr(), emu.mem.host
    ensures emu.Valid() && fresh(emu.mem.Repr() - old(emu.mem.Repr()))
    ensures emu.State() == MovsStep(old(emu.State()))
  {
    hide Mem.Valid, Fetch, Store, SetLo16, U16, U32, Lo16;
    var inc := if emu.f.df then -1 else 1;
    if emu.mode.addr32 {
      var val := emu.FetchData(DataSegOf(emu), emu.gen.esi, 1);
      emu.StoreData(emu.segs.es, emu.gen.edi, 1, val);
      emu.gen := emu.gen.(esi := U32(emu.gen.esi + inc), edi := U32(emu.gen.edi + inc));
    } else {
      var val := emu.FetchData(DataSegOf(emu), Lo16(emu.gen.esi), 1);
      emu.StoreData(emu.segs.es, Lo16(emu.gen.edi), 1, val);
      emu.gen := emu.gen.(esi := SetLo16(emu.gen.esi, U16(Lo16(emu.gen.esi) + inc)),
      edi := SetLo16(emu.gen.edi, U16(Lo16(emu.gen.edi) + inc)));
    }
  }

  method MovsByte(emu: Emu)
    requires emu.Valid()
    modifies emu`gen, emu`intr, emu`made, emu.mem, emu.mem.Repr(), emu.mem.host
    ensures emu.Valid() && fresh(emu.mem.Repr() - old(emu.mem.Repr()))
    ensures emu.State() == Movs(old(emu.State()))
  {
    hide Mem.Valid, MovsStep, SetLo16;
    var count := 1;
    if emu.mode.repe || emu.mode.repne {
      count := if emu.mode.addr32 then emu.gen.ecx else Lo16(emu.gen.ecx);
      emu.gen := emu.gen.(ecx := if emu.mode.addr32 then 0 else SetLo16(emu.gen.ecx, 0));
    }
    ghost var s, n := emu.State(), count;
    while count > 0
      invariant 0 <= count <= n && emu.Valid() && fresh(emu.mem.Repr() - old(emu.mem.Repr()))
      invariant MovsRun(emu.State(), count) == MovsRun(s, n)
    {
      MoveOne(emu);
      count := count - 1;
    }
  }

  // ---- what one copy does ----

  /** Same registers but for the index registers; same permissions; the next bytes are one step on. */
  predicate Stepped(s: St, t: St) {
    t == s.(gen := s.gen.(esi := Bump(s, s.gen.esi, Direction(s)), edi := Bump(s, s.gen.edi, Direction(s))),
            intr := t.intr, mem := t.mem)
  }

  /** What the addresses of the bytes depend on, apart from the index registers. */
  predicate SameWindow(s: St, t: St) {
    t.mode == s.mode && t.override == s.override && t.segs == s.segs && t.f.df == s.f.df
  }

  lemma SrcNext(s: St, t: St, i: nat)
    requires SameWindow(s, t) && t.gen.esi == Bump(s, s.gen.esi, Direction(s))
    ensures Src(t, i) == Src(s, i + 1)
  {
    hide Bump, Index;
    BumpIs(s, s.gen.esi, Direction(s));
    ModAdds(s, Index(s, s.gen.esi), Direction(s), Direction(s) * i);
    SameIndex(s, t);
  }

  lemma DstNext(s: St, t: St, i: nat)
    requires SameWindow(s, t) && t.gen.edi == Bump(s, s.gen.edi, Direction(s))
    ensures Dst(t, i) == Dst(s, i + 1)
  {
    hide Bump, Index;
    BumpIs(s, s.gen.edi, Direction(s));
    ModAdds(s, Index(s, s.gen.edi), Direction(s), Direction(s) * i);
    SameIndex(s, t);
  }

  lemma SteppedBytes(s: St, t: St, i: nat)
    requires Stepped(s, t)
    ensures Src(t, i) == Src(s, i + 1) && Dst(t, i) == Dst(s, i + 1)
  {
    hide Bump, Src, Dst;
    SrcNext(s, t, i);
    DstNext(s, t, i);
  }

  lemma SameIndex(s: St, t: St)
    requires t.mode == s.mode
    ensures forall x: u32 :: Index(t, x) == Index(s, x)
    ensures AddrMod(t) == AddrMod(s) > 0 && (t.f == s.f ==> Direction(t) == Direction(s))
  {
  }

  lemma ModAdds(s: St, x: int, a: int, b: int)
    ensures ((x + a) % AddrMod(s) + b) % AddrMod(s) == (x + a + b) % AddrMod(s)
  {
    var m, y := AddrMod(s), x + a;
    DivMod(y, m);
    DivMod(y + b, m);
    DivUnique(y % m + b, m, (y + b) / m - y / m, (y + b) % m);
  }

  lemma MovsStepLaw(s: St)
    requires Separate(s.mem) && CanRead(s.mem, Src(s, 0)) && CanWrite(s.mem, Dst(s, 0))
    ensures var t := MovsStep(s);
      && Stepped(s, t) && Separate(t.mem) && SameLayout(s.mem, t.mem)
      && forall b: u32 :: Data(t.mem, b) == if b == Dst(s, 0) then Data(s.mem, Src(s, 0)) else Data(s.mem, b)
  {
    hide Bump, Data, Perms, Has, CanRead, CanWrite, Separate, SameLayout, RByte, WByte;
    MovsStepIs(s);
    var f := s.mem.(invalid := false);
    var g := RByte(f, Src(s, 0)).0;
    var h := g.(invalid := false);
    Quiet(s.mem);
    RByteLaw(f, Src(s, 0));
    Quiet(g);
    LayoutPerms(s.mem, f, Src(s, 0));
    LayoutPerms(s.mem, f, Dst(s, 0));
    LayoutPerms(f, g, Dst(s, 0));
    LayoutPerms(g, h, Dst(s, 0));
    var v := RByte(f, Src(s, 0)).1;
    WByteLaw(h, Dst(s, 0), v);
    SameLayoutTrans(s.mem, f, g);
    SameLayoutTrans(s.mem, g, h);
    SameLayoutTrans(s.mem, h, WByte(h, Dst(s, 0), v));
    HitOne(Dst(s, 0));
  }

  lemma HitOne(a: u32)
    ensures forall b: u32 :: Hit(a, 1, b) <==> b == a
  {
    forall b: u32 ensures Hit(a, 1, b) <==> b == a {
      DivMod(b - a, 0x1_0000_0000);
    }
  }

  lemma FirstBytes(s: St)
    ensures Src(s, 0) == U32(DataSeg(s).base + Index(s, s.gen.esi))
      && Dst(s, 0) == U32(s.segs.es.base + Index(s, s.gen.edi))
  {
    var x, y := Index(s, s.gen.esi), Index(s, s.gen.edi);
    assert x % AddrMod(s) == x && y % AddrMod(s) == y;
  }

  lemma FetchByteIs(s: St, seg: Seg, ofs: u32)
    ensures var (t, v) := Fetch(s, seg, ofs, 1);
      t == s.(intr := t.intr, mem := t.mem) && (t.mem, v) == RByte(s.mem.(invalid := false), U32(seg.base + ofs))
  {
    hide RByte;
  }

  lemma StoreByteIs(s: St, seg: Seg, ofs: u32, v: u32)
    ensures var t := Store(s, seg, ofs, 1, v);
      t == s.(intr := t.intr, mem := t.mem) && t.mem == WByte(s.mem.(invalid := false), U32(seg.base + ofs), v)
  {
    hide WByte;
  }

  lemma MovsStepIs(s: St)
    ensures var t := MovsStep(s);
      var (g, v) := RByte(s.mem.(invalid := false), Src(s, 0));
      Stepped(s, t) && t.mem == WByte(g.(invalid := false), Dst(s, 0), v)
  {
    hide RByte, WByte, Bump, DataSeg, Src, Dst, U32, Fetch, Store, Index;
    FirstBytes(s);
    FetchByteIs(s, DataSeg(s), Index(s, s.gen.esi));
    var (t, v) := Fetch(s, DataSeg(s), Index(s, s.gen.esi), 1);
    SameIndex(s, t);
    StoreByteIs(t, t.segs.es, Index(t, t.gen.edi), v);
    var u := Store(t, t.segs.es, Index(t, t.gen.edi), 1, v);
    SameBump(s, u);
  }

  lemma SameBump(s: St, t: St)
    requires t.mode == s.mode
    ensures forall x: u32, d: int :: Bump(t, x, d) == Bump(s, x, d)
  {
  }

  // ---- runs of copies ----

  /** One more step in the same direction. */
  lemma IndexStep(s: St, x: u32, y: u32, k: nat)
    requires k > 0 && Index(s, y) == (Index(s, x) + Direction(s)) % AddrMod(s)
    ensures var d := Direction(s);
      (Index(s, y) + d * (k - 1)) % AddrMod(s) == (Index(s, x) + d * k) % AddrMod(s)
  {
    hide Index, AddrMod;
    ModAdds(s, Index(s, x), Direction(s), Direction(s) * (k - 1));
  }

  lemma {:induction false} MovsRunStays(s: St, k: nat)
    ensures var t := MovsRun(s, k);
      t == s.(gen := s.gen.(esi := t.gen.esi, edi := t.gen.edi), intr := t.intr, mem := t.mem)
    decreases k
  {
    hide MovsStep, Bump, Index, AddrMod, Direction;
    if k > 0 {
      MovsStepIs(s);
      MovsRunStays(MovsStep(s), k - 1);
    }
  }

  /** `k` is where the index registers of `t` are, counted from those of `s`. */
  predicate Advanced(s: St, t: St, k: int) {
    && Index(s, t.gen.esi) == (Index(s, s.gen.esi) + Direction(s) * k) % AddrMod(s)
    && Index(s, t.gen.edi) == (Index(s, s.gen.edi) + Direction(s) * k) % AddrMod(s)
    && SameUpper(s, s.gen.esi, t.gen.esi) && SameUpper(s, s.gen.edi, t.gen.edi)
  }

  lemma AdvancedNext(s: St, t: St, u: St, k: nat)
    requires k > 0 && t.mode == s.mode && t.f == s.f && Advanced(t, u, k - 1)
    requires SameUpper(s, s.gen.esi, t.gen.esi) && SameUpper(s, s.gen.edi, t.gen.edi)
    requires Index(s, t.gen.esi) == (Index(s, s.gen.esi) + Direction(s)) % AddrMod(s)
    requires Index(s, t.gen.edi) == (Index(s, s.gen.edi) + Direction(s)) % AddrMod(s)
    ensures Advanced(s, u, k)
  {
    hide Index, AddrMod, Direction, SameUpper;
    UpperTrans(s, t, s.gen.esi, t.gen.esi, u.gen.esi);
    UpperTrans(s, t, s.gen.edi, t.gen.edi, u.gen.edi);
    SameIndex(s, t);
    IndexStep(s, s.gen.esi, t.gen.esi, k);
    IndexStep(s, s.gen.edi, t.gen.edi, k);
  }

  /** After `k` copies the index registers have moved by `k`; else only memory and a fault request have changed. */
  lemma {:induction false} MovsRunRegs(s: St, k: nat)
    ensures var t := MovsRun(s, k);
      && t == s.(gen := s.gen.(esi := t.gen.esi, edi := t.gen.edi), intr := t.intr, mem := t.mem)
      && Advanced(s, t, k)
    decreases k
  {
    MovsRunStays(s, k);
    hide MovsStep, Bump, Index, AddrMod, Direction;
    if k == 0 {
      FirstIndex(s, s.gen.esi);
      FirstIndex(s, s.gen.edi);
    } else {
      hide Advanced;
      var t := MovsStep(s);
      MovsStepIs(s);
      MovsRunRegs(t, k - 1);
      BumpIs(s, s.gen.esi, Direction(s));
      BumpIs(s, s.gen.edi, Direction(s));
      BumpUpper(s, s.gen.esi, Direction(s));
      BumpUpper(s, s.gen.edi, Direction(s));
      AdvancedNext(s, t, MovsRun(t, k - 1), k);
    }
  }

  lemma FirstIndex(s: St, x: u32)
    ensures Index(s, x) == Index(s, x) % AddrMod(s)
  {
  }

  /** The bytes of a run may be read and written. */
  ghost predicate Copyable(s: St, k: nat) {
    Separate(s.mem) && forall i: nat :: i < k ==> CanRead(s.mem, Src(s, i)) && CanWrite(s.mem, Dst(s, i))
  }

  lemma CopyableStep(s: St, t: St, k: nat)
    requires 0 < k && Copyable(s, k) && Stepped(s, t) && Separate(t.mem) && SameLayout(s.mem, t.mem)
    ensures Copyable(t, k - 1)
  {
    hide Stepped, Src, Dst, CanRead, CanWrite, SameLayout, Separate;
    forall i: nat | i < k - 1 ensures CanRead(t.mem, Src(t, i)) && CanWrite(t.mem, Dst(t, i)) {
      SteppedBytes(s, t, i);
      LayoutPerms(s.mem, t.mem, Src(s, i + 1));
      LayoutPerms(s.mem, t.mem, Dst(s, i + 1));
    }
  }

  /** No byte is written twice, and none is read after it was written. */
  ghost predicate Orderly(s: St, k: nat) {
    forall i: nat, j: nat :: i < j < k ==> Dst(s, i) != Dst(s, j) && Dst(s, i) != Src(s, j)
  }

  lemma OrderlyStep(s: St, t: St, k: nat)
    requires 0 < k && Orderly(s, k) && Stepped(s, t)
    ensures Orderly(t, k - 1)
  {
    hide Stepped, Src, Dst;
    forall i: nat, j: nat | i < j < k - 1 ensures Dst(t, i) != Dst(t, j) && Dst(t, i) != Src(t, j) {
      SteppedBytes(s, t, i);
      SteppedBytes(s, t, j);
      assert Dst(s, i + 1) != Dst(s, j + 1) && Dst(s, i + 1) != Src(s, j + 1);
    }
  }

  /** `b` is none of the first `k` destinations. */
  ghost predicate NoOverlap(s: St, k: nat, b: u32) { forall i: nat :: i < k ==> Dst(s, i) != b }

  lemma ApartStep(s: St, t: St, k: nat, b: u32)
    requires 0 < k && Stepped(s, t)
    ensures NoOverlap(s, k, b) ==> NoOverlap(t, k - 1, b) && Dst(s, 0) != b
    ensures (forall j: nat :: 0 < j < k ==> Dst(s, j) != b) ==> NoOverlap(t, k - 1, b)
  {
    hide Stepped, Src, Dst;
    forall j: nat | j < k - 1 ensures Dst(t, j) == Dst(s, j + 1) {
      SteppedBytes(s, t, j);
    }
  }

  /** Theorem: an orderly run is a block copy, through any wrap of the index registers. */
  lemma {:induction false} MovsCopies(s: St, k: nat)
    requires Copyable(s, k) && Orderly(s, k)
    ensures forall i: nat :: i < k ==> Data(MovsRun(s, k).mem, Dst(s, i)) == Data(s.mem, Src(s, i))
    ensures forall b: u32 :: NoOverlap(s, k, b) ==> Data(MovsRun(s, k).mem, b) == Data(s.mem, b)
    decreases k
  {
    hide MovsStep, Stepped, Src, Dst, Data, CanRead, CanWrite, SameLayout, Separate, NoOverlap, Copyable;
    if k > 0 {
      var t := MovsStep(s);
      CopyableIs(s, k);
      MovsStepLaw(s);
      CopyableStep(s, t, k);
      OrderlyStep(s, t, k);
      MovsCopies(t, k - 1);
      var u := MovsRun(s, k);
      forall i: nat | i < k ensures Data(u.mem, Dst(s, i)) == Data(s.mem, Src(s, i)) {
        if i == 0 {
          ApartStep(s, t, k, Dst(s, 0));
        } else {
          SteppedBytes(s, t, i - 1);
        }
      }
      forall b: u32 | NoOverlap(s, k, b) ensures Data(u.mem, b) == Data(s.mem, b) {
        ApartStep(s, t, k, b);
      }
    }
  }

  lemma CopyableIs(s: St, k: nat)
    requires 0 < k && Copyable(s, k)
    ensures Separate(s.mem) && CanRead(s.mem, Src(s, 0)) && CanWrite(s.mem, Dst(s, 0))
  {
  }

  /** The destination runs `p` bytes behind the source: the i-th byte written is the (i + p)-th byte read. */
  ghost predicate Lagging(s: St, k: nat, p: nat) {
    && (forall i: nat, j: nat :: i < k && j < k ==> (Dst(s, i) == Src(s, j) <==> j == i + p))
    && (forall i: nat, j: nat :: i < j < k ==> Dst(s, i) != Dst(s, j))
  }

  lemma LaggingStep(s: St, t: St, k: nat, p: nat)
    requires 0 < k && Lagging(s, k, p) && Stepped(s, t)
    ensures Lagging(t, k - 1, p)
  {
    hide Stepped, Src, Dst;
    forall i: nat | i < k - 1 ensures Src(t, i) == Src(s, i + 1) && Dst(t, i) == Dst(s, i + 1) {
      SteppedBytes(s, t, i);
    }
    forall i: nat, j: nat | i < k - 1 && j < k - 1 ensures Dst(t, i) == Src(t, j) <==> j == i + p {
      assert Dst(s, i + 1) == Src(s, j + 1) <==> j + 1 == i + 1 + p;
    }
    forall i: nat, j: nat | i < j < k - 1 ensures Dst(t, i) != Dst(t, j) {
      assert Dst(s, i + 1) != Dst(s, j + 1);
    }
  }

  lemma NextMod(i: nat, p: nat)
    requires p > 0
    ensures (i + 1) % p == if i % p == p - 1 then 0 else i % p + 1
  {
    DivMod(i, p);
    var q, r := i / p, i % p;
    DivUnique(i + 1, p, if r == p - 1 then q + 1 else q, if r == p - 1 then 0 else r + 1);
  }

  lemma ModBelow(i: nat, p: nat)
    requires p > 0
    ensures i % p < p && i % p <= i && 0 % p == 0
  {
    DivMod(i, p);
    DivUnique(0, p, 0, 0);
    if i < p {
      DivUnique(i, p, 0, i);
    }
  }

  /** Theorem: a destination `p` bytes behind the source is filled with the first `p` bytes, over and over. */
  lemma {:induction false} MovsReplicates(s: St, k: nat, p: nat)
    requires p > 0 && Copyable(s, k) && Lagging(s, k, p)
    ensures forall i: nat :: i < k ==> Data(MovsRun(s, k).mem, Dst(s, i)) == Data(s.mem, Src(s, i % p))
    ensures forall b: u32 :: NoOverlap(s, k, b) ==> Data(MovsRun(s, k).mem, b) == Data(s.mem, b)
    decreases k
  {
    hide MovsStep, Stepped, Src, Dst, Data, CanRead, CanWrite, SameLayout, Separate, NoOverlap, Copyable, Lagging;
    if k > 0 {
      var t := MovsStep(s);
      CopyableIs(s, k);
      MovsStepLaw(s);
      CopyableStep(s, t, k);
      LaggingStep(s, t, k, p);
      MovsReplicates(t, k - 1, p);
      var u := MovsRun(s, k);
      forall i: nat | i < k ensures Data(u.mem, Dst(s, i)) == Data(s.mem, Src(s, i % p)) {
        ModBelow(i, p);
        if i == 0 {
          LaggingApart(s, k, p);
          ApartStep(s, t, k, Dst(s, 0));
        } else {
          SteppedBytes(s, t, i - 1);
          ModBelow(i - 1, p);
          SteppedBytes(s, t, (i - 1) % p);
          NextMod(i - 1, p);
          LaggingFirst(s, k, p, (i - 1) % p + 1);
        }
      }
      forall b: u32 | NoOverlap(s, k, b) ensures Data(u.mem, b) == Data(s.mem, b) {
        ApartStep(s, t, k, b);
      }
    }
  }

  lemma LaggingApart(s: St, k: nat, p: nat)
    requires 0 < k && Lagging(s, k, p)
    ensures forall j: nat :: 0 < j < k ==> Dst(s, j) != Dst(s, 0)
  {
    hide Src, Dst;
  }

  /** The first byte written is the p-th byte of the source and none of those before it. */
  lemma LaggingFirst(s: St, k: nat, p: nat, i: nat)
    requires Lagging(s, k, p) && i < k
    ensures Src(s, i) == Dst(s, 0) <==> i == p
  {
    hide Src, Dst;
    assert Dst(s, 0) == Src(s, i) <==> i == 0 + p;
  }

  // ---- ranges that do not wrap ----

  /** `k` bytes from index `x` of a segment, in direction `d`, stay within the segment's 64K or 4G and below 2^32. */
  predicate Straight(m: nat, base: u32, x: u32, d: int, k: nat) {
    k == 0 || (0 <= x + d * (k - 1) < m && base + x < 0x1_0000_0000 && base + x + d * (k - 1) < 0x1_0000_0000)
  }

  predicate Unwrapped(s: St, k: nat) {
    && Straight(AddrMod(s), DataSeg(s).base, Index(s, s.gen.esi), Direction(s), k)
    && Straight(AddrMod(s), s.segs.es.base, Index(s, s.gen.edi), Direction(s), k)
  }

  lemma StraightIs(m: nat, base: u32, x: u32, d: int, k: nat, i: nat)
    requires Straight(m, base, x, d, k) && i < k && (d == 1 || d == -1) && 0 < m && x < m
    ensures U32(base + (x + d * i) % m) == base + x + d * i
  {
    DivUnique(x + d * i, m, 0, x + d * i);
  }

  lemma StraightFrom(m: nat, base: u32, x: u32, d: int, k: nat, i: nat)
    requires Straight(m, base, x, d, k) && i < k && (d == 1 || d == -1) && 0 < m && x < m
    ensures U32(base + (x + d * i) % m) == U32(base + (x + d * 0) % m) + d * i
  {
    hide Straight, U32;
    StraightIs(m, base, x, d, k, i);
    StraightIs(m, base, x, d, k, 0);
  }

  lemma UnwrappedIs(s: St, k: nat, i: nat)
    requires Unwrapped(s, k) && i < k
    ensures Src(s, i) == Src(s, 0) + Direction(s) * i && Dst(s, i) == Dst(s, 0) + Direction(s) * i
  {
    hide Index, DataSeg, Straight, U32, AddrMod, Direction;
    IndexBelow(s, s.gen.esi);
    IndexBelow(s, s.gen.edi);
    StraightFrom(AddrMod(s), DataSeg(s).base, Index(s, s.gen.esi), Direction(s), k, i);
    StraightFrom(AddrMod(s), s.segs.es.base, Index(s, s.gen.edi), Direction(s), k, i);
  }

  lemma IndexBelow(s: St, x: u32)
    ensures Index(s, x) < AddrMod(s) && (Direction(s) == 1 || Direction(s) == -1)
  {
  }

  /** The copy direction is right for the overlap, or there is none. */
  predicate Forward(s: St, k: nat) {
    if s.f.df then Dst(s, 0) >= Src(s, 0) || Dst(s, 0) + k <= Src(s, 0)
    else Dst(s, 0) <= Src(s, 0) || Dst(s, 0) >= Src(s, 0) + k
  }

  lemma ForwardIsOrderly(s: St, k: nat)
    requires Unwrapped(s, k) && Forward(s, k)
    ensures Orderly(s, k)
  {
    hide Src, Dst, Unwrapped;
    forall i: nat, j: nat | i < j < k ensures Dst(s, i) != Dst(s, j) && Dst(s, i) != Src(s, j) {
      UnwrappedIs(s, k, i);
      UnwrappedIs(s, k, j);
    }
  }

  /** The registers after the whole instruction: the counter is zero and the index registers have moved by the count. */
  lemma MovsRegs(s: St)
    ensures var t := Movs(s); var n := if Rep(s) then Index(s, s.gen.ecx) else 1;
      && Index(s, t.gen.esi) == (Index(s, s.gen.esi) + Direction(s) * n) % AddrMod(s)
      && Index(s, t.gen.edi) == (Index(s, s.gen.edi) + Direction(s) * n) % AddrMod(s)
      && Index(s, t.gen.ecx) == (if Rep(s) then 0 else Index(s, s.gen.ecx))
      && SameUpper(s, s.gen.esi, t.gen.esi) && SameUpper(s, s.gen.edi, t.gen.edi)
      && SameUpper(s, s.gen.ecx, t.gen.ecx)
      && t == s.(gen := s.gen.(esi := t.gen.esi, edi := t.gen.edi, ecx := t.gen.ecx), intr := t.intr, mem := t.mem)
  {
    hide MovsRun, SetLo16;
    if Rep(s) {
      MovsRunRegs(s.(gen := s.gen.(ecx := Cleared(s, s.gen.ecx))), Index(s, s.gen.ecx));
      ClearedIs(s, s.gen.ecx);
      BumpUpper(s, s.gen.ecx, 0);
    } else {
      MovsRunRegs(s, 1);
    }
  }

  lemma ClearedIs(s: St, x: u32)
    ensures Index(s, Cleared(s, x)) == 0
  {
  }

  /**
  Theorem: rep movsb on unwrapped ranges is a block copy when it runs forward onto a destination before or clear of
  the source, or backward onto one after or clear of it.
  */
  lemma RepMovsCopies(s: St)
    requires Rep(s)
    requires var n := Index(s, s.gen.ecx); Copyable(s, n) && Unwrapped(s, n) && Forward(s, n)
    ensures var n := Index(s, s.gen.ecx);
      && (forall i: nat :: i < n ==> Data(Movs(s).mem, Dst(s, i)) == Data(s.mem, Src(s, i)))
      && (forall b: u32 :: NoOverlap(s, n, b) ==> Data(Movs(s).mem, b) == Data(s.mem, b))
  {
    hide MovsRun, Data, Unwrapped, Forward, Cleared, Copyable, Orderly;
    var n := Index(s, s.gen.ecx);
    var t := s.(gen := s.gen.(ecx := Cleared(s, s.gen.ecx)));
    ForwardIsOrderly(s, n);
    SameRun(s, t, n);
    MovsCopies(t, n);
  }

  /** Theorem: without a repeat prefix one byte is copied, and no other byte changes. */
  lemma MovsCopiesOne(s: St)
    requires !Rep(s) && Copyable(s, 1)
    ensures forall b: u32 :: Data(Movs(s).mem, b) == if b == Dst(s, 0) then Data(s.mem, Src(s, 0)) else Data(s.mem, b)
  {
    hide MovsStep, Data, Src, Dst, CanRead, CanWrite, Separate, Stepped, SameLayout;
    CopyableIs(s, 1);
    MovsStepLaw(s);
    assert MovsRun(s, 1) == MovsRun(MovsStep(s), 0);
  }

  lemma SameRun(s: St, t: St, k: nat)
    requires t == s.(gen := s.gen.(ecx := t.gen.ecx))
    ensures forall i: nat :: Src(t, i) == Src(s, i) && Dst(t, i) == Dst(s, i)
    ensures Copyable(s, k) ==> Copyable(t, k)
    ensures Orderly(s, k) ==> Orderly(t, k)
    ensures forall b: u32 :: NoOverlap(s, k, b) ==> NoOverlap(t, k, b)
  {
    hide Index, CanRead, CanWrite, Separate;
    SameIndex(s, t);
    assert forall i: nat :: Src(t, i) == Src(s, i) && Dst(t, i) == Dst(s, i);
  }

  /** Theorem: rep movsb, forward, with the destination `p` bytes above the source, replicates the first `p` bytes. */
  lemma RepMovsReplicates(s: St, p: nat)
    requires Rep(s) && !s.f.df && p > 0 && Dst(s, 0) == Src(s, 0) + p
    requires var n := Index(s, s.gen.ecx); Copyable(s, n) && Unwrapped(s, n)
    ensures var n := Index(s, s.gen.ecx);
      && (forall i: nat :: i < n ==> Data(Movs(s).mem, Dst(s, i)) == Data(s.mem, Src(s, i % p)))
      && (forall b: u32 :: NoOverlap(s, n, b) ==> Data(Movs(s).mem, b) == Data(s.mem, b))
  {
    hide MovsRun, Data, Unwrapped, Cleared, Copyable, Lagging, Src, Dst;
    var n := Index(s, s.gen.ecx);
    var t := s.(gen := s.gen.(ecx := Cleared(s, s.gen.ecx)));
    SameRun(s, t, n);
    AboveIsLagging(s, t, n, p);
    MovsReplicates(t, n, p);
    forall i: nat | i < n ensures Data(Movs(s).mem, Dst(s, i)) == Data(s.mem, Src(s, i % p)) {
      ModBelow(i, p);
    }
  }

  lemma AboveIsLagging(s: St, t: St, k: nat, p: nat)
    requires !s.f.df && Dst(s, 0) == Src(s, 0) + p && Unwrapped(s, k)
    requires forall i: nat :: Src(t, i) == Src(s, i) && Dst(t, i) == Dst(s, i)
    ensures Lagging(t, k, p)
  {
    hide Src, Dst, Unwrapped;
    forall i: nat | i < k ensures Src(s, i) == Src(s, 0) + i && Dst(s, i) == Dst(s, 0) + i {
      UnwrappedIs(s, k, i);
    }
  }
}
