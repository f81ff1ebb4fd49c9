/** cmpsb and scasb: repeated comparison stops at the first byte the condition names (ops.c). */
module Scans {
  import opened Words
  import opened FlatMemory
  import opened MemoryLaws
  import opened PagedMemory
  import opened Machine
  import opened Arithmetic
  import opened Conditions
  import opened Strings

  datatype ScanOp = Cmps | Scas

  function Al(g: Regs): u8 { g.eax % 0x100 }

  /** Fetch and compare: memory with memory, or AL with memory. */
  function Compare(s: St, op: ScanOp): St {
    if op == Cmps then
      var (t, x) := Fetch(s, DataSeg(s), Index(s, s.gen.esi), 1);
      var (u, y) := Fetch(t, t.segs.es, Index(t, t.gen.edi), 1);
      u.(f := SubFlags(u.f, 8, x, y, 0))
    else
      var (t, y) := Fetch(s, s.segs.es, Index(s, s.gen.edi), 1);
      t.(f := SubFlags(t.f, 8, Al(t.gen), y, 0))
  }

  function Advance(s: St, op: ScanOp): St {
    var g := s.gen.(edi := Bump(s, s.gen.edi, Direction(s)));
    s.(gen := if op == Cmps then g.(esi := Bump(s, s.gen.esi, Direction(s))) else g)
  }

  function CountDown(s: St): St { s.(gen := s.gen.(ecx := Bump(s, s.gen.ecx, -1))) }

  /** NZ under repe, Z otherwise. */
  function StopCode(s: St): nat { if s.mode.repe then 5 else 4 }

  function ScanStep(s: St, op: ScanOp): St { Advance(CountDown(Compare(s, op)), op) }

  /** The repeated form, with CX or ECX equal to `n`. */
  function ScanRep(s: St, op: ScanOp, n: nat): St
    decreases n
  {
    if n == 0 then s
    else
      var t := ScanStep(s, op);
      if EvalCondition(t.f, StopCode(s)) then t else ScanRep(t, op, n - 1)
  }

  function Scan(s: St, op: ScanOp): St {
    if Rep(s) then ScanRep(s, op, Index(s, s.gen.ecx)) else Advance(Compare(s, op), op)
  }

  lemma ByteRange(s: St, seg: Seg, ofs: u32)
    ensures Fetch(s, seg, ofs, 1).1 < 0x100
  {
    hide RByte;
  }

  method CompareN(emu: Emu, op: ScanOp)
    requires emu.Valid()
    modifies emu`f, emu`intr, emu`made, emu.mem, emu.mem.Repr(), emu.mem.host
    ensures emu.Valid() && fresh(emu.mem.Repr() - old(emu.mem.Repr()))
    ensures emu.State() == Compare(old(emu.State()), op)
  {
    hide Mem.Valid, Fetch, SubFlags, Lo16;
    ghost var s := emu.State();
    var x: u32 := emu.gen.eax % 0x100;
    if op == Cmps {
      ByteRange(s, DataSeg(s), Index(s, s.gen.esi));
      x := emu.FetchData(DataSegOf(emu), if emu.mode.addr32 then emu.gen.esi else Lo16(emu.gen.esi), 1);
    }
    ghost var t := emu.State();
    ByteRange(t, t.segs.es, Index(t, t.gen.edi));
    var y := emu.FetchData(emu.segs.es, if emu.mode.addr32 then emu.gen.edi else Lo16(emu.gen.edi), 1);
    var _ := Cmp(emu, 8, x, y);
  }

  method AdvanceN(emu: Emu, op: ScanOp)
    requires emu.Valid()
    modifies emu`gen
    ensures emu.Valid() && emu.State() == Advance(old(emu.State()), op)
  {
    hide Mem.Valid, SetLo16, U16, U32, Lo16;
    var inc := if emu.f.df then -1 else 1;
    var edi := if emu.mode.addr32 then U32(emu.gen.edi + inc) else SetLo16(emu.gen.edi, U16(Lo16(emu.gen.edi) + inc));
    var esi := if emu.mode.addr32 then U32(emu.gen.esi + inc) else SetLo16(emu.gen.esi, U16(Lo16(emu.gen.esi) + inc));
    emu.gen := if op == Cmps then emu.gen.(edi := edi, esi := esi) else emu.gen.(edi := edi);
  }

  method CountDownN(emu: Emu)
    requires emu.Valid()
    modifies emu`gen
    ensures emu.Valid() && emu.State() == CountDown(old(emu.State()))
  {
    hide Mem.Valid, SetLo16, U16, U32, Lo16;
    emu.gen := emu.gen.(ecx :=
      if emu.mode.addr32 then U32(emu.gen.ecx - 1) else SetLo16(emu.gen.ecx, U16(Lo16(emu.gen.ecx) - 1)));
  }

  /** A comparison changes the flags, memory marks and possibly a fault request. */
  lemma CompareKeeps(s: St, op: ScanOp)
    ensures var t := Compare(s, op); t == s.(f := t.f, intr := t.intr, mem := t.mem) && t.f.df == s.f.df
  {
    hide RByte, Signed, Difference;
  }

  lemma ScanStepKeeps(s: St, op: ScanOp)
    ensures var t := ScanStep(s, op);
      && SameWindow(s, t) && t.gen.edi == Bump(s, s.gen.edi, Direction(s)) && t.gen.ecx == Bump(s, s.gen.ecx, -1)
      && t.gen.esi == (if op == Cmps then Bump(s, s.gen.esi, Direction(s)) else s.gen.esi) && t.gen.eax == s.gen.eax
      && t.f == Compare(s, op).f && t.mem == Compare(s, op).mem
      && Index(t, t.gen.ecx) == (Index(s, s.gen.ecx) - 1) % AddrMod(s)
      && SameUpper(s, s.gen.ecx, t.gen.ecx) && SameUpper(s, s.gen.edi, t.gen.edi) && SameUpper(s, s.gen.esi, t.gen.esi)
      && t == s.(gen := s.gen.(esi := t.gen.esi, edi := t.gen.edi, ecx := t.gen.ecx), f := t.f, intr := t.intr,
        mem := t.mem)
  {
    hide Compare, Bump, Index;
    CompareKeeps(s, op);
    var t := Compare(s, op);
    SameBump(s, t);
    SameBump(s, CountDown(t));
    BumpIs(s, s.gen.ecx, -1);
    BumpUpper(s, s.gen.ecx, -1);
    BumpUpper(s, s.gen.edi, Direction(s));
    BumpUpper(s, s.gen.esi, Direction(s));
    SameIndex(s, ScanStep(s, op));
  }

  lemma CountsDown(s: St, x: int)
    requires 0 < x < AddrMod(s)
    ensures (x - 1) % AddrMod(s) == x - 1
  {
  }

  /** One round of the repeated form. */
  method ScanOne(emu: Emu, op: ScanOp) returns (stop: bool)
    requires emu.Valid()
    modifies emu`gen, emu`f, emu`intr, emu`made, emu.mem, emu.mem.Repr(), emu.mem.host
    ensures emu.Valid() && fresh(emu.mem.Repr() - old(emu.mem.Repr()))
    ensures emu.State() == ScanStep(old(emu.State()), op)
    ensures stop == EvalCondition(emu.f, StopCode(old(emu.State())))
  {
    hide Mem.Valid, Compare, Advance, CountDown, EvalCondition;
    var cond := if emu.mode.repe then 5 else 4;
    CompareN(emu, op);
    CountDownN(emu);
    AdvanceN(emu, op);
    stop := EvalCondition(emu.f, cond);
  }

  function CxOf(emu: Emu): u32
    reads emu
  {
    if emu.mode.addr32 then emu.gen.ecx else Lo16(emu.gen.ecx)
  }

  /** The loop unrolled once. */
  lemma ScanNext(s: St, op: ScanOp)
    requires Index(s, s.gen.ecx) > 0
    ensures var t := ScanStep(s, op);
      && Index(t, t.gen.ecx) == Index(s, s.gen.ecx) - 1
      && ScanRep(s, op, Index(s, s.gen.ecx)) ==
           (if EvalCondition(t.f, StopCode(s)) then t else ScanRep(t, op, Index(t, t.gen.ecx)))
      && ScanRep(t, op, 0) == t
  {
    hide ScanStep, EvalCondition, Bump, StopCode, AddrMod, Index;
    ScanStepKeeps(s, op);
    IndexBelow(s, s.gen.ecx);
    CountsDown(s, Index(s, s.gen.ecx));
  }

  lemma ScanNone(s: St, op: ScanOp)
    ensures ScanRep(s, op, 0) == s
  {
  }

  method ScanLoop(emu: Emu, op: ScanOp)
    requires emu.Valid()
    modifies emu`gen, emu`f, emu`intr, emu`made, emu.mem, emu.mem.Repr(), emu.mem.host
    ensures emu.Valid() && fresh(emu.mem.Repr() - old(emu.mem.Repr()))
    ensures var s := old(emu.State()); emu.State() == ScanRep(s, op, Index(s, s.gen.ecx))
  {
    hide Mem.Valid, ScanStep, ScanRep, EvalCondition, StopCode;
    ghost var s, n := emu.State(), CxOf(emu);
    while CxOf(emu) != 0
      invariant emu.Valid() && fresh(emu.mem.Repr() - old(emu.mem.Repr()))
      invariant ScanRep(emu.State(), op, CxOf(emu)) == ScanRep(s, op, n)
      decreases CxOf(emu)
    {
      ScanNext(emu.State(), op);
      var stop := ScanOne(emu, op);
      if stop {
        break;
      }
    }
    ScanNone(emu.State(), op);
  }

  method ScanByte(emu: Emu, op: ScanOp)
    requires emu.Valid()
    modifies emu`gen, emu`f, emu`intr, emu`made, emu.mem, emu.mem.Repr(), emu.mem.host
    ensures emu.Valid() && fresh(emu.mem.Repr() - old(emu.mem.Repr()))
    ensures emu.State() == Scan(old(emu.State()), op)
  {
    hide Mem.Valid, Compare, Advance, ScanRep;
    if emu.mode.repe || emu.mode.repne {
      ScanLoop(emu, op);
    } else {
      CompareN(emu, op);
      AdvanceN(emu, op);
    }
  }

  // ---- where a repeated comparison stops ----

  /** The i-th pair of bytes, as memory holds them at the start. */
  function Left(s: St, op: ScanOp, i: nat): u8 { if op == Cmps then Data(s.mem, Src(s, i)) else Al(s.gen) }

  function Right(s: St, i: nat): u8 { Data(s.mem, Dst(s, i)) }

  /** repe stops at a mismatch, repne at a match. */
  predicate Stops(s: St, op: ScanOp, i: nat) {
    if s.mode.repe then Left(s, op, i) != Right(s, i) else Left(s, op, i) == Right(s, i)
  }

  ghost predicate Scannable(s: St, op: ScanOp, k: nat) {
    forall i: nat :: i < k ==>
      CanRead(s.mem, Dst(s, i)) && (op == Cmps ==> CanRead(s.mem, Src(s, i)))
  }

  lemma CompareIs(s: St, op: ScanOp)
    ensures var t := Compare(s, op); var f := s.mem.(invalid := false);
      if op == Cmps then
        var g := RByte(f, Src(s, 0)).0.(invalid := false);
        t.mem == RByte(g, Dst(s, 0)).0 && t.f == SubFlags(s.f, 8, RByte(f, Src(s, 0)).1, RByte(g, Dst(s, 0)).1, 0)
      else t.mem == RByte(f, Dst(s, 0)).0 && t.f == SubFlags(s.f, 8, Al(s.gen), RByte(f, Dst(s, 0)).1, 0)
  {
    hide RByte, DataSeg, Src, Dst, U32, Fetch, Index, SubFlags;
    FirstBytes(s);
    FetchByteIs(s, DataSeg(s), Index(s, s.gen.esi));
    FetchByteIs(s, s.segs.es, Index(s, s.gen.edi));
    var t := Fetch(s, DataSeg(s), Index(s, s.gen.esi), 1).0;
    SameIndex(s, t);
    FetchByteIs(t, t.segs.es, Index(t, t.gen.edi));
  }

  lemma CompareLaw(s: St, op: ScanOp)
    requires CanRead(s.mem, Dst(s, 0)) && (op == Cmps ==> CanRead(s.mem, Src(s, 0)))
    ensures var t := Compare(s, op);
      && t.f == SubFlags(s.f, 8, Left(s, op, 0), Right(s, 0), 0)
      && SameData(s.mem, t.mem) && SameLayout(s.mem, t.mem)
  {
    hide Compare, RByte, Src, Dst, Data, CanRead, SameLayout, SubFlags;
    CompareIs(s, op);
    var f := s.mem.(invalid := false);
    Quiet(s.mem);
    LayoutPerms(s.mem, f, Src(s, 0));
    LayoutPerms(s.mem, f, Dst(s, 0));
    if op == Cmps {
      RByteLaw(f, Src(s, 0));
      var g := RByte(f, Src(s, 0)).0;
      var h := g.(invalid := false);
      Quiet(g);
      LayoutPerms(f, g, Dst(s, 0));
      LayoutPerms(g, h, Dst(s, 0));
      RByteLaw(h, Dst(s, 0));
      SameLayoutTrans(s.mem, f, g);
      SameLayoutTrans(s.mem, g, h);
      SameLayoutTrans(s.mem, h, RByte(h, Dst(s, 0)).0);
    } else {
      RByteLaw(f, Dst(s, 0));
      SameLayoutTrans(s.mem, f, RByte(f, Dst(s, 0)).0);
    }
  }

  lemma SubFlagsTwice(f: Flags, x: u8, y: u8, a: u8, b: u8)
    ensures SubFlags(SubFlags(f, 8, x, y, 0), 8, a, b, 0) == SubFlags(f, 8, a, b, 0)
  {
    hide Signed, Difference;
  }

  lemma StopMeans(s: St, op: ScanOp)
    ensures EvalCondition(SubFlags(s.f, 8, Left(s, op, 0), Right(s, 0), 0), StopCode(s)) == Stops(s, op, 0)
  {
    hide SubFlags, Left, Right;
    ConditionsOrder(s.f, 8, Left(s, op, 0), Right(s, 0), StopCode(s));
  }

  /** The pairs seen from one step on. */
  lemma PairsNext(s: St, op: ScanOp, i: nat)
    requires SameData(s.mem, Compare(s, op).mem)
    ensures var t := ScanStep(s, op);
      Left(t, op, i) == Left(s, op, i + 1) && Right(t, i) == Right(s, i + 1) && Stops(t, op, i) == Stops(s, op, i + 1)
  {
    hide ScanStep, Compare, Src, Dst, Bump, Data;
    ScanStepKeeps(s, op);
    DstNext(s, ScanStep(s, op), i);
    if op == Cmps {
      SrcNext(s, ScanStep(s, op), i);
    }
  }

  lemma ScannableNext(s: St, op: ScanOp, k: nat)
    requires 0 < k && Scannable(s, op, k)
    ensures SameData(s.mem, Compare(s, op).mem) && Scannable(ScanStep(s, op), op, k - 1)
    ensures Compare(s, op).f == SubFlags(s.f, 8, Left(s, op, 0), Right(s, 0), 0)
  {
    hide ScanStep, Compare, Src, Dst, Bump, Data, CanRead, SameLayout, SubFlags, SameData;
    CompareLaw(s, op);
    ScanStepKeeps(s, op);
    var t := ScanStep(s, op);
    forall i: nat | i < k - 1 ensures CanRead(t.mem, Dst(t, i)) && (op == Cmps ==> CanRead(t.mem, Src(t, i))) {
      DstNext(s, t, i);
      LayoutPerms(s.mem, t.mem, Dst(s, i + 1));
      if op == Cmps {
        SrcNext(s, t, i);
        LayoutPerms(s.mem, t.mem, Src(s, i + 1));
      }
    }
  }

  /** Registers, flags and memory after `m` comparisons. */
  ghost predicate Scanned(s: St, op: ScanOp, m: nat, t: St) {
    && Index(s, t.gen.ecx) == (Index(s, s.gen.ecx) - m) % AddrMod(s)
    && Index(s, t.gen.edi) == (Index(s, s.gen.edi) + Direction(s) * m) % AddrMod(s)
    && Index(s, t.gen.esi) == (Index(s, s.gen.esi) + (if op == Cmps then Direction(s) * m else 0)) % AddrMod(s)
    && SameUpper(s, s.gen.ecx, t.gen.ecx) && SameUpper(s, s.gen.edi, t.gen.edi) && SameUpper(s, s.gen.esi, t.gen.esi)
    && t.f == (if m == 0 then s.f else SubFlags(s.f, 8, Left(s, op, m - 1), Right(s, m - 1), 0))
    && t == s.(gen := s.gen.(esi := t.gen.esi, edi := t.gen.edi, ecx := t.gen.ecx), f := t.f, intr := t.intr,
      mem := t.mem)
    && SameData(s.mem, t.mem)
  }

  lemma ScannedNone(s: St, op: ScanOp)
    ensures Scanned(s, op, 0, s)
  {
    hide Index, AddrMod, Data, SubFlags;
    FirstIndex(s, s.gen.esi);
    FirstIndex(s, s.gen.edi);
    FirstIndex(s, s.gen.ecx);
  }

  lemma IndexOn(s: St, t: St, x: u32, y: u32, z: u32, d: int, e: int)
    requires t.mode == s.mode
    requires Index(s, y) == (Index(s, x) + d) % AddrMod(s) && Index(t, z) == (Index(t, y) + e) % AddrMod(t)
    ensures Index(s, z) == (Index(s, x) + (d + e)) % AddrMod(s)
  {
    hide Index;
    SameIndex(s, t);
    ModAdds(s, Index(s, x), d, e);
  }

  lemma ScannedNext(s: St, op: ScanOp, m: nat, u: St)
    requires Scanned(ScanStep(s, op), op, m, u) && SameData(s.mem, Compare(s, op).mem)
    requires Compare(s, op).f == SubFlags(s.f, 8, Left(s, op, 0), Right(s, 0), 0)
    ensures Scanned(s, op, m + 1, u)
  {
    hide ScanStep, Compare, Bump, Index, AddrMod, Data, SubFlags, Left, Right, SameUpper, Direction;
    var t, d, e := ScanStep(s, op), Direction(s), if op == Cmps then Direction(s) else 0;
    ScanStepKeeps(s, op);
    SameIndex(s, t);
    UpperTrans(s, t, s.gen.ecx, t.gen.ecx, u.gen.ecx);
    UpperTrans(s, t, s.gen.edi, t.gen.edi, u.gen.edi);
    UpperTrans(s, t, s.gen.esi, t.gen.esi, u.gen.esi);
    BumpIs(s, s.gen.edi, d);
    BumpIs(s, s.gen.esi, d);
    FirstIndex(s, s.gen.esi);
    SameWay(s, t);
    assert d + d * m == d * (m + 1) && e + e * m == e * (m + 1);
    IndexOn(s, t, s.gen.ecx, t.gen.ecx, u.gen.ecx, -1, 0 - m);
    IndexOn(s, t, s.gen.edi, t.gen.edi, u.gen.edi, d, d * m);
    IndexOn(s, t, s.gen.esi, t.gen.esi, u.gen.esi, e, e * m);
    if m > 0 {
      PairsNext(s, op, m - 1);
      SubFlagsTwice(s.f, Left(s, op, 0), Right(s, 0), Left(s, op, m), Right(s, m));
    }
  }

  lemma SameWay(s: St, t: St)
    requires t.f.df == s.f.df
    ensures Direction(t) == Direction(s)
  {
  }

  /**
  Theorem: with `k` the first pair that stops the scan among the `n` counted by CX (k = n when none does), exactly
  the first min(k + 1, n) pairs are compared: CX ends at n - k - 1 or 0, the index registers have moved past the last
  pair compared and the flags are those of that pair. With CX = 0 nothing changes at all.
  */
  lemma {:induction false} ScanStopsFirst(s: St, op: ScanOp, n: nat, k: nat)
    requires n == Index(s, s.gen.ecx) && k <= n && (forall i: nat :: i < k ==> !Stops(s, op, i))
    requires k < n ==> Stops(s, op, k)
    requires Scannable(s, op, if k < n then k + 1 else n)
    ensures Scanned(s, op, if k < n then k + 1 else n, ScanRep(s, op, n))
    ensures n == 0 ==> ScanRep(s, op, n) == s
    decreases n
  {
    hide ScanStep, Compare, EvalCondition, StopCode, Stops, Scanned, Scannable, SubFlags, Left, Right, Index, SameData;
    if n == 0 {
      ScannedNone(s, op);
    } else {
      var t := ScanStep(s, op);
      var m := if k < n then k + 1 else n;
      ScannableNext(s, op, m);
      ScanNext(s, op);
      ScanStepKeeps(s, op);
      StopMeans(s, op);
      if k == 0 {
        ScannedNone(t, op);
        ScannedNext(s, op, 0, t);
      } else {
        assert !Stops(s, op, 0);
        forall i: nat | i < k - 1 ensures !Stops(t, op, i) {
          PairsNext(s, op, i);
        }
        PairsNext(s, op, k - 1);
        ScanStopsFirst(t, op, n - 1, k - 1);
        ScannedNext(s, op, m - 1, ScanRep(t, op, n - 1));
      }
    }
  }

  /** Theorem: with a repeat prefix the instruction is the repeated comparison, counted by CX; void when CX = 0. */
  lemma ScanRepeats(s: St, op: ScanOp, k: nat)
    requires var n := Index(s, s.gen.ecx); Rep(s) && k <= n && (k < n ==> Stops(s, op, k))
    requires forall i: nat :: i < k ==> !Stops(s, op, i)
    requires Scannable(s, op, if k < Index(s, s.gen.ecx) then k + 1 else k)
    ensures Scanned(s, op, if k < Index(s, s.gen.ecx) then k + 1 else k, Scan(s, op))
    ensures Index(s, s.gen.ecx) == 0 ==> Scan(s, op) == s
  {
    hide ScanRep, Stops, Scanned, Scannable, Index;
    ScanStopsFirst(s, op, Index(s, s.gen.ecx), k);
  }

  /** Theorem: without a repeat prefix one pair is compared, whatever the counter holds, and the counter stays. */
  lemma ScanOnce(s: St, op: ScanOp)
    requires !Rep(s) && Scannable(s, op, 1)
    ensures var t := Scan(s, op); var d := Direction(s);
      && t.f == SubFlags(s.f, 8, Left(s, op, 0), Right(s, 0), 0) && SameData(s.mem, t.mem)
      && Index(s, t.gen.edi) == (Index(s, s.gen.edi) + d) % AddrMod(s)
      && Index(s, t.gen.esi) == (if op == Cmps then (Index(s, s.gen.esi) + d) % AddrMod(s) else Index(s, s.gen.esi))
      && SameUpper(s, s.gen.edi, t.gen.edi) && SameUpper(s, s.gen.esi, t.gen.esi)
      && (op == Scas ==> t.gen.esi == s.gen.esi)
      && t == s.(gen := s.gen.(esi := t.gen.esi, edi := t.gen.edi), f := t.f, intr := t.intr, mem := t.mem)
  {
    hide Compare, Bump, Index, SubFlags, Left, Right, Data, CanRead, Src, Dst, SameLayout;
    var t := Compare(s, op);
    assert CanRead(s.mem, Dst(s, 0)) && (op == Cmps ==> CanRead(s.mem, Src(s, 0)));
    CompareLaw(s, op);
    CompareKeeps(s, op);
    SameBump(s, t);
    BumpIs(s, s.gen.edi, Direction(s));
    BumpIs(s, s.gen.esi, Direction(s));
    BumpUpper(s, s.gen.edi, Direction(s));
    BumpUpper(s, s.gen.esi, Direction(s));
  }
}
