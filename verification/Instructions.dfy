/** Operands, data accesses, jumps and int, in terms of the bytes in memory. */
module Instructions {
  import opened Words
  import opened FlatMemory
  import opened MemoryLaws
  import opened Machine
  import Arithmetic
  import opened Stack
  import opened Frames
  import opened EnterLeave
  import opened Interrupts
  import opened RunLoop
  import opened Accesses
  import opened Displays

  // ---- data accesses ----

  /** The line after an access: past the segment limit one more request, vector 13 with the selector as error code. */
  function Limited(s: St, seg: Seg, ofs: u32, n: Width): IntrLine {
    var k: int := n;
    if (ofs + k - 1) % 0x1_0000_0000 <= seg.limit then s.intr
    else IntrLine(if s.intr.pending.NoIntr? then Raised(13, true, true, Some(seg.sel)) else s.intr.pending,
                  s.intr.made + [Raised(13, true, true, Some(seg.sel))])
  }

  /** Theorem: a data read past the limit requests a fault, one within it does not, and either delivers the bytes. */
  lemma FetchChecks(s: St, seg: Seg, ofs: u32, n: Width)
    ensures var (t, v) := Fetch(s, seg, ofs, n);
      && t == s.(intr := Limited(s, seg, ofs, n), mem := t.mem) && SameCode(s.mem, t.mem)
      && v == Value(s.mem, U32(seg.base + ofs), n, KRead)
  {
    hide ReadN, Value, SameCode;
    var g := s.mem.(invalid := false);
    SameCodeSelf(s.mem);
    SameShown(s.mem, g, KRead);
    ReadShows(g, U32(seg.base + ofs), n);
    SameCodeTrans(s.mem, g, ReadN(g, U32(seg.base + ofs), n).0);
  }

  /** Theorem: a data write likewise; it stores the bytes, within the limit or past it. */
  lemma StoreChecks(s: St, seg: Seg, ofs: u32, n: Width, v: u32)
    requires Separate(s.mem)
    ensures var t := Store(s, seg, ofs, n, v); var a := U32(seg.base + ofs);
      && t == s.(intr := Limited(s, seg, ofs, n), mem := t.mem)
      && SameDataOutside(s.mem, t.mem, a, n) && (Writable(s.mem, a, n) ==> Holds(t.mem, a, n, v))
  {
    hide WriteN, Holds, Separate, SameLayout, Data, CanWrite, U32, Hit;
    var g, a := s.mem.(invalid := false), U32(seg.base + ofs);
    Quiet(s.mem);
    WriteLaw(g, a, n, v);
    if Writable(s.mem, a, n) {
      forall b: u32 | Hit(a, n, b) ensures CanWrite(g, b) {
        LayoutPerms(s.mem, g, b);
      }
    }
    StoreIs(s, seg, ofs, n, v);
  }

  lemma StoreIs(s: St, seg: Seg, ofs: u32, n: Width, v: u32)
    ensures Store(s, seg, ofs, n, v) ==
      s.(intr := Limited(s, seg, ofs, n), mem := WriteN(s.mem.(invalid := false), U32(seg.base + ofs), n, v))
  {
    hide WriteN;
  }

  // ---- operands in the code ----

  lemma SizesAgree(n: Width)
    ensures Count(SizeOf(n)) == n && SizeOf(n) != 3
  {
  }

  lemma LowOfValue(f: FlatMem, a: u32, n: Width)
    ensures Low(Value(f, a, n, KExec), n) == Value(f, a, n, KExec)
  {
    hide Shown;
  }

  /**
  Theorem: an operand is what the bytes at CS base + EIP show; EIP moves past it, and the machine halts if one of them
  may not be executed or was never initialised.
  */
  lemma FetchReads(s: St, n: Width)
    ensures var (t, v) := FetchCode(s, n); var a := U32(s.segs.cs.base + s.eip);
      && v == Value(s.mem, a, n, KExec) && SameCode(s.mem, t.mem)
      && t == s.(mem := t.mem, eip := NextIp(s, n), mode := s.mode.(halted := t.mode.halted))
      && (t.mode.halted <==> s.mode.halted || exists b: u32 :: Hit(a, n, b) && Faulty(s.mem, b, KExec))
  {
    hide FlatMemory.MemIo, Value, SameCode, NextIp, Hit, Faulty, Low;
    var a := U32(s.segs.cs.base + s.eip);
    SizesAgree(n);
    AccessReads(s.mem, a, 0, KExec, SizeOf(n));
    AccessFails(s.mem, a, 0, KExec, SizeOf(n));
    LowOfValue(s.mem, a, n);
  }

  /** Size of the locals and nesting level, as the three bytes after the opcode show them. */
  function EnterOperands(s: St): (u32, u32) {
    (Value(s.mem, U32(s.segs.cs.base + s.eip), 2, KExec), Value(s.mem, U32(s.segs.cs.base + NextIp(s, 2)), 1, KExec))
  }

  /** Theorem: where enter leaves the pointers and EIP, from the operands in the code; the level counts modulo 32. */
  lemma EnterRuns(s: St)
    ensures var t := Enter(s); var (local, nesting) := EnterOperands(s); var k: int := StackBytes(s);
      && Bp(t) == (Sp(s) - k) % SpMod(s)
      && Sp(t) == (Sp(s) - k - Bytes(OpBytes(s), nesting % 0x20) - local) % SpMod(s)
      && t.eip == NextIp(FetchCode(s, 2).0, 1) && t.segs == s.segs && t.f == s.f
  {
    hide FetchCode, EnterFrame, Value, NextIp, Sp, SpMod, Bp, SameCode, Faulty;
    var s1 := FetchCode(s, 2).0;
    var s2 := FetchCode(s1, 1).0;
    FetchReads(s, 2);
    FetchReads(s1, 1);
    SameShown(s.mem, s1.mem, KExec);
    var (local, nesting) := EnterOperands(s);
    SmallOperand(s, local);
    EnterMoves(s2, U16(local), nesting % 0x20);
    EnterKeeps(s2, U16(local), nesting % 0x20);
    SamePlaceAs(s, s2);
  }

  lemma SmallOperand(s: St, v: u32)
    requires v == Value(s.mem, U32(s.segs.cs.base + s.eip), 2, KExec)
    ensures U16(v) == v
  {
    hide Shown;
  }

  lemma EnterKeeps(s: St, local: u16, nesting: nat)
    ensures var t := EnterFrame(s, local, nesting); t.eip == s.eip && t.segs == s.segs && t.f == s.f
  {
    hide EnterFrame, PushFrame, Push;
    EnterFrameIs(s, local, nesting);
  }

  lemma SamePlaceAs(s: St, t: St)
    requires t.gen == s.gen && t.mode == s.mode.(halted := t.mode.halted)
    ensures Sp(t) == Sp(s) && SpMod(t) == SpMod(s) && OpBytes(t) == OpBytes(s) && StackBytes(t) == StackBytes(s)
  {
  }

  /** Theorem: int n requests interrupt n, a soft one that returns behind the instruction. */
  lemma IntRequests(s: St)
    ensures var t := IntImm(s); var nr := Value(s.mem, U32(s.segs.cs.base + s.eip), 1, KExec);
      && t.intr.made == s.intr.made + [Raised(nr, false, false, None)] && t.eip == NextIp(s, 1)
      && (s.intr.pending.NoIntr? ==> t.intr.pending == Raised(nr, false, false, None))
  {
    hide FetchCode, NextIp, SameCode, Faulty, Shown;
    FetchReads(s, 1);
  }

  // ---- jumps ----

  /** A displacement of `n` bytes as C's signed types read it; the 32-bit one wraps by itself. */
  function Displacement(n: Width, v: u32): int {
    if n == 1 && v >= 0x80 then v - 0x100 else if n == 2 && v >= 0x8000 then v - 0x1_0000 else v
  }

  /** Theorem: a jump goes from behind its displacement by that displacement; 16-bit operands cut the sum. */
  lemma JumpGoes(s: St, n: Width)
    ensures var t := Jump(s, n); var d := Displacement(n, Value(s.mem, U32(s.segs.cs.base + s.eip), n, KExec));
      && t.eip == (NextIp(s, n) + d) % (if s.mode.data32 then 0x1_0000_0000 else 0x1_0000)
      && t == s.(mem := t.mem, eip := t.eip, mode := s.mode.(halted := t.mode.halted)) && SameCode(s.mem, t.mem)
  {
    hide FetchCode, NextIp, Value, SameCode, Faulty;
    FetchReads(s, n);
    var v := Value(s.mem, U32(s.segs.cs.base + s.eip), n, KExec);
    DisplacementIs(s, n, v);
    CutSum(NextIp(s, n), Displacement(n, v));
  }

  lemma DisplacementIs(s: St, n: Width, v: u32)
    requires v == Value(s.mem, U32(s.segs.cs.base + s.eip), n, KExec)
    ensures Displacement(n, v) ==
      (if n == 1 then Arithmetic.Signed(8, v) else if n == 2 then Arithmetic.Signed(16, v) else v)
  {
    hide Value;
  }

  lemma CutSum(x: int, d: int)
    ensures U32(x + d) % 0x1_0000 == (x + d) % 0x1_0000 && U32(x + d) == (x + d) % 0x1_0000_0000
  {
    LowOfSum(0x1_0000_0000, x + d, 0);
  }
}
