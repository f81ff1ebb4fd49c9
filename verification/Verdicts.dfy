/** When the run loop reports "infinite loop", "no code" and "not executable", and that the first two end the run. */
module Verdicts {
  import opened Words
  import opened FlatMemory
  import opened MemoryLaws
  import opened Machine
  import opened Arithmetic
  import opened Stack
  import opened Frames
  import opened EnterLeave
  import opened Interrupts
  import opened Strings
  import opened Scans
  import opened RunLoop
  import opened EndlessLoop
  import opened Prefixes
  import opened Accesses
  import opened Instructions
  import opened Delivery

  // ---- what the verdicts say ----

  /** Where a jump whose displacement lies at EIP goes, before 16-bit operands cut it. */
  function Target(p: St, op: u8): u32 {
    var n := JumpBytes(p, op);
    var k: int := n;
    U32(p.eip + k + Displacement(n, Low(CodeValue(p.mem, CodeAt(p), n), n)))
  }

  lemma TargetIs(p: St, op: u8)
    requires IsJump(op)
    ensures Target(p, op) == U32(p.eip + JumpOffset(p, op))
  {
    hide CodeValue, JumpOffset;
    var n := JumpBytes(p, op);
    var k: int := n;
    var v := Low(CodeValue(p.mem, CodeAt(p), n), n);
    OffsetIs(p, op, v);
    SameDisplacement(n, v);
    Mod32(p.eip, Displacement(n, v) + k);
  }

  lemma SameDisplacement(n: Width, v: u32)
    requires v == Low(v, n)
    ensures SignedBytes(n, v) == Displacement(n, v)
  {
  }

  lemma NoOffset(x: u32, d: u32)
    ensures d == 0 <==> U32(x + d) == x
  {
  }

  /**
  Theorem: the verdict "infinite loop" names exactly the jumps that go to the start of their own instruction or to a
  one-byte flag instruction right before it; a jump to its own displacement is never one.
  */
  lemma LoopVerdictIsExact(p: St, op: u8)
    ensures LoopVerdict(p, op) <==>
      && IsJump(op) && Target(p, op) != p.eip
      && (Target(p, op) == p.savedEip
          || (p.savedEip >= 1 && Target(p, op) == p.savedEip - 1
              && FlagOp(Data(p.mem, U32(p.segs.cs.base + p.savedEip - 1)))))
  {
    hide JumpOffset, Target, Data;
    if IsJump(op) {
      TargetIs(p, op);
      NoOffset(p.eip, JumpOffset(p, op));
      OneOff(p.eip + JumpOffset(p, op), p.savedEip);
    } else {
      NoJump(p, op);
    }
  }

  lemma NoJump(p: St, op: u8)
    requires !IsJump(op)
    ensures JumpOffset(p, op) == 0
  {
    hide Data, Signed;
  }

  lemma OneOff(x: int, e: u32)
    requires 0 <= x
    ensures e >= 1 ==> (U32(x + 1) == e <==> U32(x) == e - 1)
  {
  }

  /** The jump does go there, when its bytes can be fetched and no 16-bit pointer wraps inside the instruction. */
  lemma JumpLandsOnTarget(p: St, op: u8)
    requires IsJump(op) && NoCross(p, JumpBytes(p, op)) && !Jump(p, JumpBytes(p, op)).mode.halted
    ensures Jump(p, JumpBytes(p, op)).eip == if p.mode.data32 then Target(p, op) else Target(p, op) % 0x1_0000
  {
    hide Jump, Target, JumpOffset, SameCode;
    TargetIs(p, op);
    JumpLaw(p, op);
  }

  /** What the run returns after an executed instruction, by the state at its opcode. */
  lemma Reports(s: St, t: St, flags: RunFlags, limit: u64, budget: nat, out: Outcome, rs: RunFlags)
    requires IterationOk(s, t, flags, limit, budget, out, rs) && out.Executed?
    ensures var p := FetchOpcode(Begin(s), budget).0; var op := out.turn.op;
      && FetchOpcode(Begin(s), budget).1 == Some(op)
      && (rs.loop <==> flags.loop && LoopVerdict(p, op))
      && (rs.noCode <==>
          && flags.noCode && op == 0 && Data(p.mem, U32(p.segs.cs.base + p.eip)) == 0
          && !p.mode.data32 && !p.mode.addr32 && !p.mode.stack32 && !p.mode.code32 && !p.mode.repe && !p.mode.repne)
      && !rs.maxInstr && !rs.noExec
  {
    hide FetchOpcode, LoopVerdict, Handled, Judged, HandleInterrupt, Data;
    var (p, op) := FetchOpcode(Begin(s), budget);
    LoopOp(p, op.value);
    FreshMode(s, budget);
    PlainIs(p.mode);
  }

  lemma PlainIs(m: Mode)
    ensures m == PlainMode() <==>
      !m.data32 && !m.addr32 && !m.stack32 && !m.code32 && !m.repe && !m.repne && !m.halted && !m.dsIsSs
  {
  }

  lemma FreshMode(s: St, budget: nat)
    ensures !FetchOpcode(Begin(s), budget).0.mode.dsIsSs
  {
    NoDsIsSs(Begin(s), budget);
  }

  lemma {:induction false} NoDsIsSs(s: St, budget: nat)
    requires !s.mode.dsIsSs
    ensures !FetchOpcode(s, budget).0.mode.dsIsSs
    decreases budget
  {
    hide FlatMemory.MemIo, U8, SetLo16, U16, IsPrefix;
    var (t, b) := FetchByte(s);
    if IsPrefix(b) && budget > 0 {
      NoDsIsSs(ApplyPrefix(t, b), budget - 1);
    }
  }

  /**
  Theorem: below the limit an iteration reports "not executable" exactly if one of the bytes up to the opcode may not
  be executed or was never initialised. Then nothing is executed: EIP is that of before, and memory has changed in
  marks only.
  */
  lemma NothingExecuted(s: St, t: St, flags: RunFlags, limit: u64, budget: nat, out: Outcome, rs: RunFlags, k: nat)
    requires IterationOk(s, t, flags, limit, budget, out, rs) && !out.LimitReached?
    requires k <= budget && !PrefixByte(CodeByte(Begin(s), k))
    requires forall j: nat :: j < k ==> PrefixByte(CodeByte(Begin(s), j))
    ensures out.NotExecutable? <==> exists j: nat :: j <= k && !Executable(Begin(s), j)
    ensures out.NotExecutable? <==> rs.noExec
    ensures out.NotExecutable? ==>
      && t == s.(mode := t.mode, override := t.override, savedEip := s.eip, savedCs := s.segs.cs.sel, mem := t.mem)
      && SameCode(s.mem, t.mem)
  {
    hide FetchOpcode, TurnOk, LoopVerdict, NoCodeVerdict, CodeByte, PrefixByte, Executable, SameCode, Codes, Times,
         LastSegment, IpAfter;
    PrefixesMean(s, budget, k);
    OpcodeLaw(Begin(s), budget);
    BeginIs(s);
  }

  // ---- a verdict ends the run ----

  /** What was halted still is. */
  predicate StaysHalted(s: St, t: St) { s.mode.halted ==> t.mode.halted }

  lemma MovedHalts(s: St, t: St)
    requires Moved(s, t)
    ensures t.mode == s.mode
  {
  }

  lemma PopMode(s: St, n: Width)
    ensures Pop(s, n).0.mode == s.mode
  {
    hide Pop, Moved, Sp, SpMod, Base;
    PopIs(s, n);
    MovedHalts(s, Pop(s, n).0);
  }

  lemma {:induction false} PopAMode(s: St, n: Width, k: nat)
    requires k <= 8
    ensures PopA(s, n, k).mode == s.mode
    decreases k
  {
    hide Pop, SetReg;
    if k > 0 {
      PopMode(s, n);
      PopAMode(PopReg(s, n, k - 1), n, k - 1);
    }
  }

  lemma {:induction false} ScanMode(s: St, op: ScanOp, n: nat)
    ensures ScanRep(s, op, n).mode == s.mode
    decreases n
  {
    hide ScanStep, Conditions.EvalCondition, StopCode, Bump, Compare, Index;
    if n > 0 {
      ScanStepKeeps(s, op);
      ScanMode(ScanStep(s, op), op, n - 1);
    }
  }

  lemma StringMode(s: St, op: ScanOp)
    ensures Movs(s).mode == s.mode && Scan(s, op).mode == s.mode
  {
    hide MovsRun, ScanRep, Compare, Bump, Index, SetLo16;
    MovsRegs(s);
    ScanMode(s, op, Index(s, s.gen.ecx));
    CompareKeeps(s, op);
  }

  lemma CodeHalts(s: St, n: Width)
    ensures StaysHalted(s, FetchCode(s, n).0)
  {
    hide FetchCode, SameCode, Value, NextIp, Faulty;
    FetchReads(s, n);
  }

  lemma FrameMode(s: St)
    ensures StaysHalted(s, Enter(s)) && Leave(s).mode == s.mode
  {
    hide FetchCode, EnterFrame, Pop, SetSp, Merge, Sp, SpMod, Bp, Base;
    var s1 := FetchCode(s, 2).0;
    var s2 := FetchCode(s1, 1).0;
    CodeHalts(s, 2);
    CodeHalts(s1, 1);
    var nesting := FetchCode(s1, 1).1;
    EnterMode(s2, U16(FetchCode(s, 2).1), nesting % 0x20);
    SetSpMoved(s, Bp(s));
    PopMode(SetSp(s, Bp(s)), OpBytes(s));
  }

  lemma EnterMode(s: St, local: u16, nesting: nat)
    ensures EnterFrame(s, local, nesting).mode == s.mode
  {
    hide EnterFrame, PushFrame, Push;
    EnterFrameIs(s, local, nesting);
  }

  lemma SetSegMode(s: St, r: SegReg, val: u16)
    ensures SetSeg(s, r, val).mode == s.mode
  {
    hide SetSeg, Loaded, Loadable, SameCode, Segs.Get;
    SegmentLoads(s, r, val);
  }

  lemma IretMode(s: St)
    ensures Iret(s).mode == s.mode
  {
    hide Pop, SetSeg, FlagsOf, Lo16;
    var n := OpBytes(s);
    var t1 := Pop(s, n).0;
    var t2 := Pop(t1, n).0;
    PopMode(s, n);
    PopMode(t1, n);
    PopMode(t2, n);
    SetSegMode(Pop(t2, n).0.(f := IretFlags(Pop(t2, n).1)), CS, Lo16(Pop(t1, n).1));
  }

  /** No handler takes back a halt. */
  lemma HandlersStayHalted(op: u8, s: St, t: St)
    requires Handled(op, s, t)
    ensures StaysHalted(s, t)
  {
    hide PushAll, Saves, PopA, Movs, Scan, Enter, Leave, Iret, FetchCode, SetFlag, Queued, Moved;
    PushAllMoved(s, Saves(s.gen, OpBytes(s), 8));
    MovedHalts(s, PushA(s));
    PopAMode(s, OpBytes(s), 8);
    StringMode(s, Cmps);
    StringMode(s, Scas);
    FrameMode(s);
    IretMode(s);
    CodeHalts(s, 1);
    CodeHalts(s, JumpBytes(s, op));
  }

  lemma PushMode(s: St, n: Width, v: u32)
    ensures Push(s, n, v).mode == s.mode
  {
    hide Push, Moved, Sp, SpMod, Base;
    PushIs(s, n, v);
    MovedHalts(s, Push(s, n, v));
  }

  lemma DeliveryMode(s: St)
    ensures HandleInterrupt(s).mode == s.mode
  {
    hide Push, IdtLookup, SetSeg, FlagsWord, Low, SameCode, Handler;
    if s.intr.pending.Raised? {
      var i := s.intr.pending;
      var cs := if i.restart then s.savedCs else s.segs.cs.sel;
      var eip := if i.restart then s.savedEip else s.eip;
      LookupReads(s, i.nr, cs, eip);
      var t := IdtLookup(s, i.nr, cs, eip).0;
      var n: Width := if t.sys.protected && t.mode.code32 then 4 else 2;
      var w := Low(FlagsWord(t.f), n);
      PushMode(t, n, w);
      PushMode(Push(t, n, w), n, cs);
      PushMode(Push(Push(t, n, w), n, cs), n, Low(eip, n));
      if i.errcode.Some? {
        PushMode(PushReturn(t, n, cs, eip), 4, i.errcode.value);
      }
      var (u, newCs, newEip) := IntFrame(s, i);
      SetSegMode(u.(f := u.f.(ifl := false, tf := false)), CS, newCs);
    }
  }

  /** Theorem: with the verdict "infinite loop" or "no code" the run ends after this instruction, whatever it is. */
  lemma VerdictsEndRuns(s: St, t: St, flags: RunFlags, limit: u64, budget: nat, out: Outcome, rs: RunFlags)
    requires IterationOk(s, t, flags, limit, budget, out, rs) && (rs.loop || rs.noCode)
    ensures out.Executed? && t.mode.halted
  {
    hide FetchOpcode, Handled, HandleInterrupt, LoopVerdict, NoCodeVerdict;
    HandlersStayHalted(out.turn.op, out.turn.ready, out.turn.handled);
    DeliveryMode(out.turn.handled);
  }
}
