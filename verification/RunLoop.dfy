/** x86emu_run: prefixes, stop conditions, dispatch and interrupt delivery, one iteration after the other (decode.c). */
module RunLoop {
  import opened Words
  import opened Bits
  import opened FlatMemory
  import opened MemoryLaws
  import opened PagedMemory
  import opened Machine
  import opened Arithmetic
  import opened Stack
  import opened Frames
  import opened EnterLeave
  import opened Interrupts
  import opened Strings
  import opened Scans

  /** The X86EMU_RUN_* flags: as options, and as the reasons why the run ended. */
  datatype RunFlags = RunFlags(maxInstr: bool, noExec: bool, loop: bool, noCode: bool)

  // ---- the start of an iteration ----

  function DefaultSize32(seg: Seg): bool { seg.acc / 0x400 % 2 == 1 }

  /** Mode from the CS and SS attributes, no override, and the restart point. */
  function Begin(s: St): St {
    var d := DefaultSize32(s.segs.cs);
    s.(mode := PlainMode().(data32 := d, addr32 := d, code32 := d, stack32 := DefaultSize32(s.segs.ss)),
    override := None, savedCs := s.segs.cs.sel, savedEip := s.eip)
  }

  predicate IsPrefix(b: u8) {
    b == 0x26 || b == 0x2e || b == 0x36 || b == 0x3e || b == 0x64 || b == 0x65 || b == 0x66 || b == 0x67 || b == 0xf0
    || b == 0xf2 || b == 0xf3
  }

  function PrefixOverride(b: u8, override: Option<SegReg>): Option<SegReg> {
    if b == 0x26 then Some(ES) else if b == 0x2e then Some(CS) else if b == 0x36 then Some(SS)
    else if b == 0x3e then Some(DS) else if b == 0x64 then Some(FS) else if b == 0x65 then Some(GS) else override
  }

  function PrefixMode(b: u8, mode: Mode): Mode {
    mode.(data32 := mode.data32 != (b == 0x66), addr32 := mode.addr32 != (b == 0x67),
          repne := mode.repne || b == 0xf2, repe := mode.repe || b == 0xf3)
  }

  function ApplyPrefix(s: St, b: u8): St {
    s.(override := PrefixOverride(b, s.override), mode := PrefixMode(b, s.mode))
  }

  function FetchByte(s: St): (St, u8) {
    var (t, v) := FetchCode(s, 1);
    (t, U8(v))
  }

  /** The prefix loop, given up after `budget` prefixes. */
  function FetchOpcode(s: St, budget: nat): (St, Option<u8>)
    decreases budget
  {
    var (t, b) := FetchByte(s);
    if !IsPrefix(b) then (t, Some(b))
    else if budget == 0 then (ApplyPrefix(t, b), None)
    else FetchOpcode(ApplyPrefix(t, b), budget - 1)
  }

  lemma SizePrefix(b: u8, m: Mode)
    ensures PrefixMode(b, m) ==
      if b == 0x66 then m.(data32 := !m.data32) else if b == 0x67 then m.(addr32 := !m.addr32)
      else if b == 0xf2 then m.(repne := true) else if b == 0xf3 then m.(repe := true) else m
  {
    var n := PrefixMode(b, m);
    assert n == Mode(n.data32, n.addr32, n.stack32, n.code32, n.repe, n.repne, n.halted, n.dsIsSs);
  }

  lemma SegmentPrefix(b: u8, o: Option<SegReg>)
    requires IsPrefix(b)
    ensures PrefixOverride(b, o) ==
      if b == 0x66 || b == 0x67 || b == 0xf0 || b == 0xf2 || b == 0xf3 then o
      else Some(if b == 0x26 then ES else if b == 0x2e then CS else if b == 0x36 then SS else if b == 0x3e then DS
                else if b == 0x64 then FS else GS)
  {
  }

  method ApplyPrefixN(emu: Emu, b: u8)
    requires emu.Valid() && IsPrefix(b)
    modifies emu`mode, emu`override
    ensures emu.Valid() && emu.State() == ApplyPrefix(old(emu.State()), b)
  {
    hide Mem.Valid, PrefixMode, PrefixOverride, IsPrefix;
    SizePrefix(b, emu.mode);
    SegmentPrefix(b, emu.override);
    if b == 0x66 {
      emu.mode := emu.mode.(data32 := !emu.mode.data32);
    } else if b == 0x67 {
      emu.mode := emu.mode.(addr32 := !emu.mode.addr32);
    } else if b == 0xf2 {
      emu.mode := emu.mode.(repne := true);
    } else if b == 0xf3 {
      emu.mode := emu.mode.(repe := true);
    } else if b != 0xf0 {
      emu.override := Some(
        if b == 0x26 then ES else if b == 0x2e then CS else if b == 0x36 then SS else if b == 0x3e then DS
        else if b == 0x64 then FS else GS);
    }
  }

  method FetchOpcodeN(emu: Emu, budget: nat) returns (op: Option<u8>)
    requires emu.Valid()
    modifies emu`mode, emu`override, emu`eip, emu.mem, emu.mem.Repr(), emu.mem.host
    ensures emu.Valid() && fresh(emu.mem.Repr() - old(emu.mem.Repr()))
    ensures (emu.State(), op) == FetchOpcode(old(emu.State()), budget)
  {
    hide Mem.Valid, FetchCode, ApplyPrefix, IsPrefix, U8;
    var n := budget;
    while true
      invariant 0 <= n <= budget && emu.Valid() && fresh(emu.mem.Repr() - old(emu.mem.Repr()))
      invariant FetchOpcode(emu.State(), n) == FetchOpcode(old(emu.State()), budget)
      decreases n
    {
      var v := emu.FetchImm(1);
      var b := U8(v);
      if !IsPrefix(b) {
        return Some(b);
      }
      ApplyPrefixN(emu, b);
      if n == 0 {
        return None;
      }
      n := n - 1;
    }
  }

  // ---- endless loops and missing code ----

  /** Distance from the displacement to the target of a short or near jump, modulo 2^32; 0 for other opcodes. */
  function JumpOffset(s: St, op: u8): u32 {
    var u := U32(s.segs.cs.base + s.eip);
    var b0, b1 := Data(s.mem, u), Data(s.mem, U32(u + 1));
    if op == 0xeb then U32(Signed(8, b0) + 1)
    else if op == 0xe9 && s.mode.data32 then
      U32(Dword(Word(b0, b1), Word(Data(s.mem, U32(u + 2)), Data(s.mem, U32(u + 3)))) + 4)
    else if op == 0xe9 then U32(Signed(16, Word(b0, b1)) + 2)
    else 0
  }

  predicate FlagOp(b: u8) { 0xf8 <= b <= 0xfd }

  /** The jump goes to its own start, or to a one-byte flag instruction right before it. */
  predicate LoopVerdict(s: St, op: u8) {
    var d := JumpOffset(s, op);
    && d != 0
    && (U32(s.eip + d) == s.savedEip
        || (U32(s.eip + 1 + d) == s.savedEip && s.savedEip >= 1
            && FlagOp(Data(s.mem, U32(s.segs.cs.base + s.savedEip - 1)))))
  }

  predicate NoCodeVerdict(s: St, op: u8) {
    s.mode == PlainMode() && op == 0 && Data(s.mem, U32(s.segs.cs.base + s.eip)) == 0
  }

  /** A verdict halts the run after this instruction. */
  function Verdict(s: St, op: u8, flags: RunFlags): RunFlags {
    var loop := flags.loop && LoopVerdict(s, op);
    RunFlags(false, false, loop, !loop && flags.noCode && NoCodeVerdict(s, op))
  }

  lemma RawReadIs(f: FlatMem, a: u32)
    requires !f.invalid
    ensures MemIo(f, a, 0, KRead, 3) == (f, Data(f, a), false)
  {
    hide Has, Join;
    PutAttrSame(f, a);
    assert f.(invalid := false) == f;
  }

  /** x86emu_read_byte_noperm, when the last access did not fail */
  method ReadRaw(emu: Emu, a: u32) returns (b: u8)
    requires emu.Valid() && !emu.State().mem.invalid
    modifies emu.mem, emu.mem.Repr(), emu.mem.host
    ensures emu.Valid() && fresh(emu.mem.Repr() - old(emu.mem.Repr()))
    ensures emu.State() == old(emu.State()) && b == Data(emu.State().mem, a)
  {
    hide Mem.Valid, FlatMemory.MemIo, Data;
    RawReadIs(emu.State().mem, a);
    var v, e := emu.DecodeMemio(a, 0, KRead, 3);
    b := v;
  }

  lemma {:induction false} FetchedQuiet(s: St, budget: nat)
    ensures var t := FetchOpcode(s, budget).0; t.mode.halted || !t.mem.invalid
    decreases budget
  {
    hide XByte;
    var (t, b) := FetchByte(s);
    if IsPrefix(b) && budget > 0 {
      FetchedQuiet(ApplyPrefix(t, b), budget - 1);
    }
  }

  method JumpOffsetN(emu: Emu, op: u8) returns (d: u32)
    requires emu.Valid() && !emu.State().mem.invalid
    modifies emu.mem, emu.mem.Repr(), emu.mem.host
    ensures emu.Valid() && fresh(emu.mem.Repr() - old(emu.mem.Repr()))
    ensures emu.State() == old(emu.State()) && d == JumpOffset(emu.State(), op)
  {
    hide Mem.Valid, Signed, Data, U32, Word, Dword;
    var u: int := U32(emu.segs.cs.base + emu.eip);
    d := 0;
    if op == 0xeb {
      var b := ReadRaw(emu, u);
      d := U32(Signed(8, b) + 1);
    } else if op == 0xe9 {
      var b0 := ReadRaw(emu, u);
      var b1 := ReadRaw(emu, U32(u + 1));
      if emu.mode.data32 {
        var b2 := ReadRaw(emu, U32(u + 2));
        var b3 := ReadRaw(emu, U32(u + 3));
        d := U32(Dword(Word(b0, b1), Word(b2, b3)) + 4);
      } else {
        d := U32(Signed(16, Word(b0, b1)) + 2);
      }
    }
  }

  method LoopVerdictN(emu: Emu, op: u8) returns (loop: bool)
    requires emu.Valid() && !emu.State().mem.invalid
    modifies emu.mem, emu.mem.Repr(), emu.mem.host
    ensures emu.Valid() && fresh(emu.mem.Repr() - old(emu.mem.Repr()))
    ensures emu.State() == old(emu.State()) && loop == LoopVerdict(emu.State(), op)
  {
    hide Mem.Valid, JumpOffset, Data, U32;
    loop := false;
    var d := JumpOffsetN(emu, op);
    if d != 0 {
      if U32(emu.eip + d) == emu.savedEip {
        loop := true;
      } else if U32(emu.eip + 1 + d) == emu.savedEip && emu.savedEip >= 1 {
        var b := ReadRaw(emu, U32(emu.segs.cs.base + emu.savedEip - 1));
        loop := FlagOp(b);
      }
    }
  }

  method NoCodeVerdictN(emu: Emu, op: u8) returns (noCode: bool)
    requires emu.Valid() && !emu.State().mem.invalid
    modifies emu.mem, emu.mem.Repr(), emu.mem.host
    ensures emu.Valid() && fresh(emu.mem.Repr() - old(emu.mem.Repr()))
    ensures emu.State() == old(emu.State()) && noCode == NoCodeVerdict(emu.State(), op)
  {
    hide Mem.Valid, Data, U32;
    noCode := false;
    if emu.mode == PlainMode() && op == 0 {
      var b := ReadRaw(emu, U32(emu.segs.cs.base + emu.eip));
      noCode := b == 0;
    }
  }

  method VerdictN(emu: Emu, op: u8, flags: RunFlags) returns (rs: RunFlags)
    requires emu.Valid() && !emu.State().mem.invalid
    modifies emu`mode, emu.mem, emu.mem.Repr(), emu.mem.host
    ensures emu.Valid() && fresh(emu.mem.Repr() - old(emu.mem.Repr()))
    ensures var s := old(emu.State()); rs == Verdict(s, op, flags) && emu.State() == Judged(s, rs)
  {
    hide Mem.Valid, LoopVerdict, NoCodeVerdict;
    rs := RunFlags(false, false, false, false);
    if flags.loop {
      var loop := LoopVerdictN(emu, op);
      rs := rs.(loop := loop);
    }
    LoopOp(emu.State(), op);
    if flags.noCode {
      var noCode := NoCodeVerdictN(emu, op);
      rs := rs.(noCode := noCode);
    }
    if rs.loop || rs.noCode {
      emu.mode := emu.mode.(halted := true);
    }
  }

  /** x86emu_stop after a verdict */
  function Judged(s: St, rs: RunFlags): St {
    s.(mode := s.mode.(halted := s.mode.halted || rs.loop || rs.noCode))
  }

  lemma LoopOp(s: St, op: u8)
    ensures LoopVerdict(s, op) ==> !NoCodeVerdict(s, op)
  {
    hide Data, Signed;
  }

  // ---- handlers ----

  /** Jump by a signed displacement of `n` bytes; 16-bit operands cut the target to 16 bits. */
  function Jump(s: St, n: Width): St {
    var (t, v) := FetchCode(s, n);
    var target := U32(t.eip + (if n == 1 then Signed(8, v) else if n == 2 then Signed(16, v) else v));
    t.(eip := if s.mode.data32 then target else target % 0x1_0000)
  }

  function JumpBytes(s: St, op: u8): Width { if op == 0xeb then 1 else if s.mode.data32 then 4 else 2 }

  function SetFlag(f: Flags, op: u8): Flags {
    f.(cf := if op == 0xf8 || op == 0xf9 then op == 0xf9 else f.cf,
       ifl := if op == 0xfa || op == 0xfb then op == 0xfb else f.ifl,
       df := if op == 0xfc || op == 0xfd then op == 0xfd else f.df)
  }

  /** clc and stc, cli and sti, cld and std: each clears or sets its flag and leaves the others. */
  lemma CarryInstructions(f: Flags, on: bool)
    ensures SetFlag(f, if on then 0xf9 else 0xf8) == f.(cf := on)
  {
  }

  lemma InterruptInstructions(f: Flags, on: bool)
    ensures SetFlag(f, if on then 0xfb else 0xfa) == f.(ifl := on)
  {
  }

  lemma DirectionInstructions(f: Flags, on: bool)
    ensures SetFlag(f, if on then 0xfd else 0xfc) == f.(df := on)
  {
  }

  /**
  What a handler outside this model may do: anything but touch the time stamp, the restart point or an interrupt
  already requested, or take back a halt.
  */
  predicate Tame(s: St, t: St) {
    && t.tsc == s.tsc && t.savedEip == s.savedEip && t.savedCs == s.savedCs && Queued(s.intr, t.intr)
    && (s.mode.halted ==> t.mode.halted)
  }

  /** The dispatch table; no handler of this model writes the time stamp. */
  predicate Handled(op: u8, s: St, t: St) {
    t.tsc == s.tsc &&
    if op == 0x60 then t == PushA(s)
    else if op == 0x61 then t == PopA(s, OpBytes(s), 8)
    else if op == 0xa4 then t == Movs(s)
    else if op == 0xa6 then t == Scan(s, Cmps)
    else if op == 0xae then t == Scan(s, Scas)
    else if op == 0xc8 then t == Enter(s)
    else if op == 0xc9 then t == Leave(s)
    else if op == 0xcd then t == IntImm(s)
    else if op == 0xcf then t == Iret(s)
    else if op == 0xe9 || op == 0xeb then t == Jump(s, JumpBytes(s, op))
    else if FlagOp(op) then t == s.(f := SetFlag(s.f, op))
    else Tame(s, t)
  }

  method JumpN(emu: Emu, n: Width)
    requires emu.Valid()
    modifies emu`mode, emu`eip, emu.mem, emu.mem.Repr(), emu.mem.host
    ensures emu.Valid() && fresh(emu.mem.Repr() - old(emu.mem.Repr()))
    ensures emu.State() == Jump(old(emu.State()), n)
  {
    hide Mem.Valid, FetchCode, Signed, U32;
    var wide := emu.mode.data32;
    var v := emu.FetchImm(n);
    var target := U32(emu.eip + (if n == 1 then Signed(8, v) else if n == 2 then Signed(16, v) else v));
    emu.eip := if wide then target else target % 0x1_0000;
  }

  /** Any registers. */
  method AnyRegisters(emu: Emu)
    requires emu.Valid()
    modifies emu`gen, emu`eip, emu`f, emu`segs, emu`sys, emu`mode, emu`override
    ensures emu.Valid() && (old(emu.mode.halted) ==> emu.mode.halted)
  {
    hide Mem.Valid;
    var mode: Mode := *;
    emu.mode := mode.(halted := emu.mode.halted || mode.halted);
    emu.gen, emu.eip, emu.f, emu.segs, emu.sys, emu.override := *, *, *, *, *, *;
  }

  /** Any access, any registers, perhaps a request. */
  method AnyAction(emu: Emu)
    requires emu.Valid()
    modifies emu`gen, emu`eip, emu`f, emu`segs, emu`sys, emu`mode, emu`override, emu`intr, emu`made, emu.mem,
             emu.mem.Repr(), emu.mem.host
    ensures emu.Valid() && fresh(emu.mem.Repr() - old(emu.mem.Repr()))
    ensures Tame(old(emu.State()), emu.State())
  {
    hide Mem.Valid, FlatMemory.MemIo, Queued, Raise;
    ghost var l := emu.Line();
    RaiseQueues(l, Raised(0, false, false, None));
    var a, v: u32, kind: Kind, size: Size := *, *, *, *;
    var v', e := emu.DecodeMemio(a, v, kind, size);
    AnyRegisters(emu);
    if * {
      var nr: u8, fault: bool, restart: bool, err: Option<u32> := *, *, *, *;
      RaiseQueues(l, Raised(nr, fault, restart, err));
      emu.IntrRaise(Raised(nr, fault, restart, err));
    }
  }

  /** A handler this model does not spell out. */
  method Unmodelled(emu: Emu)
    requires emu.Valid()
    modifies emu`gen, emu`eip, emu`f, emu`segs, emu`sys, emu`mode, emu`override, emu`intr, emu`made, emu.mem,
             emu.mem.Repr(), emu.mem.host
    ensures emu.Valid() && fresh(emu.mem.Repr() - old(emu.mem.Repr()))
    ensures Tame(old(emu.State()), emu.State())
  {
    hide Mem.Valid, Emu.Valid, Queued;
    ghost var s := emu.State();
    RaiseQueues(s.intr, Raised(0, false, false, None));
    var n: nat := *;
    while n > 0
      invariant emu.Valid() && fresh(emu.mem.Repr() - old(emu.mem.Repr()))
      invariant Tame(s, emu.State())
    {
      ghost var t := emu.State();
      AnyAction(emu);
      QueuedTrans(s.intr, t.intr, emu.State().intr);
      n := n - 1;
    }
  }

  method Execute(emu: Emu, op: u8)
    requires emu.Valid()
    modifies emu`gen, emu`eip, emu`f, emu`segs, emu`sys, emu`mode, emu`override, emu`intr, emu`made, emu.mem,
             emu.mem.Repr(), emu.mem.host
    ensures emu.Valid() && fresh(emu.mem.Repr() - old(emu.mem.Repr()))
    ensures Handled(op, old(emu.State()), emu.State())
  {
    hide Mem.Valid, PushA, PopA, Movs, Scan, Enter, Leave, IntImm, Iret, Jump, Tame;
    if op == 0x60 {
      PushAllRegs(emu);
    } else if op == 0x61 {
      PopAllRegs(emu);
    } else if op == 0xa4 {
      MovsByte(emu);
    } else if op == 0xa6 {
      ScanByte(emu, Cmps);
    } else if op == 0xae {
      ScanByte(emu, Scas);
    } else if op == 0xc8 {
      EnterN(emu);
    } else if op == 0xc9 {
      LeaveN(emu);
    } else if op == 0xcd {
      IntImmN(emu);
    } else if op == 0xcf {
      IretN(emu);
    } else if op == 0xe9 || op == 0xeb {
      JumpN(emu, if op == 0xeb then 1 else if emu.mode.data32 then 4 else 2);
    } else if FlagOp(op) {
      emu.f := SetFlag(emu.f, op);
    } else {
      Unmodelled(emu);
    }
  }

  // ---- one iteration ----

  /** One executed instruction: the state before, at dispatch, after the handler, and after delivery. */
  datatype Turn = Turn(before: St, op: u8, ready: St, handled: St, after: St)

  function Tick(s: St): St { s.(tsc := (s.tsc + 1) % 0x1_0000_0000_0000_0000) }

  predicate TurnOk(t: Turn, flags: RunFlags, budget: nat) {
    var (p, op) := FetchOpcode(Begin(t.before), budget);
    && op == Some(t.op) && !p.mode.halted
    && t.ready == Judged(p, Verdict(p, t.op, flags))
    && Handled(t.op, t.ready, t.handled)
    && t.after == Tick(HandleInterrupt(t.handled))
  }

  /** How an iteration ends: an executed instruction, or one of the ways out before that. */
  datatype Outcome = Executed(turn: Turn) | LimitReached | NotExecutable | Hung

  predicate OverLimit(s: St, flags: RunFlags, limit: u64) { flags.maxInstr && limit > 0 && s.tsc >= limit }

  predicate IterationOk(s: St, t: St, flags: RunFlags, limit: u64, budget: nat, out: Outcome, rs: RunFlags) {
    var (p, op) := FetchOpcode(Begin(s), budget);
    if OverLimit(s, flags, limit) then out == LimitReached && t == Begin(s) && rs == RunFlags(true, false, false, false)
    else if op.None? then out == Hung && t == p && rs == RunFlags(false, false, false, false)
    else if p.mode.halted then
      out == NotExecutable && t == p.(eip := p.savedEip) && rs == RunFlags(false, true, false, false)
    else
      && out.Executed? && out.turn.before == s && out.turn.after == t && TurnOk(out.turn, flags, budget)
      && rs == Verdict(p, op.value, flags)
  }

  method StartN(emu: Emu)
    requires emu.Valid()
    modifies emu`mode, emu`override, emu`savedEip, emu`savedCs
    ensures emu.Valid() && emu.State() == Begin(old(emu.State()))
  {
    hide Mem.Valid;
    var d := DefaultSize32(emu.segs.cs);
    emu.mode := PlainMode().(data32 := d, addr32 := d, code32 := d, stack32 := DefaultSize32(emu.segs.ss));
    emu.override := None;
    emu.savedCs, emu.savedEip := emu.segs.cs.sel, emu.eip;
  }

  /** From a fetched opcode to the end of the iteration. */
  method FinishN(emu: Emu, op: u8, flags: RunFlags) returns (rs: RunFlags, ghost ready: St, ghost handled: St)
    requires emu.Valid() && !emu.State().mem.invalid
    modifies emu`gen, emu`eip, emu`f, emu`segs, emu`sys, emu`mode, emu`override, emu`intr, emu`made, emu`tsc,
             emu.mem, emu.mem.Repr(), emu.mem.host
    ensures emu.Valid() && fresh(emu.mem.Repr() - old(emu.mem.Repr()))
    ensures var p := old(emu.State());
      && rs == Verdict(p, op, flags) && ready == Judged(p, rs) && Handled(op, ready, handled)
      && emu.State() == Tick(HandleInterrupt(handled))
  {
    hide Mem.Valid, Emu.Valid, Verdict, Judged, Handled, HandleInterrupt;
    rs := VerdictN(emu, op, flags);
    ready := emu.State();
    Execute(emu, op);
    handled := emu.State();
    HandleInterruptN(emu);
    TickN(emu);
  }

  method TickN(emu: Emu)
    requires emu.Valid()
    modifies emu`tsc
    ensures emu.Valid() && emu.State() == Tick(old(emu.State()))
  {
    hide Mem.Valid;
    emu.tsc := (emu.tsc + 1) % 0x1_0000_0000_0000_0000;
  }

  method Iterate(emu: Emu, flags: RunFlags, limit: u64, budget: nat)
    returns (rs: RunFlags, stop: bool, ghost out: Outcome)
    requires emu.Valid()
    modifies emu`gen, emu`eip, emu`f, emu`segs, emu`sys, emu`mode, emu`override, emu`savedEip, emu`savedCs, emu`intr,
             emu`made, emu`tsc, emu.mem, emu.mem.Repr(), emu.mem.host
    ensures emu.Valid() && fresh(emu.mem.Repr() - old(emu.mem.Repr()))
    ensures IterationOk(old(emu.State()), emu.State(), flags, limit, budget, out, rs)
    ensures stop == (!out.Executed? || emu.mode.halted)
  {
    hide Mem.Valid, Begin, FetchOpcode, Verdict, Judged, Handled, HandleInterrupt, Tick;
    ghost var s := emu.State();
    rs, stop := RunFlags(false, false, false, false), true;
    StartN(emu);
    if flags.maxInstr && limit > 0 && emu.tsc >= limit {
      rs, out := RunFlags(true, false, false, false), LimitReached;
      return;
    }
    FetchedQuiet(emu.State(), budget);
    var op := FetchOpcodeN(emu, budget);
    if op.None? {
      out := Hung;
      return;
    }
    if emu.mode.halted {
      emu.eip := emu.savedEip;
      rs, out := RunFlags(false, true, false, false), NotExecutable;
      return;
    }
    ghost var ready, handled;
    rs, ready, handled := FinishN(emu, op.value, flags);
    out := Executed(Turn(s, op.value, ready, handled, emu.State()));
    stop := emu.mode.halted;
  }

  // ---- whole runs ----

  /** The executed instructions of a run from `s` to `t`, in order; only the last may halt. */
  ghost predicate Chain(s: St, turns: seq<Turn>, t: St, flags: RunFlags, limit: u64, budget: nat) {
    && (if |turns| == 0 then t == s else turns[0].before == s && turns[|turns| - 1].after == t)
    && (forall i :: 0 <= i < |turns| ==> TurnOk(turns[i], flags, budget) && !OverLimit(turns[i].before, flags, limit))
    && (forall i, j :: 0 <= i < |turns| && j == i + 1 < |turns| ==> Links(turns[i], turns[j]))
  }

  /** `b` is the turn after `a`. */
  ghost predicate Links(a: Turn, b: Turn) { a.after == b.before && !a.after.mode.halted }

  lemma ChainGrows(s: St, turns: seq<Turn>, t: St, flags: RunFlags, limit: u64, budget: nat, turn: Turn)
    requires Chain(s, turns, t, flags, limit, budget) && (turns != [] ==> !t.mode.halted)
    requires turn.before == t && TurnOk(turn, flags, budget) && !OverLimit(t, flags, limit)
    ensures Chain(s, turns + [turn], turn.after, flags, limit, budget)
  {
    hide TurnOk, OverLimit;
  }

  lemma ChainStarts(s: St, flags: RunFlags, limit: u64, budget: nat)
    ensures Chain(s, [], s, flags, limit, budget)
  {
  }

  /**
  How a run of `count` instructions ended, with the stamp going from `tsc` to `last`: at the instruction limit exactly
  when the stamp has reached it, and not before; at once when it had passed it already.
  */
  predicate AtLimit(tsc: u64, limit: u64, count: nat, last: u64, out: Outcome, rs: RunFlags) {
    && (out.LimitReached? <==> rs.maxInstr)
    && (tsc <= limit ==> if out.LimitReached? then last == limit && count == limit - tsc else last < limit)
    && (tsc > limit ==> out.LimitReached? && count == 0)
  }

  /** x86emu_run with an instruction limit: it terminates, with measure limit - TSC. */
  method Run(emu: Emu, flags: RunFlags, limit: u64, budget: nat)
    returns (rs: RunFlags, ghost turns: seq<Turn>, ghost last: St, ghost out: Outcome)
    requires emu.Valid() && flags.maxInstr && limit > 0
    modifies emu`gen, emu`eip, emu`f, emu`segs, emu`sys, emu`mode, emu`override, emu`savedEip, emu`savedCs, emu`intr,
             emu`made, emu`tsc, emu.mem, emu.mem.Repr(), emu.mem.host
    ensures emu.Valid() && fresh(emu.mem.Repr() - old(emu.mem.Repr()))
    ensures Chain(old(emu.State()), turns, last, flags, limit, budget) && (turns != [] ==> !last.mode.halted)
    ensures IterationOk(last, emu.State(), flags, limit, budget, out, rs)
    ensures out.Executed? ==> emu.mode.halted
    ensures AtLimit(old(emu.tsc), limit, |turns|, last.tsc, out, rs)
  {
    hide Mem.Valid, Emu.Valid, TurnOk, FetchOpcode, Begin, Verdict, Chain, AtLimit, IterationOk;
    ghost var s := emu.State();
    ChainStarts(s, flags, limit, budget);
    turns, last := [], s;
    while true
      invariant emu.Valid() && fresh(emu.mem.Repr() - old(emu.mem.Repr()))
      invariant last == emu.State() && Chain(s, turns, last, flags, limit, budget)
      invariant turns != [] ==> !last.mode.halted
      decreases if emu.tsc < limit then limit - emu.tsc else 0
    {
      var stop;
      rs, stop, out := Iterate(emu, flags, limit, budget);
      if stop {
        RunsToLimit(s, turns, last, emu.State(), flags, limit, budget, out, rs);
        return;
      }
      IterationTurn(last, emu.State(), flags, limit, budget, out, rs);
      TurnTicks(out.turn, flags, budget);
      ChainGrows(s, turns, last, flags, limit, budget, out.turn);
      turns, last := turns + [out.turn], emu.State();
    }
  }

  /**
  The first iterations of x86emu_run, at most `most` of them: with any flags, and with or without an instruction limit.
  Without `ended` the run goes on from the present state.
  */
  method RunFirst(emu: Emu, flags: RunFlags, limit: u64, budget: nat, most: nat)
    returns (rs: RunFlags, ended: bool, ghost turns: seq<Turn>, ghost last: St, ghost out: Outcome)
    requires emu.Valid()
    modifies emu`gen, emu`eip, emu`f, emu`segs, emu`sys, emu`mode, emu`override, emu`savedEip, emu`savedCs, emu`intr,
             emu`made, emu`tsc, emu.mem, emu.mem.Repr(), emu.mem.host
    ensures emu.Valid() && fresh(emu.mem.Repr() - old(emu.mem.Repr()))
    ensures Chain(old(emu.State()), turns, last, flags, limit, budget) && (turns != [] ==> !last.mode.halted)
    ensures ended ==> |turns| < most && IterationOk(last, emu.State(), flags, limit, budget, out, rs)
    ensures ended ==> !out.Executed? || emu.mode.halted
    ensures ended && flags.maxInstr && limit > 0 ==> AtLimit(old(emu.tsc), limit, |turns|, last.tsc, out, rs)
    ensures ended && !(flags.maxInstr && limit > 0) ==> !out.LimitReached? && !rs.maxInstr
    ensures !ended ==> |turns| == most && last == emu.State()
  {
    hide Mem.Valid, Emu.Valid, TurnOk, FetchOpcode, Begin, Verdict, Chain, AtLimit, IterationOk;
    ghost var s := emu.State();
    ChainStarts(s, flags, limit, budget);
    rs, ended, out := RunFlags(false, false, false, false), false, Hung;
    turns, last := [], s;
    for n := 0 to most
      invariant emu.Valid() && fresh(emu.mem.Repr() - old(emu.mem.Repr())) && !ended
      invariant last == emu.State() && Chain(s, turns, last, flags, limit, budget)
      invariant |turns| == n && (turns != [] ==> !last.mode.halted)
    {
      rs, ended, out := Iterate(emu, flags, limit, budget);
      if ended {
        NoLimit(last, emu.State(), flags, limit, budget, out, rs);
        if flags.maxInstr && limit > 0 {
          RunsToLimit(s, turns, last, emu.State(), flags, limit, budget, out, rs);
        }
        return;
      }
      IterationTurn(last, emu.State(), flags, limit, budget, out, rs);
      ChainGrows(s, turns, last, flags, limit, budget, out.turn);
      turns, last := turns + [out.turn], emu.State();
    }
  }

  lemma StoreTsc(s: St, seg: Seg, ofs: u32, n: Width, v: u32)
    ensures Store(s, seg, ofs, n, v).tsc == s.tsc
  {
    hide WriteN;
  }

  lemma DeliveryKeepsTsc(s: St)
    ensures HandleInterrupt(s).tsc == s.tsc && HandleInterrupt(s).intr.pending.NoIntr?
  {
    hide Push, ReadDescr, FlatMemory.MemIo, Decode, FlagsWord, Moved;
    if s.intr.pending.Raised? {
      var i := s.intr.pending;
      var cs := if i.restart then s.savedCs else s.segs.cs.sel;
      var eip := if i.restart then s.savedEip else s.eip;
      LookupTsc(s, i.nr, cs, eip);
      var t := IdtLookup(s, i.nr, cs, eip).0;
      var n: Width := if t.sys.protected && t.mode.code32 then 4 else 2;
      PushTsc(t, n, Low(FlagsWord(t.f), n));
      var t1 := Push(t, n, Low(FlagsWord(t.f), n));
      PushTsc(t1, n, cs);
      var t2 := Push(t1, n, cs);
      PushTsc(t2, n, Low(eip, n));
      var t3 := Push(t2, n, Low(eip, n));
      if i.errcode.Some? {
        PushTsc(t3, 4, i.errcode.value);
      }
      var (u, newCs, newEip) := IntFrame(s, i);
      SetSegTsc(u.(f := u.f.(ifl := false, tf := false)), CS, newCs);
    }
  }

  lemma PushTsc(s: St, n: Width, v: u32)
    ensures Push(s, n, v).tsc == s.tsc
  {
    hide Store, SetLo16, U16, U32;
    StoreTsc(SetSp(s, Sp(s) - n), s.segs.ss, Sp(SetSp(s, Sp(s) - n)), n, v);
  }

  lemma DescrTsc(s: St, a: u32)
    ensures ReadDescr(s, a).0.tsc == s.tsc
  {
    hide FlatMemory.MemIo, Decode;
  }

  lemma LookupTsc(s: St, nr: u8, cs: u16, eip: u32)
    ensures IdtLookup(s, nr, cs, eip).0.tsc == s.tsc
  {
    hide FlatMemory.MemIo, ReadDescr, Pow2;
    DescrTsc(s, U32(s.sys.idt.base + 8 * nr));
  }

  lemma SetSegTsc(s: St, r: SegReg, val: u16)
    ensures SetSeg(s, r, val).tsc == s.tsc
  {
    hide ReadDescr, Pow2, Segs.Set, Segs.Get;
    var table := if val / 4 % 2 == 1 then s.sys.ldt else s.sys.gdt;
    DescrTsc(s, U32(table.base + val - val % 8));
  }

  lemma {:induction false} FetchKeepsTsc(s: St, budget: nat)
    ensures var t := FetchOpcode(s, budget).0; t.tsc == s.tsc && t.intr == s.intr
    decreases budget
  {
    hide FlatMemory.MemIo, U8, SetLo16;
    var (t, b) := FetchByte(s);
    if IsPrefix(b) && budget > 0 {
      FetchKeepsTsc(ApplyPrefix(t, b), budget - 1);
    }
  }

  /** One executed instruction: the time stamp grows by one, at most one request is delivered and none stays pending. */
  lemma TurnTicks(t: Turn, flags: RunFlags, budget: nat)
    requires TurnOk(t, flags, budget)
    ensures t.after.tsc == (t.before.tsc + 1) % 0x1_0000_0000_0000_0000 && t.after.intr.pending.NoIntr?
    ensures t.ready.intr == t.before.intr
    ensures t.after == Tick(
        if t.handled.intr.pending.NoIntr? then t.handled
        else Acknowledged(GenerateInt(t.handled, t.handled.intr.pending)))
  {
    hide FetchOpcode, Verdict, PushA, PopA, Movs, Scan, Enter, Leave, IntImm, Iret, Jump, GenerateInt;
    FetchKeepsTsc(Begin(t.before), budget);
    DeliveryKeepsTsc(t.handled);
  }

  lemma LinkedBefore(s: St, turns: seq<Turn>, t: St, flags: RunFlags, limit: u64, budget: nat, i: nat)
    requires Chain(s, turns, t, flags, limit, budget) && 0 < i < |turns|
    ensures turns[i - 1].after == turns[i].before && !turns[i].before.mode.halted
  {
    hide TurnOk, OverLimit;
    assert Links(turns[i - 1], turns[i]);
  }

  /** All but the last instruction. */
  lemma ChainShrinks(s: St, turns: seq<Turn>, t: St, flags: RunFlags, limit: u64, budget: nat)
    requires Chain(s, turns, t, flags, limit, budget) && turns != []
    ensures Chain(s, turns[..|turns| - 1], turns[|turns| - 1].before, flags, limit, budget)
  {
    hide TurnOk, OverLimit, Links;
    var k := |turns| - 1;
    var init := turns[..k];
    if k > 0 {
      LinkedBefore(s, turns, t, flags, limit, budget, k);
    }
    forall i, j | 0 <= i < k && j == i + 1 < k ensures Links(init[i], init[j]) {
      assert Links(turns[i], turns[j]);
    }
  }

  lemma ChainEnds(s: St, turns: seq<Turn>, t: St, flags: RunFlags, limit: u64, budget: nat)
    requires Chain(s, turns, t, flags, limit, budget)
    ensures if turns == [] then t == s else
      var last := turns[|turns| - 1];
      last.after == t && TurnOk(last, flags, budget) && !OverLimit(last.before, flags, limit)
  {
    hide TurnOk, OverLimit;
  }

  lemma TickAdds(a: int, k: int)
    ensures ((a + k) % 0x1_0000_0000_0000_0000 + 1) % 0x1_0000_0000_0000_0000 == (a + k + 1) % 0x1_0000_0000_0000_0000
  {
  }

  /** Theorem, over every run: the time stamp counts the executed instructions. */
  lemma {:induction false} RunsTick(s: St, turns: seq<Turn>, t: St, flags: RunFlags, limit: u64, budget: nat)
    requires Chain(s, turns, t, flags, limit, budget)
    ensures t.tsc == (s.tsc + |turns|) % 0x1_0000_0000_0000_0000
    decreases |turns|
  {
    hide TurnOk, Chain, OverLimit;
    ChainEnds(s, turns, t, flags, limit, budget);
    if turns != [] {
      var k := |turns| - 1;
      ChainShrinks(s, turns, t, flags, limit, budget);
      RunsTick(s, turns[..k], turns[k].before, flags, limit, budget);
      TurnTicks(turns[k], flags, budget);
      TickAdds(s.tsc, k);
    }
  }

  /** Theorem: under an instruction limit the stamp never passes it, so a run has at most limit - TSC instructions. */
  lemma {:induction false} RunsStayBelowLimit(s: St, turns: seq<Turn>, t: St, flags: RunFlags, limit: u64, budget: nat)
    requires Chain(s, turns, t, flags, limit, budget) && flags.maxInstr && 0 < limit && s.tsc <= limit
    ensures t.tsc == s.tsc + |turns| <= limit
    decreases |turns|
  {
    hide TurnOk, Chain;
    ChainEnds(s, turns, t, flags, limit, budget);
    if turns != [] {
      var k := |turns| - 1;
      ChainShrinks(s, turns, t, flags, limit, budget);
      RunsStayBelowLimit(s, turns[..k], turns[k].before, flags, limit, budget);
      TurnTicks(turns[k], flags, budget);
    }
  }

  lemma IterationTurn(s: St, t: St, flags: RunFlags, limit: u64, budget: nat, out: Outcome, rs: RunFlags)
    requires IterationOk(s, t, flags, limit, budget, out, rs) && out.Executed?
    ensures out.turn.before == s && out.turn.after == t && TurnOk(out.turn, flags, budget)
    ensures !OverLimit(s, flags, limit)
  {
    hide FetchOpcode, TurnOk, Verdict;
  }

  lemma NoLimit(s: St, t: St, flags: RunFlags, limit: u64, budget: nat, out: Outcome, rs: RunFlags)
    requires IterationOk(s, t, flags, limit, budget, out, rs)
    ensures out.LimitReached? <==> flags.maxInstr && limit > 0 && s.tsc >= limit
    ensures rs.maxInstr <==> out.LimitReached?
  {
    hide FetchOpcode, TurnOk, LoopVerdict, NoCodeVerdict;
  }

  lemma NoTurnPastLimit(s: St, turns: seq<Turn>, t: St, flags: RunFlags, limit: u64, budget: nat)
    requires Chain(s, turns, t, flags, limit, budget) && flags.maxInstr && 0 < limit < s.tsc
    ensures turns == [] && t == s
  {
    hide TurnOk, Chain;
    if turns != [] {
      FirstBelowLimit(s, turns, t, flags, limit, budget);
    } else {
      ChainEnds(s, turns, t, flags, limit, budget);
    }
  }

  lemma FirstBelowLimit(s: St, turns: seq<Turn>, t: St, flags: RunFlags, limit: u64, budget: nat)
    requires Chain(s, turns, t, flags, limit, budget) && turns != []
    ensures !OverLimit(s, flags, limit)
  {
    hide TurnOk, OverLimit, Links;
    assert !OverLimit(turns[0].before, flags, limit);
  }

  /** Theorem: a run under an instruction limit goes on until the stamp has reached it, or ends for another reason. */
  lemma RunsToLimit(s: St, turns: seq<Turn>, last: St, t: St, flags: RunFlags, limit: u64, budget: nat, out: Outcome,
                    rs: RunFlags)
    requires Chain(s, turns, last, flags, limit, budget) && flags.maxInstr && 0 < limit
    requires IterationOk(last, t, flags, limit, budget, out, rs)
    ensures AtLimit(s.tsc, limit, |turns|, last.tsc, out, rs)
  {
    hide IterationOk, Chain;
    NoLimit(last, t, flags, limit, budget, out, rs);
    if s.tsc <= limit {
      RunsStayBelowLimit(s, turns, last, flags, limit, budget);
    } else {
      NoTurnPastLimit(s, turns, last, flags, limit, budget);
    }
  }

  /** Theorem, over every run: each instruction delivers at most one request, and nothing is pending at the next one. */
  lemma RunsDeliverOnce(s: St, turns: seq<Turn>, t: St, flags: RunFlags, limit: u64, budget: nat, i: nat)
    requires Chain(s, turns, t, flags, limit, budget) && i < |turns|
    ensures var turn := turns[i];
      && turn.after.intr.pending.NoIntr? && (i > 0 ==> turn.before.intr.pending.NoIntr?)
      && turn.after == Tick(
           if turn.handled.intr.pending.NoIntr? then turn.handled
           else Acknowledged(GenerateInt(turn.handled, turn.handled.intr.pending)))
  {
    hide TurnOk, OverLimit, GenerateInt;
    TurnTicks(turns[i], flags, budget);
    if i > 0 {
      LinkedBefore(s, turns, t, flags, limit, budget, i);
      TurnTicks(turns[i - 1], flags, budget);
    }
  }
}
