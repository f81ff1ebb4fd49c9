/** Which opcode does what: the dispatch table, told by effects that distinguish its entries. */
module Dispatch {
  import opened Words
  import opened FlatMemory
  import opened MemoryLaws
  import opened Machine
  import opened Arithmetic
  import opened Stack
  import opened Frames
  import opened EnterLeave
  import opened Interrupts
  import opened Strings
  import opened Scans
  import opened RunLoop
  import opened Accesses
  import opened Delivery
  import opened Displays
  import opened Instructions

  /** pusha moves the stack pointer eight operands down; popa eight up, if the sizes agree. */
  predicate AllRegisters(op: u8, s: St, t: St) {
    var k: int := OpBytes(s);
    && (op == 0x60 ==> Sp(t) == (Sp(s) - 8 * k) % SpMod(s))
    && (op == 0x61 && Matched(s) ==> Sp(t) == (Sp(s) + 8 * k) % SpMod(s))
  }

  lemma AllRegistersDo(op: u8, s: St, t: St)
    requires Handled(op, s, t)
    ensures AllRegisters(op, s, t)
  {
    hide PushA, PopA, Movs, Scan, Enter, Leave, IntImm, Iret, Jump, Tame, Sp, SpMod;
    PushedBelow(s);
    if Matched(s) {
      PopaMoves(s);
    }
  }

  /** movsb moves both index registers and keeps the flags, cmpsb moves both, scasb moves DI alone and compares AL. */
  predicate OneString(op: u8, s: St, t: St) {
    && (op == 0xa4 ==> t.f == s.f)
    && (op == 0xa4 || op == 0xa6 ==> t.gen.esi == Bump(s, s.gen.esi, Direction(s)))
    && (op == 0xae ==> t.gen.esi == s.gen.esi && t.f == SubFlags(s.f, 8, s.gen.eax % 0x100, Right(s, 0), 0))
    && (op == 0xa4 || op == 0xa6 || op == 0xae ==> t.gen.edi == Bump(s, s.gen.edi, Direction(s)))
  }

  lemma StringsDo(op: u8, s: St, t: St)
    requires Handled(op, s, t) && !Rep(s) && Scannable(s, Cmps, 1)
    ensures OneString(op, s, t)
  {
    hide PushA, PopA, MovsStep, Compare, Enter, Leave, IntImm, Iret, Jump, Tame, Bump, SubFlags, CanRead, Src, Dst,
         SameLayout, Data;
    assert CanRead(s.mem, Dst(s, 0)) && CanRead(s.mem, Src(s, 0));
    MovsStepIs(s);
    CompareKeeps(s, Cmps);
    CompareKeeps(s, Scas);
    CompareLaw(s, Scas);
    SameBump(s, Compare(s, Cmps));
    SameBump(s, Compare(s, Scas));
    assert MovsRun(s, 1) == MovsRun(MovsStep(s), 0);
  }

  /** enter saves the frame pointer below SP; leave ends above the frame pointer. */
  predicate FrameWork(op: u8, s: St, t: St) {
    var n, k: int := OpBytes(s), StackBytes(s);
    && (op == 0xc8 ==> Bp(t) == (Sp(s) - k) % SpMod(s))
    && (op == 0xc9 ==> Sp(t) == (Bp(s) + n) % SpMod(s))
  }

  lemma FramesDo(op: u8, s: St, t: St)
    requires Handled(op, s, t)
    ensures FrameWork(op, s, t)
  {
    hide PushA, PopA, Movs, Scan, Enter, Leave, IntImm, Iret, Jump, Tame, Sp, SpMod, Bp, Value, NextIp;
    EnterRuns(s);
    LeaveSp(s);
  }

  /** int requests, iret returns, jumps jump by one, two or four bytes. */
  predicate Transfers(op: u8, s: St, t: St) {
    var a := U32(s.segs.cs.base + s.eip);
    && (op == 0xcd ==> t.intr.made == s.intr.made + [Raised(Value(s.mem, a, 1, KExec), false, false, None)])
    && (op == 0xcf ==> t.eip == Top(s, 0, OpBytes(s)))
    && (op == 0xeb ==>
          t.eip == (NextIp(s, 1) + Displacement(1, Value(s.mem, a, 1, KExec))) % SizeMod(s))
    && (op == 0xe9 ==>
          var n := OpBytes(s);
          t.eip == (NextIp(s, n) + Displacement(n, Value(s.mem, a, n, KExec))) % SizeMod(s))
  }

  function SizeMod(s: St): int { if s.mode.data32 then 0x1_0000_0000 else 0x1_0000 }

  lemma TransfersDo(op: u8, s: St, t: St)
    requires Handled(op, s, t)
    ensures Transfers(op, s, t)
  {
    hide PushA, PopA, Movs, Scan, Enter, Leave, IntImm, Iret, Jump, Tame, Value, NextIp, Top, SameCode, SetSp, Sp, SpMod,
         Loaded, FlagsOf;
    IntRequests(s);
    IretReads(s, Iret(s));
    JumpGoes(s, JumpBytes(s, op));
  }

  /** The flag instructions. */
  predicate FlagWork(op: u8, s: St, t: St) {
    && (op == 0xf8 || op == 0xf9 ==> t == s.(f := s.f.(cf := op == 0xf9)))
    && (op == 0xfa || op == 0xfb ==> t == s.(f := s.f.(ifl := op == 0xfb)))
    && (op == 0xfc || op == 0xfd ==> t == s.(f := s.f.(df := op == 0xfd)))
  }

  lemma FlagsDo(op: u8, s: St, t: St)
    requires Handled(op, s, t)
    ensures FlagWork(op, s, t)
  {
    hide PushA, PopA, Movs, Scan, Enter, Leave, IntImm, Iret, Jump, Tame, SetFlag;
    CarryInstructions(s.f, op == 0xf9);
    InterruptInstructions(s.f, op == 0xfb);
    DirectionInstructions(s.f, op == 0xfd);
  }

  /** Theorem: the entries of the dispatch table do what their opcodes stand for. */
  lemma OpcodesDo(op: u8, s: St, t: St)
    requires Handled(op, s, t)
    ensures AllRegisters(op, s, t) && FrameWork(op, s, t) && Transfers(op, s, t) && FlagWork(op, s, t)
    ensures !Rep(s) && Scannable(s, Cmps, 1) ==> OneString(op, s, t)
  {
    hide Handled, AllRegisters, FrameWork, Transfers, FlagWork, OneString, Scannable;
    AllRegistersDo(op, s, t);
    FramesDo(op, s, t);
    TransfersDo(op, s, t);
    FlagsDo(op, s, t);
    if !Rep(s) && Scannable(s, Cmps, 1) {
      StringsDo(op, s, t);
    }
  }
}
