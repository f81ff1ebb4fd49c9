/** The verdict "infinite loop" of the run loop is right: the instruction pointer never gets away again. */
module EndlessLoop {
  import opened Words
  import opened Bits
  import opened FlatMemory
  import opened MemoryLaws
  import opened Machine
  import opened Arithmetic
  import opened Frames
  import opened EnterLeave
  import opened Interrupts
  import opened Strings
  import opened Scans
  import opened RunLoop

  // ---- instruction fetches leave code as it is ----

  /** What the bytes at `a` say. */
  function CodeValue(f: FlatMem, a: u32, n: Width): u32 {
    var b0, b1 := Data(f, a), Data(f, U32(a + 1));
    if n == 1 then b0 else if n == 2 then Word(b0, b1)
    else Dword(Word(b0, b1), Word(Data(f, U32(a + 2)), Data(f, U32(a + 3))))
  }

  /** The byte may be executed and is initialised. */
  predicate Runs(f: FlatMem, a: u32) { Has(Attr(f, a), PERM_X) && IsValid(f, a) }

  lemma RunsOn(f: FlatMem, g: FlatMem, a: u32)
    requires SameLayout(f, g) && Runs(f, a)
    ensures Runs(g, a)
  {
    hide Perms, Has;
    PermsFix(Attr(f, a), Attr(g, a));
  }

  lemma FetchMarks(x: bv8)
    ensures Has(Touch(x, Ex), PERM_VALID) == Has(x, PERM_VALID) && Perms(Touch(x, Ex)) == Perms(x)
  {
  }

  /** One byte fetched: its value, and no failure exactly when it may be executed and is initialised. */
  lemma XByteLaw(f: FlatMem, a: u32)
    ensures var (g, v) := XByte(f, a);
      && SameCode(f, g) && (!g.invalid <==> !f.invalid && Runs(f, a)) && (!g.invalid ==> v == Data(f, a))
      && forall b: u32 :: b != a ==> Attr(g, b) == Attr(f, b)
  {
    hide Touch, Has, Perms;
    StepLaw(f, a, Ex);
    FetchMarks(Attr(f, a));
  }

  lemma XWordLaw(f: FlatMem, a: u32)
    ensures var (g, v) := XWord(f, a); var a1 := U32(a + 1);
      && SameCode(f, g) && (!g.invalid <==> !f.invalid && Runs(f, a) && Runs(f, a1))
      && (!g.invalid ==> v == Word(Data(f, a), Data(f, a1)))
      && forall b: u32 :: b != a && b != a1 ==> Attr(g, b) == Attr(f, b)
  {
    hide XByte, Has, SameLayout, Data, Word;
    var a1 := U32(a + 1);
    var g := XByte(f, a).0;
    XByteLaw(f, a);
    XByteLaw(g, a1);
    SameCodeTrans(f, g, XByte(g, a1).0);
  }

  lemma XDwordLaw(f: FlatMem, a: u32)
    ensures var (g, v) := XDword(f, a); var a1, a2, a3 := U32(a + 1), U32(a + 2), U32(a + 3);
      && SameCode(f, g) && (!g.invalid <==> !f.invalid && Runs(f, a) && Runs(f, a1) && Runs(f, a2) && Runs(f, a3))
      && (!g.invalid ==> v == Dword(Word(Data(f, a), Data(f, a1)), Word(Data(f, a2), Data(f, a3))))
  {
    hide XWord, Has, SameLayout, Data, Word, Dword;
    var g := XWord(f, a).0;
    XWordLaw(f, a);
    XWordLaw(g, U32(a + 2));
    Wraps(a);
    SameCodeTrans(f, g, XWord(g, U32(a + 2)).0);
  }

  /** All `n` bytes from `a` can be fetched. */
  predicate RunsN(f: FlatMem, a: u32, n: Width) {
    Runs(f, a) && (n > 1 ==> Runs(f, U32(a + 1))) && (n > 2 ==> Runs(f, U32(a + 2)) && Runs(f, U32(a + 3)))
  }

  lemma RunsNOn(f: FlatMem, g: FlatMem, a: u32, n: Width)
    requires SameCode(f, g) && RunsN(f, a, n)
    ensures RunsN(g, a, n) && CodeValue(g, a, n) == CodeValue(f, a, n)
  {
    hide Runs, SameLayout, Data, Word, Dword, U32;
    RunsOn(f, g, a);
    if n > 1 {
      RunsOn(f, g, U32(a + 1));
    }
    if n > 2 {
      RunsOn(f, g, U32(a + 2));
      RunsOn(f, g, U32(a + 3));
    }
  }

  function CodeAt(s: St): u32 { U32(s.segs.cs.base + s.eip) }

  /** An instruction fetch delivers what the code says exactly when it does not halt, and changes no code. */
  lemma FetchCodeLaw(s: St, n: Width)
    ensures var (t, v) := FetchCode(s, n);
      && SameCode(s.mem, t.mem)
      && t == s.(mem := t.mem, mode := s.mode.(halted := t.mode.halted), eip := NextIp(s, n))
      && (!t.mode.halted <==> !s.mode.halted && RunsN(s.mem, CodeAt(s), n))
      && (!t.mode.halted ==> v == Low(CodeValue(s.mem, CodeAt(s), n), n))
  {
    hide XByte, XWord, XDword, Runs, SameLayout, Data, SetLo16, Word, Dword, U16;
    var f := s.mem.(invalid := false);
    SameCodeSelf(s.mem);
    SameRuns(s.mem, CodeAt(s), n);
    XByteLaw(f, CodeAt(s));
    XWordLaw(f, CodeAt(s));
    XDwordLaw(f, CodeAt(s));
    SameCodeTrans(s.mem, f, FetchCode(s, n).0.mem);
  }

  lemma SameRuns(f: FlatMem, a: u32, n: Width)
    ensures var g := f.(invalid := false); RunsN(g, a, n) == RunsN(f, a, n) && CodeValue(g, a, n) == CodeValue(f, a, n)
  {
  }

  // ---- the same instruction, fetched again ----

  /** Two states about to fetch the same code. */
  ghost predicate Twins(s: St, t: St) {
    && t.mode == s.mode && t.eip == s.eip && t.segs == s.segs && t.override == s.override && t.savedEip == s.savedEip
    && SameCode(s.mem, t.mem)
  }

  lemma FetchTwins(s: St, t: St, n: Width)
    requires Twins(s, t) && !FetchCode(s, n).0.mode.halted
    ensures FetchCode(t, n).1 == FetchCode(s, n).1 && Twins(FetchCode(s, n).0, FetchCode(t, n).0)
  {
    hide FetchCode, CodeValue, RunsN, SetLo16, U16, SameData, SameLayout;
    var s', t' := FetchCode(s, n).0, FetchCode(t, n).0;
    FetchCodeLaw(s, n);
    FetchCodeLaw(t, n);
    RunsNOn(s.mem, t.mem, CodeAt(s), n);
    SameCodeBack(s.mem, s'.mem);
    SameCodeTrans(s'.mem, s.mem, t.mem);
    SameCodeTrans(s'.mem, t.mem, t'.mem);
  }

  lemma PrefixTwins(s: St, t: St, b: u8)
    ensures ApplyPrefix(s, b).mode.halted == s.mode.halted && ApplyPrefix(s, b).mode.code32 == s.mode.code32
    ensures Twins(s, t) ==> Twins(ApplyPrefix(s, b), ApplyPrefix(t, b))
  {
    hide SameCode, PrefixOverride, PrefixMode;
    PrefixKeeps(b, s.mode);
  }

  lemma PrefixKeeps(b: u8, mode: Mode)
    ensures PrefixMode(b, mode).halted == mode.halted && PrefixMode(b, mode).code32 == mode.code32
  {
  }

  lemma {:induction false} HaltedStays(s: St, budget: nat)
    requires s.mode.halted
    ensures FetchOpcode(s, budget).0.mode.halted
    decreases budget
  {
    hide FlatMemory.MemIo, U8, SetLo16, U16, ApplyPrefix, IsPrefix;
    var (t, b) := FetchByte(s);
    PrefixTwins(t, t, b);
    if IsPrefix(b) && budget > 0 {
      HaltedStays(ApplyPrefix(t, b), budget - 1);
    }
  }

  lemma {:induction false} OpcodeTwins(s: St, t: St, budget: nat)
    requires Twins(s, t) && !FetchOpcode(s, budget).0.mode.halted
    ensures FetchOpcode(t, budget).1 == FetchOpcode(s, budget).1
    ensures Twins(FetchOpcode(s, budget).0, FetchOpcode(t, budget).0)
    decreases budget
  {
    hide FetchCode, Twins, IsPrefix, U8, ApplyPrefix;
    var (s', b) := FetchByte(s);
    PrefixTwins(s', FetchByte(t).0, b);
    if s'.mode.halted {
      if IsPrefix(b) && budget > 0 {
        HaltedStays(ApplyPrefix(s', b), budget - 1);
      }
    } else {
      FetchTwins(s, t, 1);
      if IsPrefix(b) && budget > 0 {
        OpcodeTwins(ApplyPrefix(s', b), ApplyPrefix(FetchByte(t).0, b), budget - 1);
      }
    }
  }

  /** What fetching does to the machine besides the mode, the override and the pointer: nothing. */
  lemma {:induction false} OpcodeLaw(s: St, budget: nat)
    ensures var p := FetchOpcode(s, budget).0;
      SameCode(s.mem, p.mem) && p == s.(mem := p.mem, mode := p.mode, override := p.override, eip := p.eip)
    decreases budget
  {
    hide FetchCode, IsPrefix, U8, SameData, SameLayout, RunsN, CodeValue;
    var (t, b) := FetchByte(s);
    FetchCodeLaw(s, 1);
    if IsPrefix(b) && budget > 0 {
      var u := ApplyPrefix(t, b);
      OpcodeLaw(u, budget - 1);
      SameCodeTrans(s.mem, t.mem, FetchOpcode(u, budget - 1).0.mem);
    }
  }

  // ---- jumps and flag instructions, step by step ----

  predicate IsJump(op: u8) { op == 0xeb || op == 0xe9 }

  /** One iteration that executes a short or near jump or a flag instruction; None for anything else. */
  function PlainTurn(s: St, budget: nat): Option<St> {
    var (p, op) := FetchOpcode(Begin(s), budget);
    if op.None? || p.mode.halted then None
    else if !(IsJump(op.value) || FlagOp(op.value)) then None
    else
      var h := PlainHandled(op.value, p);
      if h.mode.halted then None else Some(Tick(HandleInterrupt(h)))
  }

  /** The handlers of these instructions. */
  function PlainHandled(op: u8, p: St): St {
    if IsJump(op) then Jump(p, JumpBytes(p, op)) else p.(f := SetFlag(p.f, op))
  }

  function PlainTurns(s: St, budget: nat, k: nat): Option<St>
    decreases k
  {
    if k == 0 then Some(s)
    else
      var t := PlainTurns(s, budget, k - 1);
      if t.None? then None else PlainTurn(t.value, budget)
  }

  /** A verdict that halts the run changes nothing else about the jump. */
  lemma JumpHalted(p: St, q: St, n: Width)
    requires q == p.(mode := p.mode.(halted := q.mode.halted))
    ensures Jump(q, n) == Jump(p, n).(mode := Jump(q, n).mode) && (q.mode.halted ==> Jump(q, n).mode.halted)
  {
    hide FlatMemory.MemIo, SetLo16, U16, U32, Signed;
  }

  /** What an executed jump or flag instruction hands on, whatever verdicts were asked for. */
  lemma PlainHandler(op: u8, p: St, q: St, h: St)
    requires (IsJump(op) || FlagOp(op)) && Handled(op, q, h) && q == p.(mode := p.mode.(halted := q.mode.halted))
    ensures h == PlainHandled(op, p).(mode := h.mode) && h.intr == p.intr && (q.mode.halted ==> h.mode.halted)
  {
    hide Jump, SetFlag, PushA, PopA, Movs, Scan, Enter, Leave, IntImm, Iret, Tame;
    if IsJump(op) {
      JumpHalted(p, q, JumpBytes(p, op));
      JumpKeepsIntr(p, JumpBytes(p, op));
    }
  }

  /** With nothing to deliver, the mode passes through. */
  lemma NothingDelivered(x: St, h: St)
    requires h == x.(mode := h.mode) && h.intr.pending.NoIntr?
    ensures Tick(HandleInterrupt(h)) == Tick(HandleInterrupt(x)).(mode := h.mode)
  {
    hide GenerateInt;
  }

  lemma TurnParts(t: Turn, flags: RunFlags, budget: nat)
    requires TurnOk(t, flags, budget)
    ensures var (p, op) := FetchOpcode(Begin(t.before), budget);
      && op == Some(t.op) && t.ready == p.(mode := p.mode.(halted := t.ready.mode.halted))
      && Handled(t.op, t.ready, t.handled) && t.after == Tick(HandleInterrupt(t.handled))
  {
    hide FetchOpcode, Verdict, Handled, HandleInterrupt, Tick;
  }

  /** An executed instruction, whatever verdicts were asked for, is such an iteration if there is one. */
  lemma TurnIsPlain(t: Turn, flags: RunFlags, budget: nat)
    requires TurnOk(t, flags, budget) && PlainTurn(t.before, budget).Some? && t.before.intr.pending.NoIntr?
    ensures t.after == PlainTurn(t.before, budget).value.(mode := t.after.mode)
    ensures t.ready.mode.halted ==> t.after.mode.halted
  {
    hide FetchOpcode, HandleInterrupt, Handled, PlainHandled, TurnOk;
    FetchKeepsTsc(Begin(t.before), budget);
    TurnParts(t, flags, budget);
    var p := FetchOpcode(Begin(t.before), budget).0;
    PlainHandler(t.op, p, t.ready, t.handled);
    NothingDelivered(PlainHandled(t.op, p), t.handled);
    ModeThrough(t.handled);
  }

  lemma ModeThrough(h: St)
    requires h.intr.pending.NoIntr?
    ensures Tick(HandleInterrupt(h)).mode == h.mode
  {
    hide GenerateInt;
  }

  lemma JumpKeepsIntr(p: St, n: Width)
    ensures Jump(p, n).intr == p.intr
  {
    hide FlatMemory.MemIo, SetLo16, U16, U32, Signed;
  }

  /** The 16-bit instruction pointer does not wrap inside the instruction. */
  predicate NoCross(s: St, n: Width) { s.mode.code32 || (s.eip + n < 0x1_0000) }

  lemma NextIpIs(s: St, n: Width)
    requires NoCross(s, n)
    ensures NextIp(s, n) == U32(s.eip + n)
  {
    hide SetLo16, Lo16, U16, U32;
    if !s.mode.code32 {
      SmallSum(s.eip, n);
      NoCarry(s.eip, n);
    }
  }

  lemma SmallSum(x: u32, n: Width)
    requires x + n < 0x1_0000
    ensures Lo16(x) == x && Lo16(x + n) == U16(Lo16(x) + n) == U32(x + n) == x + n
  {
  }

  function SignedBytes(n: Width, v: u32): int { if n == 1 then Signed(8, v) else if n == 2 then Signed(16, v) else v }

  /** The offset the verdict computes from the code is the one the jump will use. */
  lemma OffsetIs(p: St, op: u8, v: u32)
    requires IsJump(op)
    requires var n := JumpBytes(p, op); v == Low(CodeValue(p.mem, CodeAt(p), n), n)
    ensures var n := JumpBytes(p, op); JumpOffset(p, op) == U32(SignedBytes(n, v) + n)
  {
    hide Data, Signed;
  }

  lemma Mod32(x: int, y: int)
    ensures U32(U32(x) + y) == U32(x + y) && U32(x + U32(y)) == U32(x + y)
  {
    var a, b := x / 0x1_0000_0000, y / 0x1_0000_0000;
    DivUnique(U32(x) + y, 0x1_0000_0000, (x + y) / 0x1_0000_0000 - a, U32(x + y));
    DivUnique(x + U32(y), 0x1_0000_0000, (x + y) / 0x1_0000_0000 - b, U32(x + y));
  }

  /** Where the jump lands, in terms of the verdict's offset. */
  lemma JumpLaw(p: St, op: u8)
    requires IsJump(op) && NoCross(p, JumpBytes(p, op)) && !Jump(p, JumpBytes(p, op)).mode.halted
    ensures var h := Jump(p, JumpBytes(p, op)); var target := U32(p.eip + JumpOffset(p, op));
      && h == p.(mem := h.mem, eip := if p.mode.data32 then target else target % 0x1_0000)
      && SameCode(p.mem, h.mem)
  {
    hide FetchCode, CodeValue, RunsN, SetLo16, SameData, SameLayout, JumpOffset, Signed, U32;
    var n := JumpBytes(p, op);
    FetchCodeLaw(p, n);
    var (t, v) := FetchCode(p, n);
    NextIpIs(p, n);
    OffsetIs(p, op, v);
    var d := SignedBytes(n, v);
    Mod32(p.eip + n, d);
    Mod32(p.eip, d + n);
  }

  // ---- the verdict is right ----

  /** The verdict's first case: the jump goes to its own start. */
  predicate ToItself(p: St, op: u8) { U32(p.eip + JumpOffset(p, op)) == p.savedEip }

  /**
  A state at which the run loop finds an endless loop, and the code of the loop can be fetched: nothing pending, the
  jump's bytes executable, no 16-bit instruction pointer wrapping inside an instruction, and a 16-bit target in reach.
  */
  ghost predicate LoopSite(s: St, budget: nat) {
    var (p, op) := FetchOpcode(Begin(s), budget);
    && s.intr.pending.NoIntr? && op.Some? && !p.mode.halted && LoopVerdict(p, op.value)
    && NoCross(p, JumpBytes(p, op.value)) && !Jump(p, JumpBytes(p, op.value)).mode.halted
    && (!p.mode.data32 || !p.mode.code32 ==> s.eip < 0x1_0000)
    && (!ToItself(p, op.value) ==> Runs(s.mem, U32(s.segs.cs.base + s.eip - 1)))
  }

  /** Caught: at the jump, or at the flag instruction in front of it. */
  ghost predicate Caught(s: St, t: St, budget: nat) {
    var (p, op) := FetchOpcode(Begin(s), budget);
    && t.segs == s.segs && t.intr.pending.NoIntr? && SameCode(s.mem, t.mem)
    && (t.eip == s.eip || (op.Some? && !ToItself(p, op.value) && s.eip >= 1 && t.eip == s.eip - 1))
  }

  /** The instruction pointer is at the jump, or one byte before it. */
  predicate Inside(s: St, t: St) { t.eip == s.eip || t.eip == s.eip - 1 }

  lemma BeginTwins(s: St, t: St)
    requires t.segs == s.segs && t.eip == s.eip && SameCode(s.mem, t.mem)
    ensures Twins(Begin(s), Begin(t))
  {
    hide SameCode;
  }

  lemma BeginIs(s: St)
    ensures Begin(s) == s.(mode := Begin(s).mode, override := None, savedEip := s.eip, savedCs := s.segs.cs.sel)
    ensures !Begin(s).mode.halted
  {
  }

  lemma VerdictIsJump(p: St, op: u8)
    requires LoopVerdict(p, op)
    ensures IsJump(op)
    ensures ToItself(p, op) || (U32(p.eip + 1 + JumpOffset(p, op)) == p.savedEip && p.savedEip >= 1
                                && FlagOp(Data(p.mem, U32(p.segs.cs.base + p.savedEip - 1))))
  {
    hide Data, Signed;
  }

  lemma SameOffset(p: St, q: St, op: u8)
    requires Twins(p, q)
    ensures JumpOffset(q, op) == JumpOffset(p, op) && ToItself(q, op) == ToItself(p, op)
  {
    hide Data, Signed, SameLayout;
  }

  lemma OneBefore(x: int, e: u32)
    requires U32(x + 1) == e && e >= 1
    ensures U32(x) == e - 1
  {
    Mod32(x + 1, -1);
  }

  /** From the jump: to itself or to the flag instruction. */
  lemma JumpStays(s: St, t: St, budget: nat)
    requires LoopSite(s, budget) && Caught(s, t, budget) && t.eip == s.eip
    ensures PlainTurn(t, budget).Some? && Caught(s, PlainTurn(t, budget).value, budget)
  {
    hide SameCode, FetchOpcode, Jump, JumpOffset, Twins, Data, Runs, LoopVerdict;
    var b, c := Begin(s), Begin(t);
    BeginIs(s);
    BeginIs(t);
    BeginTwins(s, t);
    OpcodeTwins(b, c, budget);
    OpcodeLaw(b, budget);
    SameCodeParts(s.mem, t.mem);
    OpcodeLaw(c, budget);
    var (p, op) := FetchOpcode(b, budget);
    var q := FetchOpcode(c, budget).0;
    TwinsIs(p, q);
    VerdictIsJump(p, op.value);
    var n := JumpBytes(p, op.value);
    JumpTwins(p, q, op.value);
    SameCodeParts(t.mem, q.mem);
    JumpLaw(q, op.value);
    SameOffset(p, q, op.value);
    SameCodeTrans(s.mem, t.mem, q.mem);
    SameCodeTrans(s.mem, q.mem, Jump(q, n).mem);
    if !ToItself(p, op.value) {
      OneBefore(p.eip + JumpOffset(p, op.value), s.eip);
    }
  }

  lemma SameCodeParts(f: FlatMem, g: FlatMem)
    requires SameCode(f, g)
    ensures SameData(f, g) && SameLayout(f, g)
  {
    hide SameLayout, Data;
  }

  lemma TwinsIs(p: St, q: St)
    requires Twins(p, q)
    ensures q.mode == p.mode && q.eip == p.eip && q.segs == p.segs && q.savedEip == p.savedEip
  {
    hide SameCode;
  }

  lemma JumpTwins(p: St, q: St, op: u8)
    requires Twins(p, q) && IsJump(op) && !Jump(p, JumpBytes(p, op)).mode.halted
    ensures JumpBytes(q, op) == JumpBytes(p, op) && !Jump(q, JumpBytes(q, op)).mode.halted
  {
    hide FetchCode, SameCode, Signed;
    FetchTwins(p, q, JumpBytes(p, op));
  }

  /** A turn at a flag instruction. */
  lemma FlagTurn(t: St, budget: nat)
    requires var (p, b) := FetchByte(Begin(t)); FlagOp(b) && !p.mode.halted && p.intr.pending.NoIntr?
    ensures var (p, b) := FetchByte(Begin(t)); PlainTurn(t, budget) == Some(Tick(p.(f := SetFlag(p.f, b))))
  {
    hide FetchCode, Jump, SetFlag;
  }

  /** From the flag instruction: on to the jump. */
  lemma FlagStays(s: St, t: St, budget: nat)
    requires LoopSite(s, budget) && Caught(s, t, budget) && t.eip != s.eip
    ensures PlainTurn(t, budget).Some? && Caught(s, PlainTurn(t, budget).value, budget)
  {
    hide SameCode, FetchCode, Jump, JumpOffset, Twins, Data, Runs, SameLayout, CodeValue, LoopVerdict,
         SetFlag, PlainTurn;
    var c := Begin(t);
    BeginIs(s);
    BeginIs(t);
    var (p, op) := FetchOpcode(Begin(s), budget);
    OpcodeMode(s, t, budget);
    OpcodeLaw(Begin(s), budget);
    VerdictIsJump(p, op.value);
    SameCodeParts(s.mem, p.mem);
    SameCodeParts(s.mem, t.mem);
    RunsOn(s.mem, t.mem, CodeAt(c));
    FetchCodeLaw(c, 1);
    NextIpIs(c, 1);
    SameCodeTrans(s.mem, t.mem, FetchCode(c, 1).0.mem);
    ByteValue(c);
    FlagTurn(t, budget);
  }

  lemma ByteValue(s: St)
    ensures U8(Low(CodeValue(s.mem, CodeAt(s), 1), 1)) == Data(s.mem, CodeAt(s))
  {
    hide Data;
  }

  lemma OpcodeMode(s: St, t: St, budget: nat)
    requires t.segs == s.segs
    ensures Begin(t).mode == Begin(s).mode && Begin(t).mode.code32 == FetchOpcode(Begin(s), budget).0.mode.code32
  {
    CodeSize(Begin(s), budget);
  }

  lemma {:induction false} CodeSize(s: St, budget: nat)
    ensures FetchOpcode(s, budget).0.mode.code32 == s.mode.code32
    decreases budget
  {
    hide FlatMemory.MemIo, U8, SetLo16, U16, IsPrefix, ApplyPrefix;
    var (t, b) := FetchByte(s);
    PrefixTwins(t, t, b);
    if IsPrefix(b) && budget > 0 {
      CodeSize(ApplyPrefix(t, b), budget - 1);
    }
  }

  lemma CaughtAtStart(s: St, budget: nat)
    requires LoopSite(s, budget)
    ensures Caught(s, s, budget)
  {
    hide FetchOpcode, LoopVerdict, Jump, Runs;
    SameCodeSelf(s.mem);
  }

  /** One executed instruction of the run loop, asked for any verdict or none. */
  lemma TurnStays(s: St, t: Turn, flags: RunFlags, budget: nat)
    requires LoopSite(s, budget) && Caught(s, t.before, budget) && TurnOk(t, flags, budget)
    ensures Caught(s, t.after, budget) && (t.ready.mode.halted ==> t.after.mode.halted)
  {
    hide LoopSite, PlainTurn, SameCode, FetchOpcode, TurnOk, ToItself;
    if t.before.eip == s.eip {
      JumpStays(s, t.before, budget);
    } else {
      FlagStays(s, t.before, budget);
    }
    TurnIsPlain(t, flags, budget);
  }

  /** The iteration that finds the loop still executes the jump; it ends the run, inside the loop. */
  lemma VerdictTurn(t: Turn, flags: RunFlags, budget: nat)
    requires TurnOk(t, flags, budget) && flags.loop && LoopSite(t.before, budget)
    ensures Caught(t.before, t.after, budget) && t.after.mode.halted
  {
    hide PlainTurn, SameCode, FetchOpcode, ToItself, Handled, LoopVerdict, NoCodeVerdict, HandleInterrupt, Caught, Runs,
         Jump;
    CaughtAtStart(t.before, budget);
    TurnStays(t.before, t, flags, budget);
  }

  /**
  Theorem: after the verdict "infinite loop" - that is, from any state in which the loop has caught the machine - every
  further iteration, however many, executes a jump or a flag instruction and leaves EIP at the jump or right before it.
  */
  lemma {:induction false} LoopVerdictIsSound(s: St, c: St, budget: nat, k: nat)
    requires LoopSite(s, budget) && Caught(s, c, budget)
    ensures var t := PlainTurns(c, budget, k);
      t.Some? && Caught(s, t.value, budget) && Inside(s, t.value)
    decreases k
  {
    hide LoopSite, PlainTurn, SameCode, FetchOpcode, ToItself;
    if k > 0 {
      LoopVerdictIsSound(s, c, budget, k - 1);
      var t := PlainTurns(c, budget, k - 1).value;
      if t.eip == s.eip {
        JumpStays(s, t, budget);
      } else {
        FlagStays(s, t, budget);
      }
    }
  }

  /** The same for runs of any length and with any flags: no instruction of them leaves the loop. */
  lemma {:induction false} RunsStayInLoop(s: St, c: St, turns: seq<Turn>, t: St,
                                          flags: RunFlags, limit: u64, budget: nat)
    requires LoopSite(s, budget) && Caught(s, c, budget) && Chain(c, turns, t, flags, limit, budget)
    ensures Caught(s, t, budget) && Inside(s, t)
    ensures forall i :: 0 <= i < |turns| ==> Caught(s, turns[i].after, budget)
    decreases |turns|
  {
    CaughtAt(s, t, budget);
    hide LoopSite, Caught, Chain, TurnOk, OverLimit;
    ChainEnds(c, turns, t, flags, limit, budget);
    if turns != [] {
      var k := |turns| - 1;
      ChainShrinks(c, turns, t, flags, limit, budget);
      RunsStayInLoop(s, c, turns[..k], turns[k].before, flags, limit, budget);
      TurnStays(s, turns[k], flags, budget);
      forall i | 0 <= i < |turns| ensures Caught(s, turns[i].after, budget) {
        assert i < k ==> turns[..k][i] == turns[i];
      }
    }
  }

  lemma CaughtAt(s: St, t: St, budget: nat)
    ensures Caught(s, t, budget) ==> Inside(s, t)
  {
    hide FetchOpcode, SameCode, ToItself;
  }

  /** Theorem: a run that ends with the verdict "infinite loop", continued in whatever way, stays where it is. */
  lemma VerdictRunsStay(v: Turn, asked: RunFlags, turns: seq<Turn>, t: St, flags: RunFlags, limit: u64, budget: nat)
    requires TurnOk(v, asked, budget) && asked.loop && LoopSite(v.before, budget)
    requires Chain(v.after, turns, t, flags, limit, budget)
    ensures v.after.mode.halted
    ensures Inside(v.before, v.after) && Inside(v.before, t)
    ensures forall i :: 0 <= i < |turns| ==> Inside(v.before, turns[i].after)
  {
    hide LoopSite, Caught, Chain, TurnOk;
    VerdictTurn(v, asked, budget);
    RunsStayInLoop(v.before, v.after, turns, t, flags, limit, budget);
    CaughtAt(v.before, v.after, budget);
    forall i | 0 <= i < |turns| ensures Inside(v.before, turns[i].after) {
      CaughtAt(v.before, turns[i].after, budget);
    }
  }
}
