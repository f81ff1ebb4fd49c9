/** The prefix loop of the run loop: how long it can take, and when it does not end. */
module Prefixes {
  import opened Words
  import opened Bits
  import opened FlatMemory
  import opened MemoryLaws
  import opened Machine
  import opened Frames
  import opened RunLoop
  import opened EndlessLoop

  /** Where the `k`-th byte from EIP on is fetched, with the 16-bit pointer wrapping in its own 64K. */
  function IpAfter(s: St, k: nat): u32 {
    if s.mode.code32 then U32(s.eip + k) else SetLo16(s.eip, U16(Lo16(s.eip) + k))
  }

  /** What an instruction fetch reads at `a`. */
  function FetchedAt(f: FlatMem, a: u32): u8 { if Has(Attr(f, a), PERM_X) then Data(f, a) else 0xff }

  /** The `k`-th byte of the instruction. */
  function CodeByte(s: St, k: nat): u8 { FetchedAt(s.mem, U32(s.segs.cs.base + IpAfter(s, k))) }

  lemma OneByte(s: St)
    ensures var (t, b) := FetchByte(s);
      && b == CodeByte(s, 0) && SameCode(s.mem, t.mem)
      && t == s.(mem := t.mem, mode := s.mode.(halted := t.mode.halted), eip := IpAfter(s, 1))
  {
    FirstByte(s);
    hide FetchCode, SetLo16, U16, SameCode, FetchedAt;
    FetchCodeLaw(s, 1);
  }

  lemma FirstByte(s: St)
    ensures FetchByte(s).1 == CodeByte(s, 0)
  {
    hide Touch, SetLo16, U16, Lo16;
    NoStep(s);
  }

  lemma NoStep(s: St)
    ensures IpAfter(s, 0) == s.eip
  {
    DivMod(s.eip, 0x1_0000);
    DivUnique(Lo16(s.eip), 0x1_0000, 0, Lo16(s.eip));
    DivUnique(s.eip, 0x1_0000_0000, 0, s.eip);
  }

  lemma SameFetched(f: FlatMem, g: FlatMem, a: u32)
    requires SameCode(f, g)
    ensures FetchedAt(g, a) == FetchedAt(f, a)
  {
    hide Has, Perms;
    PermsFix(Attr(f, a), Attr(g, a));
  }

  /** The bytes seen from behind one prefix. */
  lemma NextBytes(s: St, k: nat)
    ensures var (t, b) := FetchByte(s);
      CodeByte(ApplyPrefix(t, b), k) == CodeByte(s, k + 1)
  {
    hide FetchByte, FetchedAt, SameCode, IpAfter, U32;
    var (t, b) := FetchByte(s);
    var u := ApplyPrefix(t, b);
    OneByte(s);
    PrefixTwins(t, t, b);
    IpFrom(s, u, k);
    SameFetched(s.mem, t.mem, U32(s.segs.cs.base + IpAfter(s, k + 1)));
  }

  lemma IpFrom(s: St, t: St, k: nat)
    requires t.mode.code32 == s.mode.code32 && t.eip == IpAfter(s, 1)
    ensures IpAfter(t, k) == IpAfter(s, k + 1)
  {
    hide SetLo16, Lo16, U16, U32;
    if s.mode.code32 {
      Mod32(s.eip + 1, k);
    } else {
      var v := U16(Lo16(s.eip) + 1);
      SetLo16Is(s.eip, v);
      Mod16(Lo16(s.eip) + 1, k);
      SetLo16Twice(s.eip, v, U16(v + k));
    }
  }

  lemma Mod16(x: int, y: int)
    ensures U16(U16(x) + y) == U16(x + y)
  {
    DivUnique(U16(x) + y, 0x1_0000, (x + y) / 0x1_0000 - x / 0x1_0000, U16(x + y));
  }

  lemma SetLo16Twice(x: u32, v: u16, v': u16)
    ensures SetLo16(SetLo16(x, v), v') == SetLo16(x, v')
  {
    SetLo16Is(x, v);
    DivMod(x, 0x1_0000);
    DivMod(SetLo16(x, v), 0x1_0000);
  }

  /** The loop gives up exactly when all the bytes it may look at are prefixes. */
  lemma {:induction false} HungIs(s: St, budget: nat)
    ensures FetchOpcode(s, budget).1.None? <==> forall k: nat :: k <= budget ==> IsPrefix(CodeByte(s, k))
    decreases budget
  {
    hide FetchByte, CodeByte, IsPrefix, ApplyPrefix;
    OneByte(s);
    var (t, b) := FetchByte(s);
    if IsPrefix(b) && budget > 0 {
      var u := ApplyPrefix(t, b);
      HungIs(u, budget - 1);
      forall k: nat ensures CodeByte(u, k) == CodeByte(s, k + 1) {
        NextBytes(s, k);
      }
      if FetchOpcode(s, budget).1.None? {
        forall k: nat | k <= budget ensures IsPrefix(CodeByte(s, k)) {
          assert k > 0 ==> IsPrefix(CodeByte(u, k - 1));
        }
      } else {
        var k: nat :| k <= budget - 1 && !IsPrefix(CodeByte(u, k));
        assert !IsPrefix(CodeByte(s, k + 1));
      }
    }
  }

  /** After 2^32 bytes the pointer has been everywhere it can get. */
  lemma ComesRound(s: St, k: nat)
    ensures CodeByte(s, k) == CodeByte(s, k % 0x1_0000_0000)
  {
    hide FetchedAt, SetLo16;
    DivMod(k, 0x1_0000_0000);
    var q, r := k / 0x1_0000_0000, k % 0x1_0000_0000;
    if s.mode.code32 {
      var x := s.eip + r;
      DivMod(x, 0x1_0000_0000);
      DivUnique(s.eip + k, 0x1_0000_0000, x / 0x1_0000_0000 + q, x % 0x1_0000_0000);
    } else {
      var x := Lo16(s.eip) + r;
      DivMod(x, 0x1_0000);
      DivUnique(Lo16(s.eip) + k, 0x1_0000, x / 0x1_0000 + 0x1_0000 * q, x % 0x1_0000);
    }
  }

  /** What a smaller budget finds, a larger one finds too. */
  lemma {:induction false} BudgetGrows(s: St, budget: nat, more: nat)
    requires FetchOpcode(s, budget).1.Some? && budget <= more
    ensures FetchOpcode(s, more) == FetchOpcode(s, budget)
    decreases budget
  {
    hide FetchByte, IsPrefix, ApplyPrefix;
    var (t, b) := FetchByte(s);
    if IsPrefix(b) && budget > 0 {
      BudgetGrows(ApplyPrefix(t, b), budget - 1, more - 1);
    }
  }

  /**
  Theorem: 2^32 - 1 prefixes are as good as any number. The prefix loop of the code ends if and only if it ends within
  that budget, and a budget that is large enough for it to end gives the same opcode and the same state.
  */
  lemma PrefixLoopIsExact(s: St, budget: nat)
    ensures var r := FetchOpcode(s, 0xffff_ffff);
      && (FetchOpcode(s, budget).1.Some? ==> FetchOpcode(s, budget) == r)
      && (r.1.Some? && budget >= 0xffff_ffff ==> FetchOpcode(s, budget) == r)
      && (r.1.None? <==> forall b: nat :: FetchOpcode(s, b).1.None?)
  {
    hide FetchOpcode, CodeByte, IsPrefix;
    HungIs(s, 0xffff_ffff);
    if FetchOpcode(s, 0xffff_ffff).1.None? {
      forall b: nat ensures FetchOpcode(s, b).1.None? {
        HungIs(s, b);
        forall k: nat | k <= b ensures IsPrefix(CodeByte(s, k)) {
          ComesRound(s, k);
        }
      }
    } else if budget >= 0xffff_ffff {
      BudgetGrows(s, 0xffff_ffff, budget);
    } else if FetchOpcode(s, budget).1.Some? {
      BudgetGrows(s, budget, 0xffff_ffff);
    }
  }

  // ---- what the prefixes of an instruction mean ----

  /** The eleven prefix bytes. */
  predicate PrefixByte(b: u8) {
    (0x26 <= b <= 0x3e && b % 8 == 6) || 0x64 <= b <= 0x67 || b == 0xf0 || b == 0xf2 || b == 0xf3
  }

  lemma PrefixBytes(b: u8)
    ensures IsPrefix(b) == PrefixByte(b)
  {
  }

  /** The segment a prefix byte selects. */
  function SegmentOf(b: u8): Option<SegReg> {
    match b
    case 0x26 => Some(ES)
    case 0x2e => Some(CS)
    case 0x36 => Some(SS)
    case 0x3e => Some(DS)
    case 0x64 => Some(FS)
    case 0x65 => Some(GS)
    case _ => None
  }

  /** The last segment prefix counts. */
  function LastSegment(bs: seq<u8>, start: Option<SegReg>): Option<SegReg> {
    if bs == [] then start
    else if SegmentOf(bs[|bs| - 1]).Some? then SegmentOf(bs[|bs| - 1]) else LastSegment(bs[..|bs| - 1], start)
  }

  function Times(bs: seq<u8>, b: u8): nat {
    if bs == [] then 0 else (if bs[0] == b then 1 else 0) + Times(bs[1..], b)
  }

  lemma {:induction false} SegmentFirst(b: u8, bs: seq<u8>, start: Option<SegReg>)
    ensures LastSegment([b] + bs, start) == LastSegment(bs, if SegmentOf(b).Some? then SegmentOf(b) else start)
    decreases |bs|
  {
    hide SegmentOf;
    var all, k := [b] + bs, |bs|;
    assert all[|all| - 1] == if bs == [] then b else bs[k - 1];
    if bs == [] {
      assert all[..0] == [];
    } else {
      assert all[..|all| - 1] == [b] + bs[..k - 1];
      SegmentFirst(b, bs[..k - 1], start);
    }
  }

  /** Mode and override after the prefixes `bs`. */
  predicate Prefixed(s: St, p: St, bs: seq<u8>) {
    && p.mode == s.mode.(data32 := s.mode.data32 != (Times(bs, 0x66) % 2 == 1),
                         addr32 := s.mode.addr32 != (Times(bs, 0x67) % 2 == 1),
                         repne := s.mode.repne || 0xf2 in bs, repe := s.mode.repe || 0xf3 in bs,
                         halted := p.mode.halted)
    && p.override == LastSegment(bs, s.override)
  }

  lemma PrefixedNone(s: St, p: St)
    requires p.mode == s.mode.(halted := p.mode.halted) && p.override == s.override
    ensures Prefixed(s, p, [])
  {
  }

  lemma FirstOdd(bs: seq<u8>, b: u8, c: u8)
    ensures (Times([b] + bs, c) % 2 == 1) == ((Times(bs, c) % 2 == 1) != (b == c))
    ensures c in [b] + bs <==> c == b || c in bs
  {
    assert ([b] + bs)[1..] == bs;
  }

  lemma PrefixedNext(s: St, t: St, p: St, b: u8, bs: seq<u8>)
    requires t.mode == s.mode.(halted := t.mode.halted) && t.override == s.override
    requires Prefixed(ApplyPrefix(t, b), p, bs)
    ensures Prefixed(s, p, [b] + bs)
  {
    hide LastSegment, Times;
    FirstOdd(bs, b, 0x66);
    FirstOdd(bs, b, 0x67);
    FirstOdd(bs, b, 0xf2);
    FirstOdd(bs, b, 0xf3);
    SegmentFirst(b, bs, s.override);
    var m := p.mode;
    assert m == Mode(m.data32, m.addr32, m.stack32, m.code32, m.repe, m.repne, m.halted, m.dsIsSs);
  }

  /** The first `k` code bytes. */
  function Codes(s: St, k: nat): seq<u8> { seq(k, j requires 0 <= j < k => CodeByte(s, j)) }

  /** The `k`-th byte of the instruction may be executed and is initialised. */
  predicate Executable(s: St, k: nat) { Runs(s.mem, U32(s.segs.cs.base + IpAfter(s, k))) }

  lemma {:induction false} PrefixWalk(s: St, budget: nat, k: nat)
    requires k <= budget && !IsPrefix(CodeByte(s, k)) && forall j: nat :: j < k ==> IsPrefix(CodeByte(s, j))
    ensures var (p, op) := FetchOpcode(s, budget);
      && op == Some(CodeByte(s, k)) && p.eip == IpAfter(s, k + 1) && Prefixed(s, p, Codes(s, k))
      && (p.mode.halted <==> s.mode.halted || exists j: nat :: j <= k && !Executable(s, j))
    decreases k
  {
    hide FetchByte, CodeByte, IsPrefix, ApplyPrefix, Prefixed, Executable, IpAfter, SameCode;
    OneByte(s);
    OneHalt(s);
    var (t, b) := FetchByte(s);
    if k == 0 {
      PrefixedNone(s, t);
      assert Codes(s, 0) == [];
    } else {
      var u := ApplyPrefix(t, b);
      forall j: nat ensures CodeByte(u, j) == CodeByte(s, j + 1) && Executable(u, j) == Executable(s, j + 1) {
        NextBytes(s, j);
        NextExecutable(s, j);
      }
      assert b == CodeByte(s, 0) && IsPrefix(b);
      PrefixWalk(u, budget - 1, k - 1);
      var p := FetchOpcode(u, budget - 1).0;
      PrefixTwins(t, t, b);
      AppliedIp(s, t, b, k);
      assert Codes(s, k) == [b] + Codes(u, k - 1);
      PrefixedNext(s, t, p, b, Codes(u, k - 1));
      HaltedFrom(s, u, k);
    }
  }

  /** The halts along the way, split after the first byte. */
  lemma HaltedFrom(s: St, u: St, k: nat)
    requires k > 0 && forall j: nat :: Executable(u, j) == Executable(s, j + 1)
    ensures (exists j: nat :: j <= k && !Executable(s, j)) <==>
      !Executable(s, 0) || exists j: nat :: j <= k - 1 && !Executable(u, j)
  {
    hide Executable;
    if j: nat :| j <= k && !Executable(s, j) {
      assert j > 0 ==> !Executable(u, j - 1);
    }
    if j: nat :| j <= k - 1 && !Executable(u, j) {
      assert !Executable(s, j + 1);
    }
  }

  lemma AppliedIp(s: St, t: St, b: u8, k: nat)
    requires k > 0 && t.eip == IpAfter(s, 1) && t.mode.code32 == s.mode.code32
    ensures IpAfter(ApplyPrefix(t, b), k) == IpAfter(s, k + 1)
  {
    hide IpAfter, PrefixMode;
    PrefixKeeps(b, t.mode);
    IpFrom(s, ApplyPrefix(t, b), k);
  }

  lemma OneHalt(s: St)
    ensures var t := FetchByte(s).0;
      && (t.mode.halted <==> s.mode.halted || !Executable(s, 0))
      && t.mode == s.mode.(halted := t.mode.halted) && t.override == s.override
  {
    NoStep(s);
    hide FetchCode, IpAfter, SameCode, CodeValue, Runs, U8;
    FetchCodeLaw(s, 1);
  }

  lemma NextExecutable(s: St, k: nat)
    ensures var (t, b) := FetchByte(s); Executable(ApplyPrefix(t, b), k) == Executable(s, k + 1)
  {
    hide FetchByte, SameLayout, SameData, IpAfter, U32;
    var (t, b) := FetchByte(s);
    var u := ApplyPrefix(t, b);
    OneByte(s);
    PrefixTwins(t, t, b);
    IpFrom(s, u, k);
    var a := U32(s.segs.cs.base + IpAfter(s, k + 1));
    if Runs(s.mem, a) {
      RunsOn(s.mem, t.mem, a);
    }
    if Runs(t.mem, a) {
      RunsOn(t.mem, s.mem, a);
    }
  }

  /**
  Theorem: how an iteration decodes up to its opcode, the first byte that is no prefix. Sizes come from the attributes
  of CS and SS, each 0x66 or 0x67 switching once; the last segment prefix counts; the machine is halted exactly if
  one of the bytes up to the opcode may not be executed or was never initialised.
  */
  lemma PrefixesMean(s: St, budget: nat, k: nat)
    requires k <= budget && !PrefixByte(CodeByte(Begin(s), k))
    requires forall j: nat :: j < k ==> PrefixByte(CodeByte(Begin(s), j))
    ensures var (p, op) := FetchOpcode(Begin(s), budget); var bs := Codes(Begin(s), k);
      var wide := s.segs.cs.acc / 0x400 % 2 == 1;
      && op == Some(CodeByte(Begin(s), k)) && p.eip == IpAfter(Begin(s), k + 1)
      && p.mode == Mode(wide != (Times(bs, 0x66) % 2 == 1), wide != (Times(bs, 0x67) % 2 == 1),
                        s.segs.ss.acc / 0x400 % 2 == 1, wide, 0xf3 in bs, 0xf2 in bs, p.mode.halted, false)
      && (p.mode.halted <==> exists j: nat :: j <= k && !Executable(Begin(s), j))
      && p.override == LastSegment(bs, None) && p.savedEip == s.eip && p.savedCs == s.segs.cs.sel
  {
    hide FetchOpcode, CodeByte, IsPrefix, PrefixByte, Executable, Times, LastSegment, SameCode;
    var b := Begin(s);
    forall j: nat ensures IsPrefix(CodeByte(b, j)) == PrefixByte(CodeByte(b, j)) {
      PrefixBytes(CodeByte(b, j));
    }
    PrefixWalk(b, budget, k);
    OpcodeLaw(b, budget);
  }
}
