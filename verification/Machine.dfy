/** The emulator object (x86emu_t with its x86emu_regs_t) and its state as a value. */
module Machine {
  import opened Words
  import opened Bits
  import opened FlatMemory
  import opened PagedMemory
  import opened MemoryLaws

  /** The flags register, bit by bit; `high` is bits 12 and up. */
  datatype Flags = Flags(cf: bool, b1: bool, pf: bool, b3: bool, af: bool, b5: bool, zf: bool, sf: bool,
                         tf: bool, ifl: bool, df: bool, of: bool, high: u20)

  type u20 = x: int | 0 <= x < 0x10_0000

  /** A bit in front of the higher bits. */
  function Join2(b: bool, rest: nat): nat { (if b then 1 else 0) + 2 * rest }

  predicate Odd(x: nat) { x % 2 == 1 }

  lemma Splits(b: bool, rest: nat)
    ensures Odd(Join2(b, rest)) == b && Join2(b, rest) / 2 == rest
    ensures forall n: nat :: rest < n ==> Join2(b, rest) < 2 * n
  {
  }

  /** CF, 1, PF, 3, AF, 5, ZF, SF */
  function StatusBits(f: Flags): nat {
    Join2(f.cf, Join2(f.b1, Join2(f.pf, Join2(f.b3, Join2(f.af, Join2(f.b5, Join2(f.zf, Join2(f.sf, 0))))))))
  }

  /** TF, IF, DF, OF */
  function ControlBits(f: Flags): nat { Join2(f.tf, Join2(f.ifl, Join2(f.df, Join2(f.of, 0)))) }

  function FlagsWord(f: Flags): u32 { U32(StatusBits(f) + 0x100 * ControlBits(f) + 0x1000 * f.high) }

  function Unpack(s0: nat, c0: nat, high: u20): Flags {
    var s1 := s0 / 2; var s2 := s1 / 2; var s3 := s2 / 2; var s4 := s3 / 2; var s5 := s4 / 2; var s6 := s5 / 2;
    var c1 := c0 / 2; var c2 := c1 / 2;
    Flags(Odd(s0), Odd(s1), Odd(s2), Odd(s3), Odd(s4), Odd(s5), Odd(s6), Odd(s6 / 2),
          Odd(c0), Odd(c1), Odd(c2), Odd(c2 / 2), high)
  }

  function FlagsOf(w: u32): Flags { Unpack(w % 0x100, w / 0x100 % 0x10, w / 0x1000) }

  lemma StatusSplits(f: Flags)
    ensures var s0 := StatusBits(f);
      var s1 := s0 / 2; var s2 := s1 / 2; var s3 := s2 / 2; var s4 := s3 / 2; var s5 := s4 / 2; var s6 := s5 / 2;
      && s0 < 0x100 && Odd(s0) == f.cf && Odd(s1) == f.b1 && Odd(s2) == f.pf && Odd(s3) == f.b3 && Odd(s4) == f.af
      && Odd(s5) == f.b5 && Odd(s6) == f.zf && Odd(s6 / 2) == f.sf
  {
    hide Join2, Odd;
    var x7 := Join2(f.sf, 0);
    var x6 := Join2(f.zf, x7);
    var x5 := Join2(f.b5, x6);
    var x4 := Join2(f.af, x5);
    var x3 := Join2(f.b3, x4);
    var x2 := Join2(f.pf, x3);
    var x1 := Join2(f.b1, x2);
    Splits(f.sf, 0);
    Splits(f.zf, x7);
    Splits(f.b5, x6);
    Splits(f.af, x5);
    Splits(f.b3, x4);
    Splits(f.pf, x3);
    Splits(f.b1, x2);
    Splits(f.cf, x1);
    assert x7 < 2 * 1 && x6 < 2 * 2 && x5 < 2 * 4 && x4 < 2 * 8 && x3 < 2 * 16 && x2 < 2 * 32 && x1 < 2 * 64;
  }

  lemma ControlSplits(f: Flags)
    ensures var c0 := ControlBits(f);
      var c1 := c0 / 2; var c2 := c1 / 2;
      c0 < 0x10 && Odd(c0) == f.tf && Odd(c1) == f.ifl && Odd(c2) == f.df && Odd(c2 / 2) == f.of
  {
    hide Join2, Odd;
    var x2 := Join2(f.of, 0);
    var x1 := Join2(f.df, x2);
    var x0 := Join2(f.ifl, x1);
    Splits(f.of, 0);
    Splits(f.df, x2);
    Splits(f.ifl, x1);
    Splits(f.tf, x0);
    assert x2 < 2 * 1 && x1 < 2 * 2 && x0 < 2 * 4;
  }

  lemma Unpacks(f: Flags)
    ensures StatusBits(f) < 0x100 && ControlBits(f) < 0x10 && Unpack(StatusBits(f), ControlBits(f), f.high) == f
  {
    StatusSplits(f);
    ControlSplits(f);
    hide StatusBits, ControlBits, Odd;
  }

  lemma Pack(s: nat, c: nat, h: nat)
    requires s < 0x100 && c < 0x10 && h < 0x10_0000
    ensures var x := s + 0x100 * c + 0x1000 * h;
      && x < 0x1_0000_0000 && x % 0x100 == s && x / 0x100 % 0x10 == c && x / 0x1000 == h
      && x % 0x1_0000 == s + 0x100 * c + 0x1000 * (h % 0x10)
  {
    var x := s + 0x100 * c + 0x1000 * h;
    DivUnique(x, 0x100, c + 0x10 * h, s);
    DivUnique(c + 0x10 * h, 0x10, h, c);
    DivUnique(x, 0x1000, h, s + 0x100 * c);
    DivUnique(x, 0x1_0000, h / 0x10, s + 0x100 * c + 0x1000 * (h % 0x10));
  }

  /** The register read back from its word. */
  lemma FlagsOfWord(f: Flags)
    ensures FlagsOf(FlagsWord(f)) == f
    ensures FlagsWord(f) == StatusBits(f) + 0x100 * ControlBits(f) + 0x1000 * f.high
  {
    hide StatusBits, ControlBits, Unpack;
    Unpacks(f);
    Pack(StatusBits(f), ControlBits(f), f.high);
  }

  /** A 16-bit push and pop keeps flags 0 to 15 and drops the rest. */
  lemma FlagsOfLow(f: Flags)
    ensures FlagsOf(FlagsWord(f) % 0x1_0000) == f.(high := f.high % 0x10)
  {
    hide Join2, Odd;
    var g := f.(high := f.high % 0x10);
    assert StatusBits(g) == StatusBits(f) && ControlBits(g) == ControlBits(f);
    hide StatusBits, ControlBits, FlagsOf, FlagsWord;
    Unpacks(f);
    Pack(StatusBits(f), ControlBits(f), f.high);
    FlagsOfWord(f);
    FlagsOfWord(g);
  }

  // ---- registers, segments, mode ----

  datatype Regs = Regs(eax: u32, ecx: u32, edx: u32, ebx: u32, esp: u32, ebp: u32, esi: u32, edi: u32)

  /** A segment register: selector and descriptor cache (sel_t). */
  datatype Seg = Seg(sel: u16, base: u32, limit: u32, acc: u16)

  datatype SegReg = ES | CS | SS | DS | FS | GS

  datatype Segs = Segs(es: Seg, cs: Seg, ss: Seg, ds: Seg, fs: Seg, gs: Seg) {
    function Get(r: SegReg): Seg {
      match r
      case ES => es
      case CS => cs
      case SS => ss
      case DS => ds
      case FS => fs
      case GS => gs
    }

    function Set(r: SegReg, v: Seg): Segs {
      match r
      case ES => this.(es := v)
      case CS => this.(cs := v)
      case SS => this.(ss := v)
      case DS => this.(ds := v)
      case FS => this.(fs := v)
      case GS => this.(gs := v)
    }
  }

  datatype DescrTable = DescrTable(base: u32, limit: u32)

  /** Descriptor tables and CR0.PE. */
  datatype Sys = Sys(gdt: DescrTable, ldt: DescrTable, idt: DescrTable, protected: bool)

  /** The _MODE_ bits; `dsIsSs` selects SS as default data segment. */
  datatype Mode = Mode(data32: bool, addr32: bool, stack32: bool, code32: bool, repe: bool, repne: bool,
                       halted: bool, dsIsSs: bool)

  /** intr_type, intr_nr and intr_errcode; NoIntr is type 0. */
  datatype Intr = NoIntr | Raised(nr: u8, fault: bool, restart: bool, errcode: Option<u32>)

  type Request = i: Intr | i.Raised? witness Raised(0, false, false, None)

  /** The pending interrupt, and every request made so far; the second is a record the program does not keep. */
  datatype IntrLine = IntrLine(pending: Intr, made: seq<Request>)

  /** Everything the instructions read or write. */
  datatype St = St(gen: Regs, eip: u32, f: Flags, segs: Segs, sys: Sys, mode: Mode, override: Option<SegReg>,
                   savedEip: u32, savedCs: u16, intr: IntrLine, tsc: u64, mem: FlatMem)

  function PlainMode(): Mode { Mode(false, false, false, false, false, false, false, false) }

  function ResetSegs(): Segs {
    var data := Seg(0, 0, 0xffff, 0x93);
    Segs(data, Seg(0xf000, 0xf0000, 0xffff, 0x9b), data, data, data, data)
  }

  function ResetState(mem: FlatMem): St {
    St(Regs(0, 0, 0, 0, 0, 0, 0, 0), 0xfff0, FlagsOf(2), ResetSegs(),
       Sys(DescrTable(0, 0xffff), DescrTable(0, 0), DescrTable(0, 0xffff), false), PlainMode(), None, 0, 0,
         IntrLine(NoIntr, []), 0, mem)
  }

  // ---- interrupts are raised once ----

  /** x86emu_intr_raise: the first request stays, later ones are dropped. */
  function Raise(line: IntrLine, i: Request): IntrLine {
    IntrLine(if line.pending.NoIntr? then i else line.pending, line.made + [i])
  }

  /** What is pending after `requests`: the first request there is. */
  function FirstOf(pending: Intr, requests: seq<Request>): Intr {
    if pending.Raised? || requests == [] then pending else requests[0]
  }

  /** From `l` to `m` requests were only added, and the first of all is the one that is pending. */
  predicate Queued(l: IntrLine, m: IntrLine) {
    l.made <= m.made && m.pending == FirstOf(l.pending, m.made[|l.made|..])
  }

  lemma QueuedTrans(l: IntrLine, m: IntrLine, n: IntrLine)
    requires Queued(l, m) && Queued(m, n)
    ensures Queued(l, n)
  {
    var i, j := |l.made|, |m.made|;
    assert n.made[i..] == m.made[i..] + n.made[j..];
  }

  lemma RaiseQueues(l: IntrLine, i: Request)
    ensures Queued(l, l) && Queued(l, Raise(l, i))
  {
    assert Raise(l, i).made[|l.made|..] == [i];
  }

  function GpFault(err: u32): Request { Raised(0x0d, true, true, Some(err)) }

  // ---- data accesses ----

  function SizeOf(n: Width): Size { if n == 1 then 0 else if n == 2 then 1 else 2 }

  /** check_data_access: a limit violation only requests a fault. */
  function Check(s: St, seg: Seg, ofs: u32, n: Width): St {
    if U32(ofs + n - 1) > seg.limit then s.(intr := Raise(s.intr, GpFault(seg.sel))) else s
  }

  function Fetch(s: St, seg: Seg, ofs: u32, n: Width): (St, u32) {
    var t := Check(s, seg, ofs, n);
    var r := ReadN(t.mem.(invalid := false), U32(seg.base + ofs), n);
    (t.(mem := r.0), r.1)
  }

  function Store(s: St, seg: Seg, ofs: u32, n: Width, v: u32): St {
    var t := Check(s, seg, ofs, n);
    t.(mem := WriteN(t.mem.(invalid := false), U32(seg.base + ofs), n, v))
  }

  /** A write to the low half of a register. */
  lemma SetLo16Is(x: u32, v: u16)
    ensures Lo16(SetLo16(x, v)) == v && SetLo16(x, v) / 0x1_0000 == x / 0x1_0000
  {
    var q := x / 0x1_0000;
    assert SetLo16(x, v) == 0x1_0000 * q + v;
  }

  // ---- instruction fetch ----

  function NextIp(s: St, n: Width): u32 {
    if s.mode.code32 then U32(s.eip + n) else SetLo16(s.eip, U16(Lo16(s.eip) + n))
  }

  /** fetch_byte, fetch_word, fetch_long: a byte that may not be executed halts, but the pointer still advances. */
  function FetchCode(s: St, n: Width): (St, u32) {
    var (m, val, err) := MemIo(s.mem, U32(s.segs.cs.base + s.eip), 0, KExec, SizeOf(n));
    (s.(mem := m, mode := s.mode.(halted := s.mode.halted || err), eip := NextIp(s, n)), Low(val, n))
  }

  /** x86emu_t, without its logging, I/O ports and host callbacks. */
  class Emu {
    var gen: Regs
    var eip: u32
    var f: Flags
    var segs: Segs
    var sys: Sys
    var mode: Mode
    var override: Option<SegReg>
    var savedEip: u32
    var savedCs: u16
    var intr: Intr
    ghost var made: seq<Request>
    var tsc: u64
    const mem: Mem

    ghost predicate Valid()
      reads this, mem, mem.Repr()
    {
      mem.Valid() && (this as object?) !in mem.Repr()
    }

    ghost function State(): St
      requires Valid()
      reads this, mem, mem.Repr(), mem.host
    {
      St(gen, eip, f, segs, sys, mode, override, savedEip, savedCs, IntrLine(intr, made), tsc, mem.View())
    }

    /** x86emu_new and x86emu_reset */
    constructor (memory: Mem)
      requires memory.Valid()
      ensures Valid() && mem == memory && State() == ResetState(memory.View())
    {
      gen := Regs(0, 0, 0, 0, 0, 0, 0, 0);
      eip := 0xfff0;
      f := FlagsOf(2);
      segs := ResetSegs();
      sys := Sys(DescrTable(0, 0xffff), DescrTable(0, 0), DescrTable(0, 0xffff), false);
      mode := PlainMode();
      override := None;
      savedEip, savedCs := 0, 0;
      intr := NoIntr;
      made := [];
      tsc := 0;
      mem := memory;
    }

    ghost function Line(): IntrLine
      reads `intr, `made
    {
      IntrLine(intr, made)
    }

    method IntrRaise(i: Request)
      modifies `intr, `made
      ensures Line() == Raise(old(Line()), i)
    {
      made := made + [i];
      if intr.NoIntr? {
        intr := i;
      }
    }

    /** decode_memio with the default handler */
    method DecodeMemio(addr: u32, val: u32, kind: Kind, size: Size) returns (val': u32, err: bool)
      requires Valid()
      modifies mem, mem.Repr(), mem.host
      ensures Valid() && fresh(mem.Repr() - old(mem.Repr()))
      ensures State().mem == MemIo(old(mem.View()), addr, val, kind, size).0
      ensures State() == old(State()).(mem := State().mem)
      ensures (val', err) ==
        (MemIo(old(mem.View()), addr, val, kind, size).1, MemIo(old(mem.View()), addr, val, kind, size).2)
    {
      hide Mem.Valid, Mem.Clean, MemIo;
      val', err := mem.MemIo(addr, val, kind, size);
    }

    method CheckDataAccess(seg: Seg, ofs: u32, n: Width)
      requires Valid()
      modifies `intr, `made
      ensures Valid() && State() == Check(old(State()), seg, ofs, n)
    {
      hide Mem.Valid;
      if U32(ofs + n - 1) > seg.limit {
        IntrRaise(GpFault(seg.sel));
      }
    }

    /** fetch_data_{byte,word,long}_abs */
    method FetchData(seg: Seg, ofs: u32, n: Width) returns (v: u32)
      requires Valid()
      modifies `intr, `made, mem, mem.Repr(), mem.host
      ensures Valid() && fresh(mem.Repr() - old(mem.Repr()))
      ensures (State(), v) == Fetch(old(State()), seg, ofs, n)
    {
      hide Mem.Valid, RByte, RWord, RDword;
      CheckDataAccess(seg, ofs, n);
      var e;
      v, e := DecodeMemio(U32(seg.base + ofs), 0, KRead, SizeOf(n));
    }

    /** store_data_{byte,word,long}_abs */
    method StoreData(seg: Seg, ofs: u32, n: Width, v: u32)
      requires Valid()
      modifies `intr, `made, mem, mem.Repr(), mem.host
      ensures Valid() && fresh(mem.Repr() - old(mem.Repr()))
      ensures State() == Store(old(State()), seg, ofs, n, v)
    {
      hide Mem.Valid, WByte, WWord, WDword;
      CheckDataAccess(seg, ofs, n);
      var v', e := DecodeMemio(U32(seg.base + ofs), v, KWrite, SizeOf(n));
    }

    /** The bytes of an immediate; one that may not be executed halts. */
    method FetchBytes(n: Width) returns (val: u32)
      requires Valid()
      modifies `mode, mem, mem.Repr(), mem.host
      ensures Valid() && fresh(mem.Repr() - old(mem.Repr()))
      ensures var s := old(State());
        var (m, v, err) := MemIo(s.mem, U32(s.segs.cs.base + s.eip), 0, KExec, SizeOf(n));
        val == v && State() == s.(mem := m, mode := s.mode.(halted := s.mode.halted || err))
    {
      hide Mem.Valid, FlatMemory.MemIo, U32;
      var err;
      val, err := DecodeMemio(U32(segs.cs.base + eip), 0, KExec, SizeOf(n));
      if err {
        mode := mode.(halted := true);
      }
    }

    /** fetch_byte, fetch_word and fetch_long */
    method FetchImm(n: Width) returns (v: u32)
      requires Valid()
      modifies `mode, `eip, mem, mem.Repr(), mem.host
      ensures Valid() && fresh(mem.Repr() - old(mem.Repr()))
      ensures (State(), v) == FetchCode(old(State()), n)
    {
      hide Mem.Valid, FlatMemory.MemIo, SetLo16, U16, U32, Low;
      var val := FetchBytes(n);
      eip := if mode.code32 then U32(eip + n) else SetLo16(eip, U16(Lo16(eip) + n));
      v := Low(val, n);
    }
  }
}
