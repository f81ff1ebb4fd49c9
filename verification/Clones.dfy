/** A memory and its clone used side by side: each behaves as if the other did not exist, but for shared host memory. */
module Clones {
  import opened Words
  import opened FlatMemory
  import opened PagedMemory
  import opened MemoryTraces

  datatype Who = Original | Copy

  /** An operation on one of the two memories. */
  datatype Call = Call(who: Who, op: Op)

  predicate CallsOk(calls: seq<Call>) { forall i :: 0 <= i < |calls| ==> calls[i].op.Ok() }

  /** The two references; their host memory is the same. */
  datatype Couple = Couple(original: Tracked, copy: Tracked)

  /** `t` after somebody else has changed the host memory to that of `u`. */
  function Rehost(t: Tracked, u: Tracked): Tracked { t.(mem := t.mem.(host := u.mem.host)) }

  ghost function ApplyCall(p: Couple, c: Call): (Couple, Answer)
    requires c.op.Ok()
  {
    if c.who == Original then
      var (t, a) := Apply(p.original, c.op);
      (Couple(t, Rehost(p.copy, t)), a)
    else
      var (t, a) := Apply(p.copy, c.op);
      (Couple(Rehost(p.original, t), t), a)
  }

  ghost function CoupleTrace(p: Couple, calls: seq<Call>): Couple
    requires CallsOk(calls)
  {
    if calls == [] then p else ApplyCall(CoupleTrace(p, calls[..|calls| - 1]), calls[|calls| - 1]).0
  }

  ghost function CoupleAnswers(p: Couple, calls: seq<Call>): seq<Answer>
    requires CallsOk(calls)
  {
    if calls == [] then []
    else
      var before := calls[..|calls| - 1];
      CoupleAnswers(p, before) + [ApplyCall(CoupleTrace(p, before), calls[|calls| - 1]).1]
  }

  // ---- the two memories ----

  /** No table or block belongs to both, and both see the same host memory. */
  ghost predicate SideBySide(mem: Mem, copy: Mem)
    reads mem, mem.Repr(), copy, copy.Repr()
  {
    && mem.Valid() && copy.Valid() && mem != copy && copy.host == mem.host
    && mem.Repr() !! copy.Repr() && copy !in mem.Repr() && mem !in copy.Repr()
  }

  ghost function CoupleOf(mem: Mem, copy: Mem): Couple
    requires SideBySide(mem, copy)
    reads mem, mem.Repr(), copy, copy.Repr(), mem.host
  {
    Couple(TrackedOf(mem), TrackedOf(copy))
  }

  /** An operation on `mem` next to `other`. */
  method ApplyNextTo(mem: Mem, other: Mem, op: Op) returns (answer: Answer)
    requires SideBySide(mem, other) && op.Ok()
    modifies mem, mem.Repr(), mem.host
    ensures SideBySide(mem, other) && fresh(mem.Repr() - old(mem.Repr()))
    ensures (TrackedOf(mem), answer) == Apply(old(TrackedOf(mem)), op)
    ensures TrackedOf(other) == Rehost(old(TrackedOf(other)), TrackedOf(mem))
    ensures other.Repr() == old(other.Repr())
  {
    hide Mem.Tree, Mem.Leaves, Mem.Live, Apply;
    answer := ApplyTo(mem, op);
  }

  /** Theorem: whatever is done to a memory and its clone, in any order, they follow their two references. */
  method RunCalls(mem: Mem, copy: Mem, calls: seq<Call>) returns (answers: seq<Answer>)
    requires SideBySide(mem, copy) && CallsOk(calls)
    modifies mem, mem.Repr(), copy, copy.Repr(), mem.host
    ensures SideBySide(mem, copy)
    ensures fresh(mem.Repr() - old(mem.Repr())) && fresh(copy.Repr() - old(copy.Repr()))
    ensures CoupleOf(mem, copy) == CoupleTrace(old(CoupleOf(mem, copy)), calls)
    ensures answers == CoupleAnswers(old(CoupleOf(mem, copy)), calls)
  {
    hide Mem.Valid, Mem.View, Mem.Live, SideBySide, ApplyCall;
    ghost var p := CoupleOf(mem, copy);
    answers := [];
    for i := 0 to |calls|
      invariant SideBySide(mem, copy)
      invariant fresh(mem.Repr() - old(mem.Repr())) && fresh(copy.Repr() - old(copy.Repr()))
      invariant CoupleOf(mem, copy) == CoupleTrace(p, calls[..i]) && answers == CoupleAnswers(p, calls[..i])
    {
      assert calls[..i + 1][..i] == calls[..i];
      var a := OneCall(mem, copy, calls[i]);
      answers := answers + [a];
    }
    assert calls[..|calls|] == calls;
  }

  method OneCall(mem: Mem, copy: Mem, c: Call) returns (a: Answer)
    requires SideBySide(mem, copy) && c.op.Ok()
    modifies mem, mem.Repr(), copy, copy.Repr(), mem.host
    ensures SideBySide(mem, copy)
    ensures fresh(mem.Repr() - old(mem.Repr())) && fresh(copy.Repr() - old(copy.Repr()))
    ensures (CoupleOf(mem, copy), a) == ApplyCall(old(CoupleOf(mem, copy)), c)
  {
    hide Mem.Valid, Mem.Live, Apply;
    if c.who == Original {
      a := ApplyNextTo(mem, copy, c.op);
    } else {
      a := ApplyNextTo(copy, mem, c.op);
    }
  }

  // ---- neither notices the other ----

  /** Everything but the host memory is the same. */
  predicate Alike(f: FlatMem, g: FlatMem) { f.cells == g.cells && f.invalid == g.invalid }

  lemma StepAlike(f: FlatMem, g: FlatMem, a: u32, e: Event)
    requires Alike(f, g)
    ensures Alike(Step(f, a, e), Step(g, a, e))
  {
    hide Touch, Fails, Stored;
  }

  lemma TwoAlike(f: FlatMem, g: FlatMem, a: u32, e: Event, b: u32, e': Event)
    requires Alike(f, g)
    ensures Alike(Step(Step(f, a, e), b, e'), Step(Step(g, a, e), b, e'))
  {
    StepAlike(f, g, a, e);
    hide Step;
    StepAlike(Step(f, a, e), Step(g, a, e), b, e');
  }

  lemma AccessAlike(f: FlatMem, g: FlatMem, addr: u32, val: u32, kind: Kind, size: Size)
    requires f.cells == g.cells
    ensures Alike(MemIo(f, addr, val, kind, size).0, MemIo(g, addr, val, kind, size).0)
    ensures MemIo(f, addr, val, kind, size).2 == MemIo(g, addr, val, kind, size).2
  {
    hide Step, Sees;
    var f0, g0 := f.(invalid := false), g.(invalid := false);
    var a1: u32, a2: u32, a3: u32 := U32(addr + 1), U32(addr + 2), U32(U32(addr + 2) + 1);
    var hi := val / 0x1_0000;
    match kind
    case KRead =>
      StepAlike(f0, g0, addr, Rd);
      StepAlike(f0, g0, addr, RdRaw);
      TwoAlike(f0, g0, addr, Rd, a1, Rd);
      TwoAlike(Step(Step(f0, addr, Rd), a1, Rd), Step(Step(g0, addr, Rd), a1, Rd), a2, Rd, a3, Rd);
    case KExec =>
      StepAlike(f0, g0, addr, Ex);
      TwoAlike(f0, g0, addr, Ex, a1, Ex);
      TwoAlike(Step(Step(f0, addr, Ex), a1, Ex), Step(Step(g0, addr, Ex), a1, Ex), a2, Ex, a3, Ex);
    case KWrite =>
      var e0, e1, e2, e3 := Wr(U8(val)), Wr(U8(val / 0x100)), Wr(U8(hi)), Wr(U8(hi / 0x100));
      StepAlike(f0, g0, addr, e0);
      StepAlike(f0, g0, addr, WrRaw(U8(val)));
      TwoAlike(f0, g0, addr, e0, a1, e1);
      TwoAlike(Step(Step(f0, addr, e0), a1, e1), Step(Step(g0, addr, e0), a1, e1), a2, e2, a3, e3);
  }

  predicate AlikeBoth(t: Tracked, u: Tracked) { Alike(t.mem, u.mem) && t.live == u.live }

  lemma ApplyAlike(t: Tracked, u: Tracked, op: Op)
    requires op.Ok() && AlikeBoth(t, u)
    ensures AlikeBoth(Apply(t, op).0, Apply(u, op).0) && Apply(t, op).1.1 == Apply(u, op).1.1
  {
    hide MemIo, AccessPages, PermPages, PageOf, Unmark, Join;
    match op
    case Access(addr, val, kind, size) =>
      AccessAlike(t.mem, u.mem, addr, val, kind, size);
    case PermRange(start, end, perm) =>
    case MapHost(page, address) =>
    case ResetStats =>
  }

  /** What was done to one of them. */
  function OpsOf(calls: seq<Call>, who: Who): seq<Op> {
    if calls == [] then []
    else
      var c := calls[|calls| - 1];
      OpsOf(calls[..|calls| - 1], who) + if c.who == who then [c.op] else []
  }

  lemma {:induction false} OpsOfOk(calls: seq<Call>, who: Who)
    requires CallsOk(calls)
    ensures AllOk(OpsOf(calls, who))
  {
    if calls != [] {
      OpsOfOk(calls[..|calls| - 1], who);
    }
  }

  function Side(p: Couple, who: Who): Tracked { if who == Original then p.original else p.copy }

  /**
  Theorem: after any history, interleaved in any way, each of the two has the attributes, mappings, own bytes, error
  flag and pages that its own operations alone would have given it.
  */
  lemma {:induction false} NeitherNotices(p: Couple, calls: seq<Call>, who: Who)
    requires CallsOk(calls)
    ensures AllOk(OpsOf(calls, who))
    ensures AlikeBoth(Side(CoupleTrace(p, calls), who), Trace(Side(p, who), OpsOf(calls, who)))
    decreases |calls|
  {
    hide Apply, Alike;
    OpsOfOk(calls, who);
    if calls != [] {
      var before, c := calls[..|calls| - 1], calls[|calls| - 1];
      NeitherNotices(p, before, who);
      var q, ops := CoupleTrace(p, before), OpsOf(before, who);
      if c.who == who {
        assert (ops + [c.op])[..|ops|] == ops;
        ApplyAlike(Side(q, who), Trace(Side(p, who), ops), c.op);
      } else {
        assert ops + [] == ops;
        RehostAlike(Side(q, who), Apply(Side(q, c.who), c.op).0);
      }
    }
    AlikeRefl(Side(p, who));
  }

  lemma RehostAlike(t: Tracked, u: Tracked)
    ensures forall v :: AlikeBoth(t, v) ==> AlikeBoth(Rehost(t, u), v)
  {
  }

  lemma AlikeRefl(t: Tracked)
    ensures AlikeBoth(t, t)
  {
  }

  /** The bytes themselves: those not mapped to host memory are the same too. */
  lemma AlikeData(t: Tracked, u: Tracked, a: u32)
    requires AlikeBoth(t, u) && t.mem.cells[a].loc.None?
    ensures Data(t.mem, a) == Data(u.mem, a)
  {
  }

  /** Theorem: a clone and its original, in use side by side. */
  method CloneSideBySide(mem: Mem, calls: seq<Call>) returns (copy: Mem, answers: seq<Answer>)
    requires mem.Valid() && CallsOk(calls)
    modifies mem, mem.Repr(), mem.host
    ensures fresh(copy) && SideBySide(mem, copy) && AllOk(OpsOf(calls, Original)) && AllOk(OpsOf(calls, Copy))
    ensures var t := old(TrackedOf(mem));
      && CoupleOf(mem, copy) == CoupleTrace(Couple(t, t), calls) && answers == CoupleAnswers(Couple(t, t), calls)
      && AlikeBoth(TrackedOf(mem), Trace(t, OpsOf(calls, Original)))
      && AlikeBoth(TrackedOf(copy), Trace(t, OpsOf(calls, Copy)))
      && (forall a: u32 :: mem.cells[a].loc.None? ==>
            Data(mem.View(), a) == Data(Trace(t, OpsOf(calls, Original)).mem, a))
      && (forall a: u32 :: copy.cells[a].loc.None? ==>
            Data(copy.View(), a) == Data(Trace(t, OpsOf(calls, Copy)).mem, a))
  {
    hide Mem.Tree, Mem.Leaves, Mem.Live, CoupleTrace, CoupleAnswers, Trace, Alike, OpsOf, Data;
    ghost var t := TrackedOf(mem);
    copy := mem.Clone();
    answers := RunCalls(mem, copy, calls);
    NeitherNotices(Couple(t, t), calls, Original);
    NeitherNotices(Couple(t, t), calls, Copy);
    forall a: u32 | mem.cells[a].loc.None?
      ensures Data(mem.View(), a) == Data(Trace(t, OpsOf(calls, Original)).mem, a)
    {
      AlikeData(TrackedOf(mem), Trace(t, OpsOf(calls, Original)), a);
    }
    forall a: u32 | copy.cells[a].loc.None?
      ensures Data(copy.View(), a) == Data(Trace(t, OpsOf(calls, Copy)).mem, a)
    {
      AlikeData(TrackedOf(copy), Trace(t, OpsOf(calls, Copy)), a);
    }
  }
}
