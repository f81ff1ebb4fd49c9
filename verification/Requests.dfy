/**
Interrupt requests. Every handler only adds to the requests made, and of all requests of an iteration the first is
the one that is pending afterwards, is delivered, and is delivered alone.
*/
module Requests {
  import opened Words
  import opened MemoryLaws
  import opened Machine
  import opened Arithmetic
  import opened Stack
  import opened Frames
  import opened EnterLeave
  import opened Interrupts
  import opened Strings
  import opened Scans
  import opened RunLoop

  /** Nothing but requests, if anything, happened to the interrupt line. */
  predicate Queues(s: St, t: St) { Queued(s.intr, t.intr) }

  lemma Chained(s: St, t: St, u: St)
    requires Queues(s, t) && Queues(t, u)
    ensures Queues(s, u)
  {
    QueuedTrans(s.intr, t.intr, u.intr);
  }

  lemma Quietly(s: St, t: St)
    requires t.intr == s.intr
    ensures Queues(s, t)
  {
    RaiseQueues(s.intr, GpFault(0));
  }

  lemma CheckQueues(s: St, seg: Seg, ofs: u32, n: Width)
    ensures Queues(s, Check(s, seg, ofs, n))
  {
    hide Queued, Raise;
    RaiseQueues(s.intr, GpFault(seg.sel));
  }

  lemma FetchQueues(s: St, seg: Seg, ofs: u32, n: Width)
    ensures Queues(s, Fetch(s, seg, ofs, n).0)
  {
    hide ReadN, Check, Queued;
    CheckQueues(s, seg, ofs, n);
  }

  lemma StoreQueues(s: St, seg: Seg, ofs: u32, n: Width, v: u32)
    ensures Queues(s, Store(s, seg, ofs, n, v))
  {
    hide WriteN, Check, Queued;
    CheckQueues(s, seg, ofs, n);
  }

  lemma PushQueues(s: St, n: Width, v: u32)
    ensures Queues(s, Push(s, n, v))
  {
    hide Store, SetLo16, U16, U32, Queued;
    var t := SetSp(s, Sp(s) - n);
    StoreQueues(t, t.segs.ss, Sp(t), n, v);
  }

  lemma PopQueues(s: St, n: Width)
    ensures Queues(s, Pop(s, n).0)
  {
    hide Fetch, SetLo16, U16, U32, Queued;
    FetchQueues(s, s.segs.ss, Sp(s), n);
  }

  lemma {:induction false} PushAllQueues(s: St, items: seq<Item>)
    ensures Queues(s, PushAll(s, items))
    decreases |items|
  {
    hide Push, Queues;
    if items == [] {
      Quietly(s, s);
    } else {
      var t := PushAll(s, items[1..]);
      PushAllQueues(s, items[1..]);
      PushQueues(t, items[0].n, items[0].v);
      Chained(s, t, PushAll(s, items));
    }
  }

  lemma PopRegQueues(s: St, n: Width, i: nat)
    requires i < 8
    ensures Queues(s, PopReg(s, n, i))
  {
    hide Pop, SetReg, Queued;
    PopQueues(s, n);
    Quietly(s, s);
  }

  lemma {:induction false} PopAQueues(s: St, n: Width, k: nat)
    requires k <= 8
    ensures Queues(s, PopA(s, n, k))
    decreases k
  {
    hide PopReg, Queues;
    if k == 0 {
      Quietly(s, s);
    } else {
      PopRegQueues(s, n, k - 1);
      PopAQueues(PopReg(s, n, k - 1), n, k - 1);
      Chained(s, PopReg(s, n, k - 1), PopA(s, n, k));
    }
  }

  lemma MoveQueues(s: St)
    ensures Queues(s, MovsStep(s))
  {
    hide Fetch, Store, Bump, Index, DataSeg, Queued;
    var (t, v) := Fetch(s, DataSeg(s), Index(s, s.gen.esi), 1);
    var u := Store(t, t.segs.es, Index(t, t.gen.edi), 1, v);
    FetchQueues(s, DataSeg(s), Index(s, s.gen.esi), 1);
    StoreQueues(t, t.segs.es, Index(t, t.gen.edi), 1, v);
    Chained(s, t, u);
  }

  lemma {:induction false} MovsQueues(s: St, k: nat)
    ensures Queues(s, MovsRun(s, k))
    decreases k
  {
    hide MovsStep, Queues;
    if k == 0 {
      Quietly(s, s);
    } else {
      MoveQueues(s);
      MovsQueues(MovsStep(s), k - 1);
      Chained(s, MovsStep(s), MovsRun(s, k));
    }
  }

  lemma CompareQueues(s: St, op: ScanOp)
    ensures Queues(s, Compare(s, op))
  {
    hide Fetch, SubFlags, Index, DataSeg, Queued;
    if op == Cmps {
      var t := Fetch(s, DataSeg(s), Index(s, s.gen.esi), 1).0;
      FetchQueues(s, DataSeg(s), Index(s, s.gen.esi), 1);
      FetchQueues(t, t.segs.es, Index(t, t.gen.edi), 1);
      Chained(s, t, Fetch(t, t.segs.es, Index(t, t.gen.edi), 1).0);
    } else {
      FetchQueues(s, s.segs.es, Index(s, s.gen.edi), 1);
    }
  }

  lemma StepQueues(s: St, op: ScanOp)
    ensures Queues(s, ScanStep(s, op))
  {
    hide Compare, Bump, Queued;
    CompareQueues(s, op);
  }

  lemma {:induction false} ScanQueues(s: St, op: ScanOp, n: nat)
    ensures Queues(s, ScanRep(s, op, n))
    decreases n
  {
    hide ScanStep, Conditions.EvalCondition, StopCode, Queues;
    if n == 0 {
      Quietly(s, s);
    } else {
      var t := ScanStep(s, op);
      StepQueues(s, op);
      ScanQueues(t, op, n - 1);
      Chained(s, t, ScanRep(t, op, n - 1));
    }
  }

  lemma EntryQueues(s: St, n: Width)
    ensures Queues(s, CopyEntry(s, n))
  {
    hide Fetch, Push, SetLo16, U16, U32, Queued;
    var t := SetBp(s, Bp(s) - n);
    var (u, v) := Fetch(t, t.segs.ss, Bp(t), n);
    FetchQueues(t, t.segs.ss, Bp(t), n);
    PushQueues(u, n, v);
    Chained(t, u, Push(u, n, v));
  }

  lemma {:induction false} DisplayQueues(s: St, n: Width, k: nat)
    ensures Queues(s, CopyDisplay(s, n, k))
    decreases k
  {
    hide CopyEntry, Queues;
    if k == 0 {
      Quietly(s, s);
    } else {
      EntryQueues(s, n);
      DisplayQueues(CopyEntry(s, n), n, k - 1);
      Chained(s, CopyEntry(s, n), CopyDisplay(s, n, k));
    }
  }

  lemma CodeQueues(s: St, n: Width)
    ensures FetchCode(s, n).0.intr == s.intr
  {
    hide FlatMemory.MemIo, SetLo16, U16, U32;
  }

  lemma FrameQueues(s: St, nesting: nat)
    ensures Queues(s, PushFrame(s, nesting))
  {
    hide Push, CopyDisplay, Queues;
    var t := Push(s, StackBytes(s), Bp(s));
    PushQueues(s, StackBytes(s), Bp(s));
    if nesting > 0 {
      var n := OpBytes(s);
      var u := CopyDisplay(t, n, nesting - 1);
      DisplayQueues(t, n, nesting - 1);
      PushQueues(u, n, Sp(t));
      Chained(s, t, u);
      Chained(s, u, Push(u, n, Sp(t)));
    }
  }

  lemma EnterQueues(s: St)
    ensures Queues(s, Enter(s))
  {
    hide FetchCode, PushFrame, Push, SetLo16, U16, U32, Queued;
    CodeQueues(s, 2);
    var s1 := FetchCode(s, 2).0;
    CodeQueues(s1, 1);
    var (s2, nesting) := FetchCode(s1, 1);
    FrameQueues(s2, nesting % 0x20);
  }

  lemma LeaveQueues(s: St)
    ensures Queues(s, Leave(s))
  {
    hide Pop, SetLo16, U16, U32, Merge, Queued;
    PopQueues(SetSp(s, Bp(s)), OpBytes(s));
  }

  lemma SetSegQueues(s: St, r: SegReg, val: u16)
    ensures Queues(s, SetSeg(s, r, val))
  {
    hide FlatMemory.MemIo, Decode, Bits.Pow2, Segs.Set, Segs.Get, Queued, Raise;
    RaiseQueues(s.intr, GpFault(val));
  }

  lemma IretQueues(s: St)
    ensures Queues(s, Iret(s))
  {
    hide Pop, SetSeg, FlagsOf, Lo16, Queued;
    var n := OpBytes(s);
    var t := Pop(s, n).0;
    var (u, cs) := Pop(t, n);
    var (v, w) := Pop(u, n);
    PopQueues(s, n);
    PopQueues(t, n);
    PopQueues(u, n);
    Chained(s, t, u);
    Chained(s, u, v);
    var x := v.(f := IretFlags(w));
    SetSegQueues(x, CS, Lo16(cs));
    Chained(s, x, SetSeg(x, CS, Lo16(cs)));
  }

  lemma IntQueues(s: St)
    ensures Queues(s, IntImm(s))
  {
    hide FetchCode, Queued, Raise;
    CodeQueues(s, 1);
    RaiseQueues(s.intr, Soft(U8(FetchCode(s, 1).1)));
  }

  lemma StringQueues(s: St, op: ScanOp)
    ensures Queues(s, Movs(s)) && Queues(s, Scan(s, op))
  {
    hide MovsRun, ScanRep, Compare, Bump, Queued, SetLo16;
    MovsQueues(s, 1);
    MovsQueues(s.(gen := s.gen.(ecx := Cleared(s, s.gen.ecx))), Index(s, s.gen.ecx));
    ScanQueues(s, op, Index(s, s.gen.ecx));
    CompareQueues(s, op);
  }

  /** Theorem: whatever a handler requests is added to what was requested before, and the first of all stays pending. */
  lemma HandlersQueue(op: u8, s: St, t: St)
    requires Handled(op, s, t)
    ensures Queues(s, t)
  {
    hide PushAll, PopA, Movs, Scan, Enter, Leave, Iret, IntImm, FetchCode, Saves, Queued, SetFlag;
    PushAllQueues(s, Saves(s.gen, OpBytes(s), 8));
    PopAQueues(s, OpBytes(s), 8);
    StringQueues(s, Cmps);
    StringQueues(s, Scas);
    EnterQueues(s);
    LeaveQueues(s);
    IntQueues(s);
    IretQueues(s);
    CodeQueues(s, JumpBytes(s, op));
    Quietly(s, s);
  }

  // ---- delivery ----

  /** The requests made during the handler of a turn. */
  function RequestsOf(t: Turn): seq<Request> {
    var n := |t.before.intr.made|;
    if n <= |t.handled.intr.made| then t.handled.intr.made[n..] else []
  }

  /** The interrupt a turn delivers: what was pending before it, else the handler's first request. */
  function DeliveredBy(t: Turn): Intr { FirstOf(t.before.intr.pending, RequestsOf(t)) }

  lemma TurnHandled(t: Turn, flags: RunFlags, budget: nat)
    requires TurnOk(t, flags, budget)
    ensures Handled(t.op, t.ready, t.handled)
  {
    hide Handled, FetchOpcode, Verdict, HandleInterrupt;
  }

  /** Theorem: a turn delivers the first request, and only that one; what the delivery itself requests is dropped. */
  lemma FirstIsDelivered(t: Turn, flags: RunFlags, budget: nat)
    requires TurnOk(t, flags, budget)
    ensures t.handled.intr.made == t.before.intr.made + RequestsOf(t) && t.handled.intr.pending == DeliveredBy(t)
    ensures t.after == Tick(
      if DeliveredBy(t).NoIntr? then t.handled else Acknowledged(GenerateInt(t.handled, DeliveredBy(t))))
    ensures t.after.intr.pending.NoIntr?
  {
    hide TurnOk, Handled, GenerateInt;
    TurnTicks(t, flags, budget);
    TurnHandled(t, flags, budget);
    HandlersQueue(t.op, t.ready, t.handled);
  }

  /** Theorem, over every run: from the second instruction on, what is delivered is the handler's own first request. */
  lemma RunsDeliverFirst(s: St, turns: seq<Turn>, t: St, flags: RunFlags, limit: u64, budget: nat, i: nat)
    requires Chain(s, turns, t, flags, limit, budget) && i < |turns|
    ensures DeliveredBy(turns[i]) ==
      FirstOf(if i == 0 then s.intr.pending else NoIntr, RequestsOf(turns[i]))
    ensures turns[i].handled.intr.pending == DeliveredBy(turns[i])
    ensures turns[i].after == Tick(
      if DeliveredBy(turns[i]).NoIntr? then turns[i].handled
      else Acknowledged(GenerateInt(turns[i].handled, DeliveredBy(turns[i]))))
  {
    hide TurnOk, OverLimit, GenerateInt, DeliveredBy, RequestsOf;
    FirstIsDelivered(turns[i], flags, budget);
    RunsDeliverOnce(s, turns, t, flags, limit, budget, i);
    DeliveredIs(turns[i]);
  }

  lemma DeliveredIs(t: Turn)
    ensures DeliveredBy(t) == FirstOf(t.before.intr.pending, RequestsOf(t))
  {
  }
}
