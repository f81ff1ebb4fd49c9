/** Pages in host memory: what a mapped page shows, and that unmapping brings back what was there before. */
module Mappings {
  import opened Words
  import opened FlatMemory
  import opened MemoryLaws
  import opened PagedMemory
  import opened MemoryTraces

  predicate InPage(p: nat, b: u32) { b / 0x1000 == p }

  lemma PageSpan(p: nat, b: u32)
    requires p < 0x10_0000
    ensures InPage(p, b) <==> 0x1000 * p <= b < 0x1000 * p + 0x1000
    ensures InPage(p, b) ==> b - 0x1000 * p == b % 0x1000
  {
  }

  /** A page mapped to the host bytes from `o` on shows them in order, initialised; permissions and other pages stay. */
  lemma MappedShowsHost(f: FlatMem, p: nat, o: HostAddr, b: u32)
    requires p < 0x10_0000 && o + 0x1000 <= 0x1_0000_0000_0000
    ensures var g := MapPage(f, p, Some(o));
      && g.host == f.host && Perms(Attr(g, b)) == Perms(Attr(f, b)) && g.cells[b].own == f.cells[b].own
      && (InPage(p, b) ==> Data(g, b) == f.host[o + b % 0x1000] && IsValid(g, b))
      && (!InPage(p, b) ==> g.cells[b] == f.cells[b])
  {
    PageSpan(p, b);
    ValidBit(Attr(f, b));
    hide Perms, Has, Join;
  }

  lemma ValidBit(x: bv8)
    ensures Has(Join(x, PERM_VALID), PERM_VALID) && Perms(Join(x, PERM_VALID)) == Perms(x)
  {
  }

  /** While a byte is mapped, its own byte waits underneath. */
  predicate Waits(f: FlatMem, g: FlatMem, b: u32) {
    f.cells[b].loc.Some? ==> g.cells[b].loc == f.cells[b].loc && g.cells[b].own == f.cells[b].own
  }

  lemma StepWaits(f: FlatMem, a: u32, e: Event, b: u32)
    ensures Waits(f, Step(f, a, e), b)
  {
    hide Touch, Fails, Stored;
  }

  lemma WaitsOn(f: FlatMem, g: FlatMem, h: FlatMem, b: u32)
    requires Waits(f, g, b) && Waits(g, h, b)
    ensures Waits(f, h, b)
  {
  }

  lemma AccessWaits(f: FlatMem, addr: u32, val: u32, kind: Kind, size: Size, b: u32)
    ensures Waits(f, MemIo(f, addr, val, kind, size).0, b)
  {
    AccessSteps(f, addr, val, kind, size);
    hide MemIo, Step, EventOf, U8, U32;
    var g := f.(invalid := false);
    var hi := val / 0x1_0000;
    var e0, e1 := EventOf(kind, size, U8(val)), EventOf(kind, size, U8(val / 0x100));
    var e2, e3 := EventOf(kind, size, U8(hi)), EventOf(kind, size, U8(hi / 0x100));
    var g1 := Step(g, addr, e0);
    var g2 := Step(g1, U32(addr + 1), e1);
    var g3 := Step(g2, U32(addr + 2), e2);
    StepWaits(g, addr, e0, b);
    StepWaits(g1, U32(addr + 1), e1, b);
    StepWaits(g2, U32(addr + 2), e2, b);
    StepWaits(g3, U32(U32(addr + 2) + 1), e3, b);
  }

  /** The operation does not map or unmap page `p`. */
  predicate LeavesPage(op: Op, p: nat) { op.MapHost? ==> op.page / 0x1000 != p }

  lemma OpWaits(t: Tracked, op: Op, p: nat, b: u32)
    requires op.Ok() && LeavesPage(op, p) && InPage(p, b)
    ensures Waits(t.mem, Apply(t, op).0.mem, b)
  {
    hide MemIo, AccessPages, PermPages, Join, Unmark, PageOf;
    match op
    case Access(addr, val, kind, size) =>
      AccessWaits(t.mem, addr, val, kind, size, b);
    case MapHost(page, address) =>
      PageSpan(page / 0x1000, b);
    case _ =>
  }

  lemma {:induction false} TraceWaits(t: Tracked, ops: seq<Op>, p: nat, b: u32)
    requires AllOk(ops) && (forall op :: op in ops ==> LeavesPage(op, p)) && InPage(p, b)
    ensures Waits(t.mem, Trace(t, ops).mem, b)
    decreases |ops|
  {
    hide Apply, Waits, LeavesPage;
    if ops == [] {
      WaitsSelf(t.mem, b);
    } else {
      var k := |ops| - 1;
      TraceWaits(t, ops[..k], p, b);
      OpWaits(Trace(t, ops[..k]), ops[k], p, b);
      WaitsOn(t.mem, Trace(t, ops[..k]).mem, Trace(t, ops).mem, b);
    }
  }

  lemma WaitsSelf(f: FlatMem, b: u32)
    ensures Waits(f, f, b)
  {
  }

  /** A byte that is not mapped afterwards shows its own byte. */
  lemma UnmappedShowsOwn(f: FlatMem, p: nat, b: u32)
    requires p < 0x10_0000 && InPage(p, b)
    ensures Data(MapPage(f, p, None), b) == f.cells[b].own
  {
    PageSpan(p, b);
  }

  /**
  Theorem: after a page is mapped to host memory, used in any way, by any history of accesses, permission updates,
  resets and mappings of other pages, and unmapped, each byte of it is what it was before.
  */
  lemma UnmappingRestores(t: Tracked, p: nat, o: HostAddr, ops: seq<Op>, b: u32)
    requires p < 0x10_0000 && o + 0x1000 <= 0x1_0000_0000_0000 && InPage(p, b) && t.mem.cells[b].loc.None?
    requires AllOk(ops) && forall op :: op in ops ==> LeavesPage(op, p)
    ensures var u := Trace(t.(mem := MapPage(t.mem, p, Some(o))), ops);
      Data(MapPage(u.mem, p, None), b) == Data(t.mem, b)
  {
    hide Trace, LeavesPage, Join;
    var s := t.(mem := MapPage(t.mem, p, Some(o)));
    PageSpan(p, b);
    TraceWaits(s, ops, p, b);
    hide MapPage;
    MapIs(t.mem, p, o, b);
    UnmappedShowsOwn(Trace(s, ops).mem, p, b);
  }

  lemma MapIs(f: FlatMem, p: nat, o: HostAddr, b: u32)
    requires p < 0x10_0000 && o + 0x1000 <= 0x1_0000_0000_0000 && InPage(p, b)
    ensures var c := MapPage(f, p, Some(o)).cells[b]; c.loc.Some? && c.own == f.cells[b].own
  {
    hide Join;
    PageSpan(p, b);
  }
}
