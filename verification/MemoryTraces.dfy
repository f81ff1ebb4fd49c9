/** Whole histories of a memory: the paged one against the flat one, what the access marks mean, and clones. */
module MemoryTraces {
  import opened Words
  import opened FlatMemory
  import opened PagedMemory
  import opened MemoryLaws

  /** The memory operations of the API and of the emulator core. */
  datatype Op =
    | Access(addr: u32, val: u32, kind: Kind, size: Size)
    | PermRange(start: u32, end: u32, perm: bv8)
    | MapHost(page: u32, address: Option<HostAddr>)
    | ResetStats
  {
    predicate Ok() { MapHost? && address.Some? ==> address.value + 0x1000 <= 0x1_0000_0000_0000 }
  }

  type Answer = (u32, bool)

  /** The reference: the flat memory, and which pages exist, which matters to the reset alone. */
  datatype Tracked = Tracked(mem: FlatMem, live: set<(int, int)>)

  ghost function Apply(t: Tracked, op: Op): (Tracked, Answer)
    requires op.Ok()
  {
    match op
    case Access(addr, val, kind, size) =>
      var r := MemIo(t.mem, addr, val, kind, size);
      (Tracked(r.0, t.live + AccessPages(addr, kind, size)), (r.1, r.2))
    case PermRange(start, end, perm) =>
      (Tracked(SetPerm(t.mem, start, end, perm), t.live + PermPages(start, end)), (0, false))
    case MapHost(page, address) =>
      (Tracked(MapPage(t.mem, page / 0x1000, address), t.live + {PageOf(page)}), (0, false))
    case ResetStats => (t.(mem := ResetPages(t.mem, t.live)), (0, false))
  }

  predicate AllOk(ops: seq<Op>) { forall i :: 0 <= i < |ops| ==> ops[i].Ok() }

  ghost function Trace(t: Tracked, ops: seq<Op>): Tracked
    requires AllOk(ops)
  {
    if ops == [] then t else Apply(Trace(t, ops[..|ops| - 1]), ops[|ops| - 1]).0
  }

  ghost function Answers(t: Tracked, ops: seq<Op>): seq<Answer>
    requires AllOk(ops)
  {
    if ops == [] then []
    else Answers(t, ops[..|ops| - 1]) + [Apply(Trace(t, ops[..|ops| - 1]), ops[|ops| - 1]).1]
  }

  /** What a paged memory stands for. */
  ghost function TrackedOf(mem: Mem): Tracked
    requires mem.Valid()
    reads mem, mem.Repr(), mem.host
  {
    Tracked(mem.View(), mem.Live())
  }

  method ApplyTo(mem: Mem, op: Op) returns (answer: Answer)
    requires mem.Valid() && op.Ok()
    modifies mem, mem.Repr(), mem.host
    ensures mem.Valid() && fresh(mem.Repr() - old(mem.Repr()))
    ensures (TrackedOf(mem), answer) == Apply(old(TrackedOf(mem)), op)
  {
    hide Mem.Tree, Mem.Leaves, Mem.Clean, Mem.Live, MemIo, SetPerm, MapPage, ResetPages, PermPages, AccessPages, PageOf;
    match op
    case Access(addr, val, kind, size) =>
      var v, e := mem.MemIo(addr, val, kind, size);
      answer := (v, e);
    case PermRange(start, end, perm) =>
      mem.SetPerm(start, end, perm);
      answer := (0, false);
    case MapHost(page, address) =>
      mem.SetPage(page, address);
      answer := (0, false);
    case ResetStats =>
      mem.ResetAccessStats();
      answer := (0, false);
  }

  /** Theorem: for every history the paged memory answers as the reference does and ends in the same state. */
  method RunOps(mem: Mem, ops: seq<Op>) returns (answers: seq<Answer>)
    requires mem.Valid() && AllOk(ops)
    modifies mem, mem.Repr(), mem.host
    ensures mem.Valid() && fresh(mem.Repr() - old(mem.Repr()))
    ensures TrackedOf(mem) == Trace(old(TrackedOf(mem)), ops) && answers == Answers(old(TrackedOf(mem)), ops)
  {
    hide Mem.Tree, Mem.Leaves, Mem.Live, Apply;
    answers := [];
    for i := 0 to |ops|
      invariant mem.Valid() && fresh(mem.Repr() - old(mem.Repr()))
      invariant TrackedOf(mem) == Trace(old(TrackedOf(mem)), ops[..i])
      invariant answers == Answers(old(TrackedOf(mem)), ops[..i])
    {
      assert ops[..i + 1][..i] == ops[..i];
      var a := ApplyTo(mem, ops[i]);
      answers := answers + [a];
    }
    assert ops[..|ops|] == ops;
  }

  /** A reset misses a mark that a page never touched would start with. */
  method DirtyDefaultSurvivesReset(host: array<u8>) returns (mem: Mem)
    requires host.Length == 0x1_0000_0000_0000
    ensures mem.Valid() && mem.View() != Reset(mem.View())
  {
    mem := new Mem(ACC_R, host);
    mem.ResetAccessStats();
    assert Has(mem.View().cells[0].attr, ACC_R) && !Has(Reset(mem.View()).cells[0].attr, ACC_R);
  }

  // ---- clones ----

  /** Whatever is done to a clone, the original keeps all it had; only host memory mapped into both is shared. */
  method CloneIsIsolated(mem: Mem, ops: seq<Op>) returns (copy: Mem, answers: seq<Answer>)
    requires mem.Valid() && AllOk(ops)
    modifies mem.host
    ensures fresh(copy) && fresh(copy.Repr()) && copy.Valid() && copy.host == mem.host
    ensures TrackedOf(copy) == Trace(old(TrackedOf(mem)), ops) && answers == Answers(old(TrackedOf(mem)), ops)
    ensures mem.Valid() && mem.cells == old(mem.cells) && mem.invalid == old(mem.invalid)
      && mem.Live() == old(mem.Live())
    ensures forall a: u32 :: mem.cells[a].loc.None? ==> Data(mem.View(), a) == Data(old(mem.View()), a)
  {
    hide Mem.Tree, Mem.Leaves, Mem.Live, Trace, Answers;
    copy := mem.Clone();
    answers := RunOps(copy, ops);
  }

  /** And the other way round. */
  method OriginalLeavesClone(mem: Mem, ops: seq<Op>) returns (copy: Mem, answers: seq<Answer>)
    requires mem.Valid() && AllOk(ops)
    modifies mem, mem.Repr(), mem.host
    ensures fresh(copy) && fresh(copy.Repr()) && mem.Repr() !! copy.Repr()
    ensures copy.Valid() && copy.cells == old(mem.cells) && copy.invalid == old(mem.invalid)
    ensures copy.Live() == old(mem.Live())
    ensures mem.Valid() && TrackedOf(mem) == Trace(old(TrackedOf(mem)), ops)
      && answers == Answers(old(TrackedOf(mem)), ops)
    ensures forall a: u32 :: copy.cells[a].loc.None? ==> Data(copy.View(), a) == Data(old(mem.View()), a)
  {
    hide Mem.Tree, Mem.Leaves, Mem.Live, Trace, Answers;
    copy := mem.Clone();
    answers := RunOps(mem, ops);
  }

  // ---- what the marks of a byte mean ----

  /** What can happen to one byte. */
  datatype Mark = By(e: Event) | Mapped

  function Next(x: bv8, m: Mark): bv8 {
    match m
    case By(e) => Touch(x, e)
    case Mapped => Join(x, PERM_VALID)
  }

  function Fold(x: bv8, ms: seq<Mark>): bv8 {
    if ms == [] then x else Next(Fold(x, ms[..|ms| - 1]), ms[|ms| - 1])
  }

  lemma {:induction false} FoldConcat(x: bv8, ms: seq<Mark>, ns: seq<Mark>)
    ensures Fold(x, ms + ns) == Fold(Fold(x, ms), ns)
    decreases |ns|
  {
    hide Next;
    if ns == [] {
      assert ms + ns == ms;
    } else {
      var k := |ns| - 1;
      assert (ms + ns)[..|ms + ns| - 1] == ms + ns[..k];
      FoldConcat(x, ms, ns[..k]);
    }
  }

  /** The event an access causes at each of its bytes. */
  function EventOf(kind: Kind, size: Size, v: u8): Event {
    match kind
    case KRead => if size == 3 then RdRaw else Rd
    case KWrite => if size == 3 then WrRaw(v) else Wr(v)
    case KExec => Ex
  }

  /** What one operation does to byte `b`: at most one event of an access, or being mapped. */
  function MarksOf(op: Op, b: u32): seq<Mark> {
    match op
    case Access(addr, val, kind, size) =>
      var d := U32(b - addr);
      if kind.KExec? && size == 3 then []
      else if (size == 0 || size == 3) && d == 0 then [By(EventOf(kind, size, U8(val)))]
      else if size == 1 && d < 2 then [By(EventOf(kind, size, U8(if d == 0 then val else val / 0x100)))]
      else if size == 2 && d < 4 then
        [By(EventOf(kind, size, U8(if d == 0 then val else if d == 1 then val / 0x100
                                   else if d == 2 then val / 0x1_0000 else val / 0x1_0000 / 0x100)))]
      else []
    case MapHost(page, address) => if address.Some? && b / 0x1000 == page / 0x1000 then [Mapped] else []
    case _ => []
  }

  function Marks(ops: seq<Op>, b: u32): seq<Mark> {
    if ops == [] then [] else Marks(ops[..|ops| - 1], b) + MarksOf(ops[|ops| - 1], b)
  }

  lemma StepAttr(f: FlatMem, a: u32, e: Event, b: u32)
    ensures Attr(Step(f, a, e), b) == if b == a then Touch(Attr(f, a), e) else Attr(f, b)
  {
    hide Touch, Fails, Stored;
  }

  predicate PlainOp(op: Op) { op.Access? || op.MapHost? }

  lemma Fold1(x: bv8, m: Mark)
    ensures Fold(x, [m]) == Next(x, m) && Fold(x, []) == x
  {
    assert [m][..0] == [];
  }

  lemma ByteMarks(f: FlatMem, a: u32, e: Event, b: u32)
    ensures Attr(Step(f, a, e), b) == Fold(Attr(f, b), if b == a then [By(e)] else [])
  {
    hide Touch, Step;
    Fold1(Attr(f, b), By(e));
    StepAttr(f, a, e, b);
  }

  /** Two bytes in a row. */
  lemma WordMarks(f: FlatMem, a: u32, e0: Event, e1: Event, b: u32)
    ensures var d := U32(b - a);
      Attr(Step(Step(f, a, e0), U32(a + 1), e1), b)
        == Fold(Attr(f, b), if d == 0 then [By(e0)] else if d == 1 then [By(e1)] else [])
  {
    hide Touch, Step, Fold;
    ByteMarks(f, a, e0, b);
    ByteMarks(Step(f, a, e0), U32(a + 1), e1, b);
    Fold1(Attr(f, b), By(e0));
    Fold1(Attr(Step(f, a, e0), b), By(e1));
  }

  lemma LaterWord(a: u32, b: u32)
    ensures var d, e := U32(b - a), U32(b - U32(a + 2));
      (e == 0 <==> d == 2) && (e == 1 <==> d == 3)
  {
    var c := if a + 2 < 0x1_0000_0000 then a + 2 else a + 2 - 0x1_0000_0000;
    assert U32(a + 2) == c;
    assert U32(b - c) == if b >= c then b - c else b - c + 0x1_0000_0000;
    assert U32(b - a) == if b >= a then b - a else b - a + 0x1_0000_0000;
  }

  /** Four bytes in a row. */
  lemma DwordMarks(f: FlatMem, a: u32, e0: Event, e1: Event, e2: Event, e3: Event, b: u32)
    ensures var d := U32(b - a);
      var g := Step(Step(f, a, e0), U32(a + 1), e1);
      Attr(Step(Step(g, U32(a + 2), e2), U32(U32(a + 2) + 1), e3), b)
        == Fold(Attr(f, b), if d == 0 then [By(e0)] else if d == 1 then [By(e1)]
                            else if d == 2 then [By(e2)] else if d == 3 then [By(e3)] else [])
  {
    hide Touch, Step, Fold, U32;
    LaterWord(a, b);
    var g := Step(Step(f, a, e0), U32(a + 1), e1);
    WordMarks(f, a, e0, e1, b);
    WordMarks(g, U32(a + 2), e2, e3, b);
    Fold1(Attr(f, b), By(e0));
    Fold1(Attr(g, b), By(e2));
  }

  lemma MapMarks(t: Tracked, page: u32, address: Option<HostAddr>, b: u32)
    requires MapHost(page, address).Ok()
    ensures var op := MapHost(page, address);
      Attr(Apply(t, op).0.mem, b) == Fold(Attr(t.mem, b), MarksOf(op, b))
  {
    hide Fold, Join, PageOf;
    Fold1(Attr(t.mem, b), Mapped);
    assert 0x1000 * (page / 0x1000) <= b < 0x1000 * (page / 0x1000) + 0x1000 <==> b / 0x1000 == page / 0x1000;
  }

  /** What an access of one, two or four bytes does, in terms of its events. */
  lemma AccessSteps(f: FlatMem, addr: u32, val: u32, kind: Kind, size: Size)
    ensures var g := f.(invalid := false);
      var e0, e1 := EventOf(kind, size, U8(val)), EventOf(kind, size, U8(val / 0x100));
      var hi := val / 0x1_0000;
      var e2, e3 := EventOf(kind, size, U8(hi)), EventOf(kind, size, U8(hi / 0x100));
      MemIo(f, addr, val, kind, size).0 ==
        if kind.KExec? && size == 3 then g
        else if size == 1 then Step(Step(g, addr, e0), U32(addr + 1), e1)
        else if size == 2 then
          Step(Step(Step(Step(g, addr, e0), U32(addr + 1), e1), U32(addr + 2), e2), U32(U32(addr + 2) + 1), e3)
        else Step(g, addr, e0)
  {
    hide Step, Sees, U8, U32, Word, Dword;
  }

  lemma AccessMarks(f: FlatMem, addr: u32, val: u32, kind: Kind, size: Size, b: u32)
    ensures Attr(MemIo(f, addr, val, kind, size).0, b) ==
      Fold(Attr(f, b), MarksOf(Access(addr, val, kind, size), b))
  {
    hide MemIo, Touch, Step, Fold, Attr, U8, U32, EventOf;
    var g := f.(invalid := false);
    SameAttr(f, b);
    Fold1(Attr(g, b), Mapped);
    AccessSteps(f, addr, val, kind, size);
    var e0, e1 := EventOf(kind, size, U8(val)), EventOf(kind, size, U8(val / 0x100));
    if size == 1 {
      WordMarks(g, addr, e0, e1, b);
    } else if size == 2 {
      var hi := val / 0x1_0000;
      DwordMarks(g, addr, e0, e1, EventOf(kind, size, U8(hi)), EventOf(kind, size, U8(hi / 0x100)), b);
    } else {
      ByteMarks(g, addr, e0, b);
      ByteOffset(addr, b);
    }
  }

  lemma ByteOffset(a: u32, b: u32)
    ensures U32(b - a) == 0 <==> b == a
  {
  }

  lemma SameAttr(f: FlatMem, b: u32)
    ensures Attr(f.(invalid := false), b) == Attr(f, b)
  {
  }

  lemma ApplyMarks(t: Tracked, op: Op, b: u32)
    requires op.Ok() && PlainOp(op)
    ensures Attr(Apply(t, op).0.mem, b) == Fold(Attr(t.mem, b), MarksOf(op, b))
  {
    hide MemIo, MapPage, Fold, MarksOf, AccessPages, PageOf;
    match op
    case MapHost(page, address) =>
      MapMarks(t, page, address, b);
    case Access(addr, val, kind, size) =>
      AccessMarks(t.mem, addr, val, kind, size, b);
  }

  /** The attribute of every byte is the fold of what happened to that byte, in order. */
  lemma {:induction false} RunMarks(t: Tracked, ops: seq<Op>, b: u32)
    requires AllOk(ops) && forall op :: op in ops ==> PlainOp(op)
    ensures Attr(Trace(t, ops).mem, b) == Fold(Attr(t.mem, b), Marks(ops, b))
    decreases |ops|
  {
    hide Apply, MarksOf, PlainOp, Fold;
    if ops == [] {
      Fold1(Attr(t.mem, b), Mapped);
    } else {
      var k := |ops| - 1;
      RunMarks(t, ops[..k], b);
      ApplyMarks(Trace(t, ops[..k]), ops[k], b);
      FoldConcat(Attr(t.mem, b), Marks(ops[..k], b), MarksOf(ops[k], b));
    }
  }

  /** The mark stores into (or maps) a byte with attribute `x`. */
  predicate Settles(x: bv8, m: Mark) {
    m.Mapped? || (m.By? && (m.e.WrRaw? || (m.e.Wr? && Has(x, PERM_W))))
  }

  predicate Uses(x: bv8, m: Mark) {
    m.By? && ((m.e.Rd? && Has(x, PERM_R)) || (m.e.Ex? && Has(x, PERM_X)))
  }

  predicate Denied(x: bv8, m: Mark) { m.By? && m.e.Wr? && !Has(x, PERM_W) }

  predicate SettledBy(x: bv8, ms: seq<Mark>, n: nat)
    requires n <= |ms|
  {
    Has(x, PERM_VALID) || exists i :: 0 <= i < n && Settles(x, ms[i])
  }

  /** A mark that leaves ACC_INVALID: a denied write, or a permitted use of a byte nobody has set. */
  predicate Spoils(x: bv8, ms: seq<Mark>, i: nat)
    requires i < |ms|
  {
    Denied(x, ms[i]) || (Uses(x, ms[i]) && !SettledBy(x, ms, i))
  }

  predicate Stores(x: bv8, m: Mark) { Settles(x, m) && m.By? }

  predicate EverStores(x: bv8, ms: seq<Mark>, n: nat)
    requires n <= |ms|
  {
    exists i :: 0 <= i < n && Stores(x, ms[i])
  }

  predicate EverSpoils(x: bv8, ms: seq<Mark>, n: nat)
    requires n <= |ms|
  {
    exists i :: 0 <= i < n && Spoils(x, ms, i)
  }

  lemma TouchBits(x: bv8, e: Event)
    ensures var y := Touch(x, e);
      && (Has(y, ACC_R) <==> Has(x, ACC_R) || (e == Rd && Has(x, PERM_R)))
      && (Has(y, ACC_X) <==> Has(x, ACC_X) || (e == Ex && Has(x, PERM_X)))
      && (Has(y, ACC_W) <==> Has(x, ACC_W) || Stores(x, By(e)))
      && (Has(y, ACC_INVALID) <==> Has(x, ACC_INVALID) || Denied(x, By(e)) || (Uses(x, By(e)) && !Has(x, PERM_VALID)))
  {
  }

  lemma NextBits(x: bv8, m: Mark)
    ensures var y := Next(x, m);
      && Perms(y) == Perms(x)
      && (Has(y, ACC_R) <==> Has(x, ACC_R) || (m == By(Rd) && Has(x, PERM_R)))
      && (Has(y, ACC_X) <==> Has(x, ACC_X) || (m == By(Ex) && Has(x, PERM_X)))
      && (Has(y, ACC_W) <==> Has(x, ACC_W) || Stores(x, m))
      && (Has(y, PERM_VALID) <==> Has(x, PERM_VALID) || Settles(x, m))
      && (Has(y, ACC_INVALID) <==> Has(x, ACC_INVALID) || Denied(x, m) || (Uses(x, m) && !Has(x, PERM_VALID)))
  {
    if m.By? {
      TouchBits(x, m.e);
      TouchKeepsPerms(x, m.e);
    }
  }

  lemma MarkPerms(x: bv8, y: bv8, m: Mark)
    requires Perms(x) == Perms(y)
    ensures Settles(x, m) == Settles(y, m) && Uses(x, m) == Uses(y, m) && Denied(x, m) == Denied(y, m)
    ensures Has(x, PERM_R) == Has(y, PERM_R) && Has(x, PERM_X) == Has(y, PERM_X)
  {
    PermsFix(x, y);
  }

  /** Attribute `y` is what the history `ms` leaves of attribute `x` once its marks are cleared. */
  predicate Statistics(x: bv8, ms: seq<Mark>, y: bv8) {
    && Perms(y) == Perms(x)
    && (Has(y, ACC_R) <==> Has(x, PERM_R) && By(Rd) in ms)
    && (Has(y, ACC_X) <==> Has(x, PERM_X) && By(Ex) in ms)
    && (Has(y, ACC_W) <==> EverStores(x, ms, |ms|))
    && (Has(y, PERM_VALID) <==> SettledBy(x, ms, |ms|))
    && (Has(y, ACC_INVALID) <==> EverSpoils(x, ms, |ms|))
  }

  /** What has ever happened, one mark later. */
  lemma EverNext(x: bv8, ms: seq<Mark>, k: nat)
    requires k < |ms|
    ensures SettledBy(x, ms, k + 1) <==> SettledBy(x, ms, k) || Settles(x, ms[k])
    ensures EverStores(x, ms, k + 1) <==> EverStores(x, ms, k) || Stores(x, ms[k])
    ensures EverSpoils(x, ms, k + 1) <==> EverSpoils(x, ms, k) || Spoils(x, ms, k)
  {
    hide Settles, Stores, Spoils, Has;
  }

  /** What has ever happened depends on the marks up to then. */
  lemma EverBefore(x: bv8, ms: seq<Mark>, k: nat, n: nat)
    requires n <= k <= |ms|
    ensures SettledBy(x, ms[..k], n) == SettledBy(x, ms, n) && EverStores(x, ms[..k], n) == EverStores(x, ms, n)
  {
    hide Settles, Stores, Has;
    assert forall i :: 0 <= i < n ==> ms[..k][i] == ms[i];
  }

  lemma SpoilsBefore(x: bv8, ms: seq<Mark>, k: nat)
    requires k <= |ms|
    ensures EverSpoils(x, ms[..k], k) == EverSpoils(x, ms, k)
  {
    hide Settles, Uses, Denied, SettledBy;
    forall i: nat | i < k ensures Spoils(x, ms[..k], i) == Spoils(x, ms, i) {
      EverBefore(x, ms, k, i);
    }
    hide Spoils;
  }

  lemma InNext(ms: seq<Mark>, m: Mark)
    requires ms != []
    ensures m in ms <==> m in ms[..|ms| - 1] || m == ms[|ms| - 1]
  {
    assert ms == ms[..|ms| - 1] + [ms[|ms| - 1]];
  }

  lemma NothingYet(x: bv8)
    requires !Has(x, ACC_R) && !Has(x, ACC_W) && !Has(x, ACC_X) && !Has(x, ACC_INVALID)
    ensures Statistics(x, [], x)
  {
  }

  /** Starting without marks, the marks after a history say exactly what happened to the byte. */
  lemma {:induction false} FoldMeaning(x: bv8, ms: seq<Mark>)
    requires !Has(x, ACC_R) && !Has(x, ACC_W) && !Has(x, ACC_X) && !Has(x, ACC_INVALID)
    ensures Statistics(x, ms, Fold(x, ms))
  {
    hide Has, Perms, Settles, Uses, Denied, Next, EverStores, EverSpoils, SettledBy;
    if ms == [] {
      NothingYet(x);
    } else {
      var k := |ms| - 1;
      var y := Fold(x, ms[..k]);
      FoldMeaning(x, ms[..k]);
      NextBits(y, ms[k]);
      MarkPerms(x, y, ms[k]);
      InNext(ms, By(Rd));
      InNext(ms, By(Ex));
      EverNext(x, ms, k);
      EverBefore(x, ms, k, k);
      SpoilsBefore(x, ms, k);
    }
  }

  /** Concretely: a read of a byte without read permission raises the error and leaves no mark at all. */
  lemma DeniedReadUnmarked()
    ensures var (g, v, err) := MemIo(Blank(), 0, 0, KRead, 0); err && v == 0xff && Attr(g, 0) == Attr(Blank(), 0)
    ensures Fold(Attr(Blank(), 0), [By(Rd)]) == 0
  {
    Fold1(Attr(Blank(), 0), By(Rd));
  }

  lemma UnmarkBits(x: bv8)
    ensures Perms(Unmark(x)) == Perms(x) && Has(Unmark(x), PERM_VALID) == Has(x, PERM_VALID)
    ensures !Has(Unmark(x), ACC_R) && !Has(Unmark(x), ACC_W) && !Has(Unmark(x), ACC_X) && !Has(Unmark(x), ACC_INVALID)
  {
  }

  /** Marks are read through the permissions, which a reset does not change. */
  lemma EverPerms(x: bv8, z: bv8, ms: seq<Mark>)
    requires Perms(z) == Perms(x) && Has(z, PERM_VALID) == Has(x, PERM_VALID)
    ensures forall n: nat :: n <= |ms| ==> SettledBy(z, ms, n) == SettledBy(x, ms, n)
    ensures EverStores(z, ms, |ms|) == EverStores(x, ms, |ms|) && EverSpoils(z, ms, |ms|) == EverSpoils(x, ms, |ms|)
  {
    hide Has, Perms, Settles, Uses, Denied;
    forall m: Mark ensures Settles(z, m) == Settles(x, m) && Uses(z, m) == Uses(x, m) && Denied(z, m) == Denied(x, m) {
      MarkPerms(z, x, m);
    }
    forall n: nat | n <= |ms| ensures SettledBy(z, ms, n) == SettledBy(x, ms, n) {
    }
    hide SettledBy;
    forall i | 0 <= i < |ms| ensures Spoils(z, ms, i) == Spoils(x, ms, i) && Stores(z, ms[i]) == Stores(x, ms[i]) {
    }
  }

  lemma StatisticsFrom(x: bv8, ms: seq<Mark>)
    ensures Statistics(x, ms, Fold(Unmark(x), ms))
  {
    hide Has, Perms, Settles, Uses, Denied, Next, Unmark, Fold, EverStores, EverSpoils, SettledBy;
    var z := Unmark(x);
    UnmarkBits(x);
    FoldMeaning(z, ms);
    EverPerms(x, z, ms);
    MarkPerms(z, x, Mapped);
  }

  /**
  Theorem, the access statistics: after a reset, accesses and mappings leave on each byte the marks of its own
  history; for the bytes of pages that did not exist yet this needs a default attribute without marks.
  */
  lemma StatisticsAreExact(t: Tracked, ops: seq<Op>, b: u32)
    requires AllOk(ops) && forall op :: op in ops ==> PlainOp(op)
    requires PageOf(b) in t.live || Attr(t.mem, b) & ACC_ALL == 0
    ensures var r := Apply(t, ResetStats).0;
      Statistics(Attr(t.mem, b), Marks(ops, b), Attr(Trace(r, ops).mem, b))
  {
    hide Has, Perms, Unmark, Trace, Marks, Fold, Statistics, PlainOp, PageOf, MarksOf;
    UnmarkedIs(Attr(t.mem, b));
    RunMarks(Apply(t, ResetStats).0, ops, b);
    StatisticsFrom(Attr(t.mem, b), Marks(ops, b));
  }

  /** The same of the page tables themselves, when no default attribute carries marks. */
  method CountAccesses(mem: Mem, ops: seq<Op>) returns (answers: seq<Answer>)
    requires mem.Valid() && mem.Clean() && AllOk(ops) && forall op :: op in ops ==> PlainOp(op)
    modifies mem, mem.Repr(), mem.host
    ensures mem.Valid() && fresh(mem.Repr() - old(mem.Repr()))
    ensures forall b: u32 :: Statistics(Attr(old(mem.View()), b), Marks(ops, b), Attr(mem.View(), b))
  {
    hide Mem.Tree, Mem.Leaves, Mem.Live, Mem.Clean, Trace, Answers, ResetPages, Statistics, Marks, PageOf;
    mem.CleanMeans();
    ghost var t := TrackedOf(mem);
    mem.ResetAccessStats();
    answers := RunOps(mem, ops);
    forall b: u32 ensures Statistics(Attr(t.mem, b), Marks(ops, b), Attr(mem.View(), b)) {
      StatisticsAreExact(t, ops, b);
    }
  }
}
