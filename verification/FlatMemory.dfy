/**
The reference memory: 2^32 byte cells, each with an attribute byte, its own data byte and an optional
location in host memory that replaces the own byte while the page is mapped. Nothing is lazy here.
Every access is a sequence of byte events at consecutive addresses (modulo 2^32).
*/
module FlatMemory {
  import opened Words

  // Attribute bits of include/x86emu.h.
  const PERM_R: bv8 := 0x01
  const PERM_W: bv8 := 0x02
  const PERM_X: bv8 := 0x04
  const PERM_RWX: bv8 := 0x07
  const PERM_VALID: bv8 := 0x08
  const ACC_R: bv8 := 0x10
  const ACC_W: bv8 := 0x20
  const ACC_X: bv8 := 0x40
  const ACC_INVALID: bv8 := 0x80
  const WRITTEN: bv8 := 0x28 // PERM_VALID | ACC_W
  const READY: bv8 := 0x09 // PERM_R | PERM_VALID
  const ACC_ALL: bv8 := 0xf0

  predicate Has(x: bv8, bit: bv8) { x & bit != 0 }

  predicate HasAll(x: bv8, m: bv8) { x & m == m }

  function Join(x: bv8, m: bv8): bv8 { x | m }

  datatype Cell = Cell(attr: bv8, own: u8, loc: Option<HostAddr>)

  /** `host` is the host's address space; a mapped cell names a byte of it, so two cells may share one. */
  datatype Flat = Flat(cells: seq<Cell>, host: seq<u8>, invalid: bool) {
    ghost predicate Valid() { |cells| == 0x1_0000_0000 && |host| == 0x1_0000_0000_0000 }
  }

  ghost function Blank(): (f: Flat)
    ensures f.Valid()
  {
    Flat(seq(0x1_0000_0000, _ => Cell(0, 0, None)), seq(0x1_0000_0000_0000, _ => 0), false)
  }

  type FlatMem = f: Flat | f.Valid() ghost witness Blank()

  function Attr(f: FlatMem, a: u32): bv8 { f.cells[a].attr }

  function Data(f: FlatMem, a: u32): u8 {
    if f.cells[a].loc.None? then f.cells[a].own else f.host[f.cells[a].loc.value]
  }

  function PutAttr(f: FlatMem, a: u32, x: bv8): FlatMem {
    f.(cells := f.cells[a := f.cells[a].(attr := x)])
  }

  function PutData(f: FlatMem, a: u32, v: u8): FlatMem {
    if f.cells[a].loc.None? then f.(cells := f.cells[a := f.cells[a].(own := v)])
    else f.(host := f.host[f.cells[a].loc.value := v])
  }

  function OrAttr(f: FlatMem, a: u32, m: bv8): FlatMem { PutAttr(f, a, Join(Attr(f, a), m)) }

  lemma OrAttrIs(f: FlatMem, a: u32, m: bv8)
    ensures OrAttr(f, a, m) == PutAttr(f, a, Join(Attr(f, a), m))
  {
  }

  lemma PutAttrTwice(f: FlatMem, a: u32, x: bv8, y: bv8)
    ensures PutAttr(PutAttr(f, a, x), a, y) == PutAttr(f, a, y)
  {
    hide Join, Has, HasAll;
    assert f.cells[a := f.cells[a].(attr := x)][a := f.cells[a].(attr := y)] == f.cells[a := f.cells[a].(attr := y)];
  }

  lemma PutAttrSame(f: FlatMem, a: u32)
    ensures PutAttr(f, a, Attr(f, a)) == f
  {
    assert f.cells[a := f.cells[a]] == f.cells;
  }

  // ---- byte events ----

  /** One byte access: read, instruction fetch, write, and the two forms that ignore permissions. */
  datatype Event = Rd | Ex | RdRaw | Wr(v: u8) | WrRaw(v: u8)

  function MarkUse(x: bv8, acc: bv8): bv8 {
    var y := Join(x, acc);
    if Has(y, PERM_VALID) then y else Join(y, ACC_INVALID)
  }

  /** What the event does to the attribute byte. A denied read or fetch leaves no mark; a denied write does. */
  function Touch(x: bv8, e: Event): bv8 {
    match e
    case Rd => if Has(x, PERM_R) then MarkUse(x, ACC_R) else x
    case Ex => if Has(x, PERM_X) then MarkUse(x, ACC_X) else x
    case RdRaw => x
    case Wr(_) => if Has(x, PERM_W) then Join(x, WRITTEN) else Join(x, ACC_INVALID)
    case WrRaw(_) => Join(x, WRITTEN)
  }

  /** Does the event raise the memory's `invalid` flag? */
  predicate Fails(x: bv8, e: Event) {
    match e
    case Rd => !Has(x, PERM_R) || !Has(x, PERM_VALID)
    case Ex => !Has(x, PERM_X) || !Has(x, PERM_VALID)
    case RdRaw => false
    case Wr(_) => !Has(x, PERM_W)
    case WrRaw(_) => false
  }

  /** The byte value the event delivers (0 for the writes, which deliver none). */
  function Sees(f: FlatMem, a: u32, e: Event): u8 {
    match e
    case Rd => if Has(Attr(f, a), PERM_R) then Data(f, a) else 0xff
    case Ex => if Has(Attr(f, a), PERM_X) then Data(f, a) else 0xff
    case RdRaw => Data(f, a)
    case Wr(_) => 0
    case WrRaw(_) => 0
  }

  function Stored(x: bv8, e: Event): Option<u8> {
    match e
    case Wr(v) => if Has(x, PERM_W) then Some(v) else None
    case WrRaw(v) => Some(v)
    case _ => None
  }

  function Step(f: FlatMem, a: u32, e: Event): FlatMem {
    var x := Attr(f, a);
    var g := PutAttr(f, a, Touch(x, e)).(invalid := f.invalid || Fails(x, e));
    if Stored(x, e).Some? then PutData(g, a, Stored(x, e).value) else g
  }

  // ---- accesses of one, two and four bytes ----

  function RByte(f: FlatMem, a: u32): (FlatMem, u8) { (Step(f, a, Rd), Sees(f, a, Rd)) }
  function XByte(f: FlatMem, a: u32): (FlatMem, u8) { (Step(f, a, Ex), Sees(f, a, Ex)) }
  function WByte(f: FlatMem, a: u32, v: u32): FlatMem { Step(f, a, Wr(U8(v))) }

  function RWord(f: FlatMem, a: u32): (FlatMem, u16) {
    var (g, lo) := RByte(f, a);
    var (h, hi) := RByte(g, U32(a + 1));
    (h, Word(lo, hi))
  }

  lemma RWordIs(f: FlatMem, a: u32)
    ensures var g := RByte(f, a).0;
      RWord(f, a) == (RByte(g, U32(a + 1)).0, Word(RByte(f, a).1, RByte(g, U32(a + 1)).1))
  {
  }

  function XWord(f: FlatMem, a: u32): (FlatMem, u16) {
    var (g, lo) := XByte(f, a);
    var (h, hi) := XByte(g, U32(a + 1));
    (h, Word(lo, hi))
  }

  function WWord(f: FlatMem, a: u32, v: u32): FlatMem {
    WByte(WByte(f, a, v), U32(a + 1), v / 0x100)
  }

  function RDword(f: FlatMem, a: u32): (FlatMem, u32) {
    var (g, lo) := RWord(f, a);
    var (h, hi) := RWord(g, U32(a + 2));
    (h, Dword(lo, hi))
  }

  function XDword(f: FlatMem, a: u32): (FlatMem, u32) {
    var (g, lo) := XWord(f, a);
    var (h, hi) := XWord(g, U32(a + 2));
    (h, Dword(lo, hi))
  }

  function WDword(f: FlatMem, a: u32, v: u32): FlatMem {
    WWord(WWord(f, a, v), U32(a + 2), v / 0x1_0000)
  }

  lemma RDwordIs(f: FlatMem, a: u32)
    ensures var (g, b0) := RByte(f, a);
      var (h, b1) := RByte(g, U32(a + 1));
      var (k, b2) := RByte(h, U32(a + 2));
      var (l, b3) := RByte(k, U32(a + 3));
      RDword(f, a) == (l, Dword(Word(b0, b1), Word(b2, b3)))
  {
    hide RByte;
  }

  lemma WDwordIs(f: FlatMem, a: u32, v: u32)
    ensures WDword(f, a, v) ==
      WByte(WByte(WByte(WByte(f, a, v), U32(a + 1), v / 0x100), U32(a + 2), v / 0x1_0000), U32(a + 3), v / 0x100_0000)
  {
    hide WByte;
    assert v / 0x1_0000 / 0x100 == v / 0x100_0000;
  }

  // ---- what the fast paths do, as byte events ----

  function OrWord(f: FlatMem, a: u32, m: bv8): FlatMem
    requires a < 0xffff_ffff
  {
    OrAttr(OrAttr(f, a, m), a + 1, m)
  }

  function PutWord(f: FlatMem, a: u32, v: u32): FlatMem
    requires a < 0xffff_ffff
  {
    PutData(PutData(f, a, U8(v)), a + 1, U8(v / 0x100))
  }

  function DataWord(f: FlatMem, a: u32): u16
    requires a < 0xffff_ffff
  {
    Word(Data(f, a), Data(f, a + 1))
  }

  /** Both bytes have all the bits of `m`. */
  predicate WordHas(f: FlatMem, a: u32, m: bv8)
    requires a < 0xffff_ffff
  {
    HasAll(Attr(f, a), m) && HasAll(Attr(f, a + 1), m)
  }

  lemma ReadyBits(x: bv8)
    ensures HasAll(x, READY) <==> Has(x, PERM_R) && Has(x, PERM_VALID)
    ensures HasAll(x, PERM_W) <==> Has(x, PERM_W)
    ensures Has(x, PERM_VALID) ==> Has(Join(x, ACC_R), PERM_VALID)
  {
  }

  lemma ReadyByte(f: FlatMem, a: u32)
    requires HasAll(Attr(f, a), READY)
    ensures RByte(f, a) == (OrAttr(f, a, ACC_R), Data(f, a))
  {
    ReadyBits(Attr(f, a));
  }

  lemma ReadyWord(f: FlatMem, a: u32)
    requires a < 0xffff_ffff && WordHas(f, a, READY)
    ensures RWord(f, a) == (OrWord(f, a, ACC_R), DataWord(f, a))
  {
    ReadyByte(f, a);
    ReadyByte(OrAttr(f, a, ACC_R), a + 1);
  }

  lemma OrWordElsewhere(f: FlatMem, a: u32, m: bv8, b: u32, n: bv8)
    requires a < 0xffff_ffff && b < 0xffff_ffff && (a + 1 < b || b + 1 < a)
    ensures WordHas(OrWord(f, a, m), b, n) == WordHas(f, b, n)
  {
    hide Join, Has, HasAll;
  }

  lemma OrWordKeepsData(f: FlatMem, a: u32, m: bv8, b: u32)
    requires a < 0xffff_ffff && b < 0xffff_ffff
    ensures DataWord(OrWord(f, a, m), b) == DataWord(f, b)
  {
    hide Join, Has, HasAll;
  }

  lemma DwordOrKeepsData(f: FlatMem, a: u32, m: bv8)
    requires a < 0xffff_fffd
    ensures var g := OrWord(OrWord(f, a, m), a + 2, m);
      DataWord(g, a) == DataWord(f, a) && DataWord(g, a + 2) == DataWord(f, a + 2)
  {
    hide OrWord, DataWord;
    OrWordKeepsData(f, a, m, a);
    OrWordKeepsData(f, a, m, a + 2);
    OrWordKeepsData(OrWord(f, a, m), a + 2, m, a);
    OrWordKeepsData(OrWord(f, a, m), a + 2, m, a + 2);
  }

  lemma PutWordKeepsAttr(f: FlatMem, a: u32, v: u32, b: u32, n: bv8)
    requires a < 0xffff_ffff && b < 0xffff_ffff
    ensures WordHas(PutWord(f, a, v), b, n) == WordHas(f, b, n)
  {
    hide Join, Has, HasAll;
  }

  lemma ReadyDword(f: FlatMem, a: u32)
    requires a < 0xffff_fffd && WordHas(f, a, READY) && WordHas(f, a + 2, READY)
    ensures RDword(f, a) ==
      (OrWord(OrWord(f, a, ACC_R), a + 2, ACC_R), Dword(DataWord(f, a), DataWord(f, a + 2)))
  {
    hide WordHas, OrWord, DataWord, RWord;
    ReadyWord(f, a);
    OrWordElsewhere(f, a, ACC_R, a + 2, READY);
    OrWordKeepsData(f, a, ACC_R, a + 2);
    ReadyWord(OrWord(f, a, ACC_R), a + 2);
  }

  lemma PutsCommute(f: FlatMem, a: u32, v: u8, b: u32, m: bv8)
    requires a != b
    ensures OrAttr(PutData(f, a, v), b, m) == PutData(OrAttr(f, b, m), a, v)
  {
    hide Join, Has, HasAll;
    if f.cells[a].loc.None? {
      var y, z := f.cells[a].(own := v), f.cells[b].(attr := Join(f.cells[b].attr, m));
      assert f.cells[a := y][b := z] == f.cells[b := z][a := y];
    }
  }

  lemma WritableByte(f: FlatMem, a: u32, v: u32)
    requires HasAll(Attr(f, a), PERM_W)
    ensures WByte(f, a, v) == PutData(OrAttr(f, a, WRITTEN), a, U8(v))
  {
    ReadyBits(Attr(f, a));
  }

  lemma WritableWord(f: FlatMem, a: u32, v: u32)
    requires a < 0xffff_ffff && WordHas(f, a, PERM_W)
    ensures WWord(f, a, v) == PutWord(OrWord(f, a, WRITTEN), a, v)
  {
    var m := WRITTEN;
    WritableByte(f, a, v);
    WritableByte(PutData(OrAttr(f, a, m), a, U8(v)), a + 1, v / 0x100);
    PutsCommute(OrAttr(f, a, m), a, U8(v), a + 1, m);
  }

  lemma WordPutsCommute(f: FlatMem, a: u32, v: u32, m: bv8)
    requires a < 0xffff_fffd
    ensures OrWord(PutWord(f, a, v), a + 2, m) == PutWord(OrWord(f, a + 2, m), a, v)
  {
    hide Join, Has, HasAll;
    var lo, hi := U8(v), U8(v / 0x100);
    PutsCommute(PutData(f, a, lo), a + 1, hi, a + 2, m);
    PutsCommute(f, a, lo, a + 2, m);
    PutsCommute(PutData(OrAttr(f, a + 2, m), a, lo), a + 1, hi, a + 3, m);
    PutsCommute(OrAttr(f, a + 2, m), a, lo, a + 3, m);
  }

  lemma WritableDword(f: FlatMem, a: u32, v: u32)
    requires a < 0xffff_fffd && WordHas(f, a, PERM_W) && WordHas(f, a + 2, PERM_W)
    ensures var m := WRITTEN;
      WDword(f, a, v) == PutWord(PutWord(OrWord(OrWord(f, a, m), a + 2, m), a, v), a + 2, v / 0x1_0000)
  {
    hide WordHas, OrWord, PutWord, WWord;
    var m := WRITTEN;
    WritableWord(f, a, v);
    OrWordElsewhere(f, a, m, a + 2, PERM_W);
    PutWordKeepsAttr(OrWord(f, a, m), a, v, a + 2, PERM_W);
    WritableWord(PutWord(OrWord(f, a, m), a, v), a + 2, v / 0x1_0000);
    WordPutsCommute(OrWord(f, a, m), a, v, m);
  }

  // ---- whole-range updates ----

  /** Attributes of [lo, hi) become `perm`; data stays. */
  ghost function SetAttrs(f: FlatMem, lo: nat, hi: nat, perm: bv8): FlatMem {
    f.(cells := seq(0x1_0000_0000, a requires 0 <= a < 0x1_0000_0000 =>
      if lo <= a < hi then f.cells[a].(attr := perm) else f.cells[a]))
  }

  lemma SetAttrsIs(f: FlatMem, lo: nat, hi: nat, perm: bv8, cells: seq<Cell>)
    requires |cells| == 0x1_0000_0000
    requires forall a :: 0 <= a < 0x1_0000_0000 ==>
      cells[a] == if lo <= a < hi then f.cells[a].(attr := perm) else f.cells[a]
    ensures SetAttrs(f, lo, hi, perm).cells == cells
  {
  }

  lemma SetAttrsNone(f: FlatMem, lo: nat, perm: bv8)
    ensures SetAttrs(f, lo, lo, perm) == f
  {
    assert SetAttrs(f, lo, lo, perm).cells == f.cells;
  }

  lemma SetAttrsNext(f: FlatMem, lo: nat, hi: u32, perm: bv8)
    requires lo <= hi
    ensures PutAttr(SetAttrs(f, lo, hi, perm), hi, perm) == SetAttrs(f, lo, hi + 1, perm)
  {
    assert PutAttr(SetAttrs(f, lo, hi, perm), hi, perm).cells == SetAttrs(f, lo, hi + 1, perm).cells;
  }

  lemma SetAttrsJoin(f: FlatMem, lo: nat, mid: nat, hi: nat, perm: bv8)
    requires lo <= mid <= hi
    ensures SetAttrs(SetAttrs(f, lo, mid, perm), mid, hi, perm) == SetAttrs(f, lo, hi, perm)
  {
    assert SetAttrs(SetAttrs(f, lo, mid, perm), mid, hi, perm).cells == SetAttrs(f, lo, hi, perm).cells;
  }

  /** Attributes of [lo, hi) gain the bits of `m`. */
  ghost function OrAttrs(f: FlatMem, lo: nat, hi: nat, m: bv8): FlatMem {
    f.(cells := seq(0x1_0000_0000, a requires 0 <= a < 0x1_0000_0000 =>
      if lo <= a < hi then f.cells[a].(attr := Join(f.cells[a].attr, m)) else f.cells[a]))
  }

  lemma OrAttrsNext(f: FlatMem, lo: nat, hi: u32, m: bv8)
    requires lo <= hi
    ensures OrAttrs(f, lo, lo, m) == f
    ensures OrAttr(OrAttrs(f, lo, hi, m), hi, m) == OrAttrs(f, lo, hi + 1, m)
  {
    hide Join;
    assert OrAttrs(f, lo, lo, m).cells == f.cells;
    assert OrAttr(OrAttrs(f, lo, hi, m), hi, m).cells == OrAttrs(f, lo, hi + 1, m).cells;
  }

  /** The bytes of page `p` move to host bytes `o`.., or back to the cells' own bytes. */
  ghost function Relocate(f: FlatMem, p: nat, o: Option<HostAddr>): FlatMem
    requires p < 0x10_0000
    requires o.Some? ==> o.value + 0x1000 <= 0x1_0000_0000_0000
  {
    f.(cells := seq(0x1_0000_0000, a requires 0 <= a < 0x1_0000_0000 =>
      if 0x1000 * p <= a < 0x1000 * p + 0x1000
      then f.cells[a].(loc := if o.None? then None else Some(o.value + (a - 0x1000 * p))) else f.cells[a]))
  }

  lemma RelocateIs(f: FlatMem, p: nat, o: Option<HostAddr>, lo: int, cells: seq<Cell>)
    requires p < 0x10_0000 && lo == 0x1000 * p && |cells| == 0x1_0000_0000
    requires o.Some? ==> o.value + 0x1000 <= 0x1_0000_0000_0000
    requires forall a :: 0 <= a < 0x1_0000_0000 ==>
      cells[a] == if lo <= a < lo + 0x1000
                  then f.cells[a].(loc := if o.None? then None else Some(o.value + (a - lo))) else f.cells[a]
    ensures Relocate(f, p, o).cells == cells
  {
  }

  /** A newly mapped page counts as initialised. */
  ghost function MapPage(f: FlatMem, p: nat, o: Option<HostAddr>): FlatMem
    requires p < 0x10_0000
    requires o.Some? ==> o.value + 0x1000 <= 0x1_0000_0000_0000
  {
    if o.None? then Relocate(f, p, o)
    else OrAttrs(Relocate(f, p, o), 0x1000 * p, 0x1000 * p + 0x1000, PERM_VALID)
  }

  function Unmark(x: bv8): bv8 { x & (PERM_RWX | PERM_VALID) }

  lemma UnmarkedIs(x: bv8)
    ensures Unmark(x) == x <==> x & ACC_ALL == 0
  {
  }

  ghost function UnmarkAttrs(f: FlatMem, lo: nat, hi: nat): FlatMem {
    f.(cells := seq(0x1_0000_0000, a requires 0 <= a < 0x1_0000_0000 =>
      if lo <= a < hi then f.cells[a].(attr := Unmark(f.cells[a].attr)) else f.cells[a]))
  }

  lemma UnmarkAttrsNext(f: FlatMem, lo: nat, hi: u32)
    requires lo <= hi
    ensures UnmarkAttrs(f, lo, lo) == f
    ensures Attr(UnmarkAttrs(f, lo, hi), hi) == Attr(f, hi)
    ensures PutAttr(UnmarkAttrs(f, lo, hi), hi, Unmark(Attr(f, hi))) == UnmarkAttrs(f, lo, hi + 1)
  {
    hide Unmark;
    assert UnmarkAttrs(f, lo, lo).cells == f.cells;
    assert PutAttr(UnmarkAttrs(f, lo, hi), hi, Unmark(Attr(f, hi))).cells == UnmarkAttrs(f, lo, hi + 1).cells;
  }

  /** All access marks are cleared. */
  ghost function Reset(f: FlatMem): FlatMem {
    f.(cells := seq(0x1_0000_0000, a requires 0 <= a < 0x1_0000_0000 =>
      f.cells[a].(attr := Unmark(f.cells[a].attr))))
  }

  /**
  The range x86emu_set_perm changes ends at `end`, except that a range that starts at 0 and covers page 0 stops
  with that page.
  */
  function LastSet(start: u32, end: u32): u32 { if start == 0 && end >= 0xfff then 0xfff else end }

  ghost function SetPerm(f: FlatMem, start: u32, end: u32, perm: bv8): FlatMem {
    if start > end then f else SetAttrs(f, start, LastSet(start, end) + 1, perm)
  }

  // ---- the memory interface ----

  datatype Kind = KRead | KWrite | KExec

  /** Access sizes of the interface: 0, 1, 2 for 8, 16, 32 bits, 3 for a byte without permission check. */
  type Size = x: int | 0 <= x < 4

  /** One access: new memory, the value delivered (`val` again where none is), and whether it failed. */
  function MemIo(f: FlatMem, addr: u32, val: u32, kind: Kind, size: Size): (FlatMem, u32, bool) {
    var g := f.(invalid := false);
    var r: (FlatMem, u32) :=
      match (kind, size)
      case (KRead, 0) => RByte(g, addr)
      case (KRead, 1) => RWord(g, addr)
      case (KRead, 2) => RDword(g, addr)
      case (KRead, _) => (Step(g, addr, RdRaw), Sees(g, addr, RdRaw))
      case (KWrite, 0) => (WByte(g, addr, val), val)
      case (KWrite, 1) => (WWord(g, addr, val), val)
      case (KWrite, 2) => (WDword(g, addr, val), val)
      case (KWrite, _) => (Step(g, addr, WrRaw(U8(val))), val)
      case (KExec, 0) => XByte(g, addr)
      case (KExec, 1) => XWord(g, addr)
      case (KExec, 2) => XDword(g, addr)
      case (KExec, _) => (g, val);
    (r.0, r.1, r.0.invalid)
  }
}
