/**
The memory of the emulator (mem.c): a page directory, page tables and pages, each allocated when it is first needed.
`Mem.View` is the flat memory it stands for and `Mem.Live` the pages that exist; every method says what it does to both.
*/
module PagedMemory {
  import Bits
  import opened Words
  import opened FlatMemory
  import opened AttrWords

  /**
  mem2_page_t. `own` is the upper half of the block that starts at `attr`; `ext` is set while `data` points elsewhere.
  */
  datatype Page = Page(attr: array?<bv8>, own: array?<u8>, ext: Option<HostAddr>, defAttr: bv8)

  type Table = array<Page>

  /** What an object of the page table is for; each object has one role, so distinct roles mean distinct objects. */
  datatype Role = Dir | TableOf(i: int) | AttrOf(i: int, j: int) | OwnOf(i: int, j: int)

  // The three parts of an address.
  function PdirIdx(a: u32): (i: nat)
    ensures i < 0x400
  {
    a / 0x40_0000
  }

  function PtableIdx(a: u32): (j: nat)
    ensures j < 0x400
  {
    a / 0x1000 % 0x400
  }

  function PageIdx(a: u32): (k: nat)
    ensures k < 0x1000
  {
    a % 0x1000
  }

  /** Table and position of an address's page. */
  function PageOf(a: u32): (int, int) { (PdirIdx(a), PtableIdx(a)) }

  /** The pages of the `n` bytes at `a`. */
  function Spanned(a: u32, n: nat): set<(int, int)> {
    if n == 0 then {} else if n == 1 then {PageOf(a)} else if n == 2 then {PageOf(a), PageOf(U32(a + 1))}
    else {PageOf(a), PageOf(U32(a + 1)), PageOf(U32(a + 2)), PageOf(U32(a + 3))}
  }

  /** The pages an access brings into being. */
  function AccessPages(addr: u32, kind: Kind, size: Size): set<(int, int)> {
    Spanned(addr, if size == 1 then 2 else if size == 2 then 4 else if size == 0 || !kind.KExec? then 1 else 0)
  }

  /**
  The pages a permission update brings into being: those it covers in part, and page 0 when whole pages up to the top
  of the address space have wrapped the address.
  */
  function PermPages(start: u32, end: u32): set<(int, int)> {
    if start > end then {}
    else
      var last := LastSet(start, end);
      (if start % 0x1000 != 0 then {PageOf(start)} else {})
      + (if (last + 1) % 0x1000 != 0 then {PageOf(last)} else {})
      + (if 0 < start <= 0xffff_f000 && end == 0xffff_ffff then {PageOf(0)} else {})
  }

  /** The marks of the pages in `live` are cleared. */
  ghost function ResetPages(f: FlatMem, live: set<(int, int)>): FlatMem {
    f.(cells := seq(0x1_0000_0000, a requires 0 <= a < 0x1_0000_0000 =>
      if PageOf(a) in live then f.cells[a].(attr := Unmark(f.cells[a].attr)) else f.cells[a]))
  }

  /** The first address of page `j` of table `i`. */
  function First(i: int, j: int): int { 0x40_0000 * i + 0x1000 * j }

  /** Where the page of an address begins. */
  lemma FirstOf(a: u32)
    ensures First(PdirIdx(a), PtableIdx(a)) == 0x1000 * (a / 0x1000) == a - PageIdx(a) && 0 <= a / 0x1000 < 0x10_0000
  {
    Indices(a);
  }

  /** The three indices determine the address. */
  lemma SameIndices(a: u32, b: u32)
    ensures PdirIdx(a) == PdirIdx(b) && PtableIdx(a) == PtableIdx(b) && PageIdx(a) == PageIdx(b) ==> a == b
  {
    Indices(a);
    Indices(b);
  }

  lemma FirstIs(i: int, j: int)
    requires 0 <= i < 0x400 && 0 <= j < 0x400
    ensures 0 <= First(i, j) <= 0xffff_f000
    ensures PdirIdx(First(i, j)) == i && PtableIdx(First(i, j)) == j && PageIdx(First(i, j)) == 0
  {
  }

  lemma FirstNext(i: int, j: int)
    requires 0 <= i < 0x400 && 0 <= j < 0x400
    ensures First(i, j + 1) == First(i, j) + 0x1000
    ensures First(i, 0x400) == First(i + 1, 0)
  {
  }

  lemma FirstRow(i: int, i': int, j': int)
    requires 0 <= i < 0x400 && 0 <= i' < 0x400 && 0 <= j' < 0x400
    ensures First(i', j') < First(i + 1, 0) <==> First(i', j') < First(i, 0) || i' == i
    ensures i' == i ==> First(i, 0) <= First(i', j')
  {
  }

  lemma FirstEnds()
    ensures First(0, 0) == 0 && First(0x400, 0) == 0x1_0000_0000
  {
  }

  lemma InTable(a: u32, i: int)
    requires 0 <= i < 0x400
    ensures First(i, 0) <= a < First(i + 1, 0) <==> PdirIdx(a) == i
  {
  }

  lemma InPage(a: u32, i: int, j: int)
    requires 0 <= i < 0x400 && 0 <= j < 0x400
    ensures First(i, j) <= a < First(i, j) + 0x1000 <==> PdirIdx(a) == i && PtableIdx(a) == j
    ensures PdirIdx(a) == i && PtableIdx(a) == j ==> a - First(i, j) == PageIdx(a)
  {
    Indices(a);
    if First(i, j) <= a < First(i, j) + 0x1000 {
      Bits.DivUnique(a, 0x1000, 0x400 * i + j, a - First(i, j));
      Bits.DivUnique(0x400 * i + j, 0x400, i, j);
    }
  }

  /** An address is made of its three indices. */
  lemma Indices(a: u32)
    ensures a == 0x40_0000 * PdirIdx(a) + 0x1000 * PtableIdx(a) + PageIdx(a)
    ensures PdirIdx(a) == a / 0x1000 / 0x400
  {
    Bits.DivMod(a, 0x1000);
    Bits.DivMod(a / 0x1000, 0x400);
    Bits.DivUnique(a, 0x40_0000, a / 0x1000 / 0x400, 0x1000 * (a / 0x1000 % 0x400) + a % 0x1000);
  }

  /**
  x86emu_mem_t. The ghost fields: `dirs` and `blocks` give every object of the page table its role, `pages` is the
  directory and its tables laid out as sequences (absent tables included), `cells` is the reference memory's content.
  */
  class Mem {
    var pdir: array?<array?<Page>>
    var invalid: bool
    const defAttr: bv8
    const host: array<u8>
    ghost var dirs: map<object?, Role>
    ghost var blocks: map<object?, Role>
    ghost var pages: seq<seq<Page>>
    ghost var cells: seq<Cell>

    ghost function Repr(): set<object?>
      reads `dirs, `blocks
    {
      dirs.Keys + blocks.Keys
    }

    ghost predicate Sized()
      reads `pages
    {
      |pages| == 0x400 && forall i :: 0 <= i < 0x400 ==> |pages[i]| == 0x400
    }

    ghost function BlankRow(): (r: seq<Page>)
      ensures |r| == 0x400 && forall j :: 0 <= j < 0x400 ==> r[j] == Page(null, null, None, defAttr)
    {
      seq(0x400, _ => Page(null, null, None, defAttr))
    }

    /** The directory and the tables hold exactly `pages`. */
    ghost predicate Tree()
      reads `pages, `pdir, `dirs, dirs.Keys
    {
      && Sized()
      && (pdir == null ==> forall i :: 0 <= i < 0x400 ==> pages[i] == BlankRow())
      && (pdir != null ==> pdir in dirs && dirs[pdir] == Dir && pdir.Length == 0x400
                           && forall i :: 0 <= i < 0x400 ==> TableAt(i, pdir[i]))
    }

    ghost predicate TableAt(i: int, pt: array?<Page>)
      requires Sized() && 0 <= i < 0x400
      reads `pages, `dirs, dirs.Keys
    {
      if pt == null then pages[i] == BlankRow()
      else pt in dirs && dirs[pt] == TableOf(i) && pt.Length == 0x400 && pt[..] == pages[i]
    }

    ghost predicate PageShape(i: int, j: int, g: Page)
      reads `blocks
    {
      && (g.attr == null <==> g.own == null)
      && (g.attr == null ==> g.ext.None?)
      && (g.attr != null ==>
            && g.attr.Length == 0x1000 && g.attr in blocks && blocks[g.attr] == AttrOf(i, j)
            && g.own.Length == 0x1000 && g.own in blocks && blocks[g.own] == OwnOf(i, j))
      && (g.ext.Some? ==> g.ext.value + 0x1000 <= 0x1_0000_0000_0000)
    }

    /** Byte `k` of a page as the reference memory sees it. */
    static ghost function PageCell(g: Page, k: int): Cell
      requires g.attr != null ==> g.own != null && g.attr.Length == g.own.Length == 0x1000
      requires g.ext.Some? ==> g.ext.value + 0x1000 <= 0x1_0000_0000_0000
      requires 0 <= k < 0x1000
      reads g.attr, g.own
    {
      if g.attr == null then Cell(g.defAttr, 0, None)
      else Cell(g.attr[k], g.own[k], if g.ext.None? then None else Some(g.ext.value + k))
    }

    /** The page blocks hold exactly `cells`. */
    ghost predicate Leaves()
      reads `pages, `cells, `blocks, blocks.Keys
    {
      && Sized() && |cells| == 0x1_0000_0000
      && (forall i, j :: 0 <= i < 0x400 && 0 <= j < 0x400 ==> PageShape(i, j, pages[i][j]))
      && (forall a :: 0 <= a < 0x1_0000_0000 ==>
            cells[a] == PageCell(pages[PdirIdx(a)][PtableIdx(a)], PageIdx(a)))
    }

    ghost predicate Apart()
      reads `dirs, `blocks
    {
      && dirs.Keys !! blocks.Keys
      && this !in Repr() && host !in Repr() && null !in Repr() && host.Length == 0x1_0000_0000_0000
    }

    ghost predicate Valid()
      reads this, Repr()
    {
      Apart() && Tree() && Leaves()
    }

    /** No page that is still to be created would start with access marks. */
    ghost predicate Clean()
      reads `pages
    {
      Sized() && forall i, j :: 0 <= i < 0x400 && 0 <= j < 0x400 && pages[i][j].attr == null ==>
        pages[i][j].defAttr & ACC_ALL == 0
    }

    ghost function View(): FlatMem
      requires Valid()
      reads this, Repr(), host
    {
      Flat(cells, host[..], invalid)
    }

    /** The pages that have a block. */
    ghost function Live(): set<(int, int)>
      reads `pages
    {
      PagesIn(pages)
    }

    static ghost function PagesIn(ps: seq<seq<Page>>): set<(int, int)> {
      set i, j | 0 <= i < |ps| && 0 <= j < |ps[i]| && ps[i][j].attr != null :: (i, j)
    }

    static lemma PagesInUpdate(ps: seq<seq<Page>>, i: nat, j: nat, g: Page)
      requires i < |ps| && j < |ps[i]|
      ensures var qs := ps[i := ps[i][j := g]];
        PagesIn(qs) == if g.attr != null then PagesIn(ps) + {(i, j)} else PagesIn(ps) - {(i, j)}
    {
    }

    constructor (perm: bv8, hostMemory: array<u8>)
      requires hostMemory.Length == 0x1_0000_0000_0000
      ensures Valid() && fresh(Repr()) && host == hostMemory && defAttr == perm && pdir == null && !invalid
      ensures Sized() && forall i, j :: 0 <= i < 0x400 && 0 <= j < 0x400 ==> pages[i][j] == Page(null, null, None, perm)
      ensures forall a :: 0 <= a < 0x1_0000_0000 ==> cells[a] == Cell(perm, 0, None)
      ensures (perm & ACC_ALL == 0 ==> Clean()) && Live() == {}
    {
      pdir := null;
      invalid := false;
      defAttr := perm;
      host := hostMemory;
      dirs, blocks := map[], map[];
      pages := seq(0x400, _ => seq(0x400, _ => Page(null, null, None, perm)));
      cells := seq(0x1_0000_0000, _ => Cell(perm, 0, None));
    }

    /** The page directory is allocated on the first access to any address. */
    method MakeDir()
      requires Valid() && pdir == null
      modifies `pdir, `dirs
      ensures Valid() && fresh(Repr() - old(Repr())) && pdir != null && fresh(pdir) && pdir in dirs
      ensures pdir.Length == 0x400 && forall i :: 0 <= i < 0x400 ==> pdir[i] == null
    {
      hide Mem.Leaves;
      pdir := new array?<Page>[0x400](_ => null);
      dirs := dirs[pdir := Dir];
    }

    /** A page table is allocated on the first access to its 4 MB; its pages inherit the memory's default attribute. */
    method MakeTable(i: nat)
      requires Valid() && pdir != null && i < 0x400 && i < pdir.Length && pdir[i] == null
      modifies `dirs, pdir
      ensures Valid() && fresh(Repr() - old(Repr())) && pdir[i] != null && pdir[i].Length == 0x400 && fresh(pdir[i])
      ensures forall i' :: 0 <= i' < pdir.Length && i' != i ==> pdir[i'] == old(pdir[i'])
      ensures old(dirs.Keys) <= dirs.Keys
    {
      hide Mem.Leaves;
      var d := defAttr;
      var pt := new Page[0x400](_ => Page(null, null, None, d));
      pdir[i] := pt;
      dirs := dirs[pt := TableOf(i)];
    }

    /** `(*ptable)[j] = g`, for a record whose blocks (if any) belong to this page */
    method PutPage(pt: Table, ghost i: nat, j: nat, g: Page)
      requires Valid() && i < 0x400 && j < 0x400
      requires pdir != null && pdir.Length == 0x400 && pdir[i] == pt && pt.Length == 0x400
      requires PageShape(i, j, g)
      modifies `pages, `cells, pt
      ensures Valid() && pdir[i] == pt && pages[i][j] == pt[j] == g
      ensures pages == old(pages)[i := old(pages[i])[j := g]]
      ensures Live() == if g.attr != null then old(Live()) + {(i, j)} else old(Live()) - {(i, j)}
      ensures |cells| == 0x1_0000_0000
      ensures forall a :: 0 <= a < 0x1_0000_0000 ==>
        cells[a] == if First(i, j) <= a < First(i, j) + 0x1000 then PageCell(g, a - First(i, j)) else old(cells[a])
    {
      hide Join, Has, HasAll, PdirIdx, PtableIdx, PageIdx, First, Mem.PagesIn;
      PagesInUpdate(pages, i, j, g);
      pt[j] := g;
      pages := pages[i := pages[i][j := g]];
      assert Tree() by {
        hide Mem.Leaves;
      }
      ghost var was := cells;
      cells := seq(0x1_0000_0000, a requires 0 <= a < 0x1_0000_0000 reads g.attr, g.own =>
        if First(i, j) <= a < First(i, j) + 0x1000 then PageCell(g, a - First(i, j)) else was[a]);
      forall a | 0 <= a < 0x1_0000_0000
        ensures cells[a] == PageCell(pages[PdirIdx(a)][PtableIdx(a)], PageIdx(a))
      {
        InPage(a, i, j);
        assert PageShape(PdirIdx(a), PtableIdx(a), old(pages[PdirIdx(a)][PtableIdx(a)]));
        assert old(cells[a]) == old(PageCell(pages[PdirIdx(a)][PtableIdx(a)], PageIdx(a)));
      }
    }

    /** The old content of a page's bytes, through its record. */
    lemma PageCells(i: int, j: int)
      requires Valid() && 0 <= i < 0x400 && 0 <= j < 0x400
      ensures Sized() && PageShape(i, j, pages[i][j]) && |cells| == 0x1_0000_0000
      ensures (i, j) in Live() <==> pages[i][j].attr != null
      ensures pdir != null && pdir.Length == 0x400 && pdir[i] != null && pdir[i].Length == 0x400 ==>
        pdir[i][j] == pages[i][j]
      ensures forall a :: First(i, j) <= a < First(i, j) + 0x1000 ==> cells[a] == PageCell(pages[i][j], a - First(i, j))
    {
      assert pdir != null && pdir[i] != null ==> TableAt(i, pdir[i]) && pages[i][j] == pdir[i][..][j];
      hide Mem.Tree;
      forall a: u32 | First(i, j) <= a < First(i, j) + 0x1000
        ensures cells[a] == PageCell(pages[i][j], a - First(i, j)) {
        InPage(a, i, j);
      }
    }

    /** The block of one page: its attribute bytes, all `d`, and its own data bytes, all 0. */
    method NewBlock(ghost i: nat, ghost j: nat, d: bv8) returns (attr: array<bv8>, own: array<u8>)
      requires Valid()
      modifies `blocks
      ensures Valid() && fresh(attr) && fresh(own) && blocks == old(blocks)[attr := AttrOf(i, j)][own := OwnOf(i, j)]
      ensures attr.Length == own.Length == 0x1000
      ensures forall k :: 0 <= k < 0x1000 ==> attr[k] == d && own[k] == 0
      ensures attr in blocks && own in blocks && blocks[attr] == AttrOf(i, j) && blocks[own] == OwnOf(i, j)
    {
      hide Join, Has, HasAll, Mem.Tree;
      attr := new bv8[0x1000](_ => d);
      own := new u8[0x1000](_ => 0);
      blocks := blocks[attr := AttrOf(i, j)][own := OwnOf(i, j)];
    }

    /** A page's block is allocated on the first access that needs it. */
    method MakePage(pt: Table, ghost i: nat, j: nat)
      requires Valid() && i < 0x400 && j < 0x400 && pdir != null && pdir[i] == pt && pt[j].attr == null
      modifies `pages, `cells, `blocks, pt
      ensures Valid() && fresh(Repr() - old(Repr())) && pdir[i] == pt
      ensures pt[j].attr != null && pages[i][j] == pt[j] && cells == old(cells)
      ensures Live() == old(Live()) + {(i, j)}
    {
      PageCells(i, j);
      var attr, own := NewBlock(i, j, pt[j].defAttr);
      PutPage(pt, i, j, pt[j].(attr := attr, own := own));
      assert cells == old(cells);
    }

    /** `page` is the record of the page that holds `addr`, and its block exists. */
    ghost predicate Backs(page: Page, addr: u32)
      reads `pages, `blocks
    {
      && Sized() && page == pages[PdirIdx(addr)][PtableIdx(addr)]
      && page.attr != null && page.own != null && page.attr.Length == page.own.Length == 0x1000
      && page.attr in blocks && page.own in blocks
    }

    /** The page table of a 4 MB region. */
    method GetTable(i: nat) returns (pt: Table)
      requires Valid() && i < 0x400
      modifies `pdir, `dirs, dirs.Keys
      ensures Valid() && fresh(Repr() - old(Repr()))
      ensures pdir != null && pdir.Length == 0x400 && pdir[i] == pt && pt.Length == 0x400 && pt in Repr()
    {
      hide Mem.Leaves;
      if pdir == null {
        MakeDir();
      }
      if pdir[i] == null {
        MakeTable(i);
      }
      pt := pdir[i];
    }

    method GetPage(addr: u32, create: bool) returns (pt: Table, j: nat)
      requires Valid()
      modifies `pdir, `dirs, `pages, `cells, `blocks, dirs.Keys
      ensures Valid() && fresh(Repr() - old(Repr())) && View() == old(View())
      ensures pdir != null && pdir.Length == 0x400 && pdir[PdirIdx(addr)] == pt && pt.Length == 0x400
      ensures j == PtableIdx(addr) && |pages| == 0x400 && pt in Repr()
      ensures |pages[PdirIdx(addr)]| == 0x400 && pages[PdirIdx(addr)][j] == pt[j]
      ensures create ==> Backs(pt[j], addr) && pt[j].attr in Repr() && pt[j].own in Repr()
      ensures Live() == if create then old(Live()) + {PageOf(addr)} else old(Live())
    {
      hide Mem.PagesIn;
      var i := PdirIdx(addr);
      j := PtableIdx(addr);
      pt := GetTable(i);
      PageCells(i, j);
      if create {
        if pt[j].attr == null {
          MakePage(pt, i, j);
        }
      }
    }

    /** `mem->invalid = 1` */
    method SetInvalid()
      requires Valid()
      modifies `invalid
      ensures Valid() && View() == old(View()).(invalid := true)
    {
      hide Join, Has, HasAll, Mem.Tree, Mem.Leaves;
      invalid := true;
    }

    /** `page->attr[idx]` */
    method GetAttr(addr: u32, page: Page) returns (x: bv8)
      requires Valid() && Backs(page, addr)
      ensures x == Attr(View(), addr)
    {
      x := page.attr[PageIdx(addr)];
    }

    /** `page->attr[idx] = x` */
    method SetAttr(addr: u32, page: Page, x: bv8)
      requires Valid() && Backs(page, addr)
      modifies `cells, page.attr
      ensures Valid() && View() == PutAttr(old(View()), addr, x)
    {
      hide Join, Has, HasAll, Mem.Tree, PdirIdx, PtableIdx, PageIdx;
      page.attr[PageIdx(addr)] := x;
      cells := cells[addr := cells[addr].(attr := x)];
      forall a | 0 <= a < 0x1_0000_0000
        ensures cells[a] == PageCell(pages[PdirIdx(a)][PtableIdx(a)], PageIdx(a))
      {
        SameIndices(a, addr);
        assert PageShape(PdirIdx(a), PtableIdx(a), pages[PdirIdx(a)][PtableIdx(a)]);
        assert old(cells[a]) == old(PageCell(pages[PdirIdx(a)][PtableIdx(a)], PageIdx(a)));
      }
    }

    /** `page->data[idx]` */
    method GetData(addr: u32, page: Page) returns (v: u8)
      requires Valid() && Backs(page, addr)
      ensures v == Data(View(), addr)
    {
      if page.ext.None? {
        v := page.own[PageIdx(addr)];
      } else {
        v := host[page.ext.value + PageIdx(addr)];
      }
    }

    /** A page that owns its bytes. */
    method SetOwn(addr: u32, page: Page, v: u8)
      requires Valid() && Backs(page, addr) && page.ext.None?
      modifies `cells, page.own
      ensures Valid() && View() == PutData(old(View()), addr, v)
    {
      hide Join, Has, HasAll, Mem.Tree, PdirIdx, PtableIdx, PageIdx;
      assert cells[addr] == PageCell(page, PageIdx(addr));
      page.own[PageIdx(addr)] := v;
      cells := cells[addr := cells[addr].(own := v)];
      forall a | 0 <= a < 0x1_0000_0000
        ensures cells[a] == PageCell(pages[PdirIdx(a)][PtableIdx(a)], PageIdx(a))
      {
        SameIndices(a, addr);
        assert PageShape(PdirIdx(a), PtableIdx(a), pages[PdirIdx(a)][PtableIdx(a)]);
        assert old(cells[a]) == old(PageCell(pages[PdirIdx(a)][PtableIdx(a)], PageIdx(a)));
      }
    }

    /** A page whose bytes lie in host memory. */
    method SetHost(addr: u32, page: Page, v: u8)
      requires Valid() && Backs(page, addr) && page.ext.Some?
      modifies host
      ensures Valid() && View() == PutData(old(View()), addr, v)
    {
      hide Join, Has, HasAll, Mem.Tree;
      assert cells[addr] == PageCell(page, PageIdx(addr));
      hide Mem.Leaves;
      host[page.ext.value + PageIdx(addr)] := v;
    }

    /** `page->data[idx] = v` */
    method SetData(addr: u32, page: Page, v: u8)
      requires Valid() && Backs(page, addr)
      modifies `cells, page.own, host
      ensures Valid() && View() == PutData(old(View()), addr, v)
    {
      hide Mem.Valid, Mem.View, Mem.Backs, PutData;
      if page.ext.None? {
        SetOwn(addr, page, v);
      } else {
        SetHost(addr, page, v);
      }
    }

    /** A permitted read or fetch: leave its mark, and complain if the byte was never written. */
    method MarkAccess(addr: u32, page: Page, acc: bv8)
      requires Valid() && Backs(page, addr)
      modifies `cells, `invalid, page.attr
      ensures Valid()
      ensures var x := Attr(old(View()), addr); View() == PutAttr(old(View()), addr, MarkUse(x, acc)).(
        invalid := old(View()).invalid || !Has(Join(x, acc), PERM_VALID))
    {
      var x := GetAttr(addr, page);
      x := Join(x, acc);
      SetAttr(addr, page, x);
      if !Has(x, PERM_VALID) {
        PutAttrTwice(old(View()), addr, x, Join(x, ACC_INVALID));
        SetAttr(addr, page, Join(x, ACC_INVALID));
        SetInvalid();
      }
    }

    /** A permitted read or fetch of one byte. */
    method UseByte(addr: u32, page: Page, acc: bv8) returns (v: u8)
      requires Valid() && Backs(page, addr)
      modifies `cells, `invalid, page.attr
      ensures Valid() && v == Data(old(View()), addr)
      ensures var x := Attr(old(View()), addr); View() == PutAttr(old(View()), addr, MarkUse(x, acc)).(
        invalid := old(View()).invalid || !Has(Join(x, acc), PERM_VALID))
    {
      hide Join, Has, HasAll, Mem.Tree, Mem.Leaves, Mem.Apart;
      MarkAccess(addr, page, acc);
      v := GetData(addr, page);
    }

    /** A denied read or fetch. */
    method Deny(addr: u32)
      requires Valid()
      modifies `invalid
      ensures Valid() && View() == PutAttr(old(View()), addr, Attr(old(View()), addr)).(invalid := true)
    {
      hide Mem.Valid, Mem.View;
      PutAttrSame(View(), addr);
      SetInvalid();
    }

    lemma UseMarks(x: bv8)
      ensures Has(Join(x, ACC_R), PERM_VALID) == Has(x, PERM_VALID)
        && Has(Join(x, ACC_X), PERM_VALID) == Has(x, PERM_VALID)
    {
    }

    method RByte(addr: u32) returns (v: u8)
      requires Valid()
      modifies this, Repr()
      ensures Valid() && fresh(Repr() - old(Repr())) && Live() == old(Live()) + Spanned(addr, 1)
      ensures (View(), v) == FlatMemory.RByte(old(View()), addr)
    {
      hide Join, Has, HasAll, Mem.Valid, Mem.Tree, Mem.Leaves, Mem.Apart, Mem.PagesIn, Mem.PageShape, Mem.TableAt,
           Mem.PageCell, Mem.View, PdirIdx, PtableIdx, PageIdx, PageOf;
      UseMarks(Attr(View(), addr));
      var pt, j := GetPage(addr, true);
      var page := pt[j];
      var x := GetAttr(addr, page);
      if Has(x, PERM_R) {
        v := UseByte(addr, page, ACC_R);
        return;
      }
      Deny(addr);
      v := 0xff;
    }

    method RByteNoPerm(addr: u32) returns (v: u8)
      requires Valid()
      modifies this, Repr()
      ensures Valid() && fresh(Repr() - old(Repr())) && Live() == old(Live()) + Spanned(addr, 1)
      ensures View() == Step(old(View()), addr, RdRaw) && v == Sees(old(View()), addr, RdRaw)
    {
      hide Join, Has, HasAll, Mem.Tree, Mem.Leaves, Mem.PagesIn;
      var pt, j := GetPage(addr, true);
      v := GetData(addr, pt[j]);
      PutAttrSame(View(), addr);
    }

    method XByte(addr: u32) returns (v: u8)
      requires Valid()
      modifies this, Repr()
      ensures Valid() && fresh(Repr() - old(Repr())) && Live() == old(Live()) + Spanned(addr, 1)
      ensures (View(), v) == FlatMemory.XByte(old(View()), addr)
    {
      hide Join, Has, HasAll, Mem.Valid, Mem.Tree, Mem.Leaves, Mem.Apart, Mem.PagesIn, Mem.PageShape, Mem.TableAt,
           Mem.PageCell, Mem.View, PdirIdx, PtableIdx, PageIdx, PageOf;
      UseMarks(Attr(View(), addr));
      var pt, j := GetPage(addr, true);
      var page := pt[j];
      var x := GetAttr(addr, page);
      if Has(x, PERM_X) {
        v := UseByte(addr, page, ACC_X);
        return;
      }
      Deny(addr);
      v := 0xff;
    }

    method WByte(addr: u32, val: u32)
      requires Valid()
      modifies this, Repr(), host
      ensures Valid() && fresh(Repr() - old(Repr())) && Live() == old(Live()) + Spanned(addr, 1)
      ensures View() == FlatMemory.WByte(old(View()), addr, val)
    {
      hide Join, Has, HasAll, Mem.Tree, Mem.Leaves, Mem.PagesIn;
      var pt, j := GetPage(addr, true);
      var page := pt[j];
      var x := GetAttr(addr, page);
      if Has(x, PERM_W) {
        SetAttr(addr, page, Join(x, WRITTEN));
        SetData(addr, page, U8(val));
      } else {
        SetAttr(addr, page, Join(x, ACC_INVALID));
        SetInvalid();
      }
    }

    method WByteNoPerm(addr: u32, val: u32)
      requires Valid()
      modifies this, Repr(), host
      ensures Valid() && fresh(Repr() - old(Repr())) && Live() == old(Live()) + Spanned(addr, 1)
      ensures View() == Step(old(View()), addr, WrRaw(U8(val)))
    {
      hide Join, Has, HasAll, Mem.Tree, Mem.Leaves, Mem.PagesIn;
      var pt, j := GetPage(addr, true);
      var page := pt[j];
      var x := GetAttr(addr, page);
      SetAttr(addr, page, Join(x, WRITTEN));
      SetData(addr, page, U8(val));
    }

    // ---- words and dwords: one masked test and one masked OR when all bytes lie in one page, bytes otherwise ----

    lemma NextHolds(page: Page, addr: u32)
      requires Backs(page, addr) && PageIdx(addr) < 0xfff
      ensures addr < 0xffff_ffff && PageIdx(addr + 1) == PageIdx(addr) + 1 && Backs(page, addr + 1)
    {
      InPage(addr, PdirIdx(addr), PtableIdx(addr));
      InPage(addr + 1, PdirIdx(addr), PtableIdx(addr));
    }

    /** `(*perm16 & PERM16(m)) == PERM16(m)` */
    method WordTest(addr: u32, page: Page, m: bv8) returns (all: bool)
      requires Valid() && Backs(page, addr) && PageIdx(addr) < 0xfff
      ensures addr < 0xffff_ffff && Backs(page, addr + 1) && all == WordHas(View(), addr, m)
    {
      hide Mem.Tree, Mem.Leaves, Mem.Backs, Join, HasAll;
      NextHolds(page, addr);
      var a := GetAttr(addr, page);
      var b := GetAttr(addr + 1, page);
      all := Test16(a, b, m);
    }

    /** `*perm16 |= PERM16(m)` */
    method WordOr(addr: u32, page: Page, m: bv8)
      requires Valid() && Backs(page, addr) && PageIdx(addr) < 0xfff
      modifies `cells, page.attr
      ensures Valid() && Backs(page, addr) && View() == OrWord(old(View()), addr, m)
    {
      hide Mem.Tree, Mem.Leaves, Mem.Backs, Join, HasAll;
      NextHolds(page, addr);
      var a := GetAttr(addr, page);
      var b := GetAttr(addr + 1, page);
      a, b := Or16(a, b, m);
      SetAttr(addr, page, a);
      SetAttr(addr + 1, page, b);
    }

    /** `(*perm32 & PERM32(m)) == PERM32(m)` */
    method DwordTest(addr: u32, page: Page, m: bv8) returns (all: bool)
      requires Valid() && Backs(page, addr) && PageIdx(addr) < 0xffd
      ensures addr < 0xffff_fffd && PageIdx(addr + 2) == PageIdx(addr) + 2 < 0xfff && Backs(page, addr + 2)
      ensures all == (WordHas(View(), addr, m) && WordHas(View(), addr + 2, m))
    {
      hide Mem.Tree, Mem.Leaves, Mem.Backs, Join, HasAll;
      NextHolds(page, addr);
      NextHolds(page, addr + 1);
      NextHolds(page, addr + 2);
      var a := GetAttr(addr, page);
      var b := GetAttr(addr + 1, page);
      var c := GetAttr(addr + 2, page);
      var d := GetAttr(addr + 3, page);
      all := Test32(a, b, c, d, m);
    }

    /** `*perm32 |= PERM32(m)` */
    method DwordOr(addr: u32, page: Page, m: bv8)
      requires Valid() && Backs(page, addr) && PageIdx(addr) < 0xffd
      modifies `cells, page.attr
      ensures Valid() && Backs(page, addr) && Backs(page, addr + 2)
      ensures View() == OrWord(OrWord(old(View()), addr, m), addr + 2, m)
    {
      hide Mem.Tree, Mem.Leaves, Mem.Backs, Join, HasAll;
      NextHolds(page, addr);
      NextHolds(page, addr + 1);
      NextHolds(page, addr + 2);
      var a := GetAttr(addr, page);
      var b := GetAttr(addr + 1, page);
      var c := GetAttr(addr + 2, page);
      var d := GetAttr(addr + 3, page);
      a, b, c, d := Or32(a, b, c, d, m);
      SetAttr(addr, page, a);
      SetAttr(addr + 1, page, b);
      SetAttr(addr + 2, page, c);
      SetAttr(addr + 3, page, d);
    }

    /** `*(u16 *) (page->data + idx)` */
    method GetWord(addr: u32, page: Page) returns (v: u16)
      requires Valid() && Backs(page, addr) && PageIdx(addr) < 0xfff
      ensures addr < 0xffff_ffff && v == DataWord(View(), addr)
    {
      hide Mem.Tree, Mem.Leaves, Mem.Backs;
      NextHolds(page, addr);
      var lo := GetData(addr, page);
      var hi := GetData(addr + 1, page);
      v := Word(lo, hi);
    }

    /** `*(u16 *) (page->data + idx) = v` */
    method SetWord(addr: u32, page: Page, v: u32)
      requires Valid() && Backs(page, addr) && PageIdx(addr) < 0xfff
      modifies `cells, page.own, host
      ensures Valid() && Backs(page, addr) && View() == PutWord(old(View()), addr, v)
    {
      hide Mem.Tree, Mem.Leaves, Mem.Backs;
      NextHolds(page, addr);
      SetData(addr, page, U8(v));
      SetData(addr + 1, page, U8(v / 0x100));
    }

    lemma PageOfNext(a: u32, k: nat)
      requires PageIdx(a) + k < 0x1000
      ensures PageOf(U32(a + k)) == PageOf(a)
    {
      hide First;
      InPage(a, PdirIdx(a), PtableIdx(a));
      InPage(U32(a + k), PdirIdx(a), PtableIdx(a));
    }

    /** Bytes that lie in one page span no other; every access spans the page it starts in. */
    lemma SpannedWithin(a: u32)
      ensures PageIdx(a) < 0xfff ==> Spanned(a, 2) == {PageOf(a)}
      ensures PageIdx(a) < 0xffd ==> Spanned(a, 4) == {PageOf(a)}
      ensures {PageOf(a)} + Spanned(a, 2) == Spanned(a, 2) && {PageOf(a)} + Spanned(a, 4) == Spanned(a, 4)
    {
      hide PageOf, PageIdx, U32;
      if PageIdx(a) < 0xfff {
        PageOfNext(a, 1);
      }
      if PageIdx(a) < 0xffd {
        PageOfNext(a, 2);
        PageOfNext(a, 3);
      }
    }

    lemma SpannedTwice(a: u32)
      ensures Spanned(a, 2) + Spanned(U32(a + 2), 2) == Spanned(a, 4)
    {
      hide PageOf;
      assert U32(U32(a + 2) + 1) == U32(a + 3);
    }

    method RWord(addr: u32) returns (val: u16)
      requires Valid()
      modifies this, Repr()
      ensures Valid() && fresh(Repr() - old(Repr())) && Live() == old(Live()) + Spanned(addr, 2)
      ensures (View(), val) == FlatMemory.RWord(old(View()), addr)
    {
      hide Mem.Tree, Mem.Leaves, Mem.PagesIn, Mem.Backs, FlatMemory.RByte, FlatMemory.RWord, OrWord, WordHas,
           DataWord, PageOf;
      SpannedWithin(addr);
      var pt, j := GetPage(addr, true);
      var page := pt[j];
      if PageIdx(addr) < 0xfff {
        var ready := WordTest(addr, page, READY);
        if ready {
          ReadyWord(View(), addr);
          OrWordKeepsData(View(), addr, ACC_R, addr);
          WordOr(addr, page, ACC_R);
          val := GetWord(addr, page);
          return;
        }
      }
      RWordIs(View(), addr);
      var lo := RByte(addr);
      var hi := RByte(U32(addr + 1));
      val := Word(lo, hi);
    }

    /** All four bytes in one page, readable and initialised: one mark, two word loads. */
    method RDwordFast(addr: u32, page: Page) returns (val: u32)
      requires Valid() && Backs(page, addr) && PageIdx(addr) < 0xffd && addr < 0xffff_fffd && PageIdx(addr + 2) < 0xfff
      requires Backs(page, addr + 2) && WordHas(View(), addr, READY) && WordHas(View(), addr + 2, READY)
      modifies `cells, page.attr
      ensures Valid() && (View(), val) == FlatMemory.RDword(old(View()), addr)
    {
      hide Mem.Tree, Mem.Leaves, Mem.Backs, FlatMemory.RDword, OrWord, WordHas, DataWord, PageIdx, PdirIdx, PtableIdx;
      ReadyDword(View(), addr);
      DwordOrKeepsData(View(), addr, ACC_R);
      DwordOr(addr, page, ACC_R);
      var lo := GetWord(addr, page);
      var hi := GetWord(addr + 2, page);
      val := Dword(lo, hi);
    }

    method RDwordSlow(addr: u32) returns (val: u32)
      requires Valid()
      modifies this, Repr()
      ensures Valid() && fresh(Repr() - old(Repr())) && Live() == old(Live()) + Spanned(addr, 4)
      ensures (View(), val) == FlatMemory.RDword(old(View()), addr)
    {
      hide Mem.Tree, Mem.Leaves, Mem.PagesIn, FlatMemory.RByte, FlatMemory.RDword, PageOf, U32, Word, Dword;
      RDwordIs(View(), addr);
      var b0 := RByte(addr);
      var b1 := RByte(U32(addr + 1));
      var b2 := RByte(U32(addr + 2));
      var b3 := RByte(U32(addr + 3));
      val := Dword(Word(b0, b1), Word(b2, b3));
    }

    method RDword(addr: u32) returns (val: u32)
      requires Valid()
      modifies this, Repr()
      ensures Valid() && fresh(Repr() - old(Repr())) && Live() == old(Live()) + Spanned(addr, 4)
      ensures (View(), val) == FlatMemory.RDword(old(View()), addr)
    {
      hide Mem.Tree, Mem.Leaves, Mem.PagesIn, Mem.Backs, FlatMemory.RDword, WordHas, PageIdx, PdirIdx, PtableIdx,
           Spanned, PageOf;
      SpannedWithin(addr);
      var pt, j := GetPage(addr, true);
      var page := pt[j];
      if PageIdx(addr) < 0xffd {
        var ready := DwordTest(addr, page, READY);
        if ready {
          val := RDwordFast(addr, page);
          return;
        }
      }
      val := RDwordSlow(addr);
    }

    method XWord(addr: u32) returns (val: u16)
      requires Valid()
      modifies this, Repr()
      ensures Valid() && fresh(Repr() - old(Repr())) && Live() == old(Live()) + Spanned(addr, 2)
      ensures (View(), val) == FlatMemory.XWord(old(View()), addr)
    {
      hide Mem.Tree, Mem.Leaves, Mem.PagesIn, FlatMemory.XByte;
      var lo := XByte(addr);
      var hi := XByte(U32(addr + 1));
      val := Word(lo, hi);
    }

    method XDword(addr: u32) returns (val: u32)
      requires Valid()
      modifies this, Repr()
      ensures Valid() && fresh(Repr() - old(Repr())) && Live() == old(Live()) + Spanned(addr, 4)
      ensures (View(), val) == FlatMemory.XDword(old(View()), addr)
    {
      hide Mem.Tree, Mem.Leaves, Mem.PagesIn, FlatMemory.XWord, Spanned, PageOf;
      SpannedTwice(addr);
      var lo := XWord(addr);
      var hi := XWord(U32(addr + 2));
      val := Dword(lo, hi);
    }

    method WWord(addr: u32, val: u32)
      requires Valid()
      modifies this, Repr(), host
      ensures Valid() && fresh(Repr() - old(Repr())) && Live() == old(Live()) + Spanned(addr, 2)
      ensures View() == FlatMemory.WWord(old(View()), addr, val)
    {
      hide Mem.Tree, Mem.Leaves, Mem.PagesIn, Mem.Backs, FlatMemory.WByte, OrWord, PutWord, WordHas, PageOf;
      SpannedWithin(addr);
      var pt, j := GetPage(addr, true);
      var page := pt[j];
      if PageIdx(addr) < 0xfff {
        var writable := WordTest(addr, page, PERM_W);
        if writable {
          WritableWord(View(), addr, val);
          WordOr(addr, page, WRITTEN);
          SetWord(addr, page, val);
          return;
        }
      }
      WByte(addr, val);
      WByte(U32(addr + 1), val / 0x100);
    }

    method WDwordFast(addr: u32, page: Page, val: u32)
      requires Valid() && Backs(page, addr) && PageIdx(addr) < 0xffd && addr < 0xffff_fffd && PageIdx(addr + 2) < 0xfff
      requires Backs(page, addr + 2) && WordHas(View(), addr, PERM_W) && WordHas(View(), addr + 2, PERM_W)
      modifies `cells, page.attr, page.own, host
      ensures Valid() && View() == FlatMemory.WDword(old(View()), addr, val)
    {
      hide Mem.Tree, Mem.Leaves, Mem.Backs, FlatMemory.WDword, OrWord, PutWord, WordHas, PageIdx, PdirIdx, PtableIdx;
      WritableDword(View(), addr, val);
      DwordOr(addr, page, WRITTEN);
      SetWord(addr, page, val);
      SetWord(addr + 2, page, val / 0x1_0000);
    }

    method WDwordSlow(addr: u32, val: u32)
      requires Valid()
      modifies this, Repr(), host
      ensures Valid() && fresh(Repr() - old(Repr())) && Live() == old(Live()) + Spanned(addr, 4)
      ensures View() == FlatMemory.WDword(old(View()), addr, val)
    {
      hide Mem.Tree, Mem.Leaves, Mem.PagesIn, FlatMemory.WByte, FlatMemory.WDword, PageOf, U32;
      WDwordIs(View(), addr, val);
      WByte(addr, val);
      WByte(U32(addr + 1), val / 0x100);
      WByte(U32(addr + 2), val / 0x1_0000);
      WByte(U32(addr + 3), val / 0x100_0000);
    }

    method WDword(addr: u32, val: u32)
      requires Valid()
      modifies this, Repr(), host
      ensures Valid() && fresh(Repr() - old(Repr())) && Live() == old(Live()) + Spanned(addr, 4)
      ensures View() == FlatMemory.WDword(old(View()), addr, val)
    {
      hide Mem.Tree, Mem.Leaves, Mem.PagesIn, Mem.Backs, FlatMemory.WDword, WordHas, PageIdx, PdirIdx, PtableIdx,
           Spanned, PageOf;
      SpannedWithin(addr);
      var pt, j := GetPage(addr, true);
      var page := pt[j];
      if PageIdx(addr) < 0xffd {
        var writable := DwordTest(addr, page, PERM_W);
        if writable {
          WDwordFast(addr, page, val);
          return;
        }
      }
      WDwordSlow(addr, val);
    }

    // ---- the memory interface ----

    method MemIo(addr: u32, val: u32, kind: Kind, size: Size) returns (val': u32, err: bool)
      requires Valid()
      modifies this, Repr(), host
      ensures Valid() && fresh(Repr() - old(Repr())) && Live() == old(Live()) + AccessPages(addr, kind, size)
      ensures (View(), val', err) == FlatMemory.MemIo(old(View()), addr, val, kind, size)
    {
      hide Mem.Tree, Mem.Leaves, Mem.PagesIn, Step, Sees;
      hide FlatMemory.RByte, FlatMemory.RWord, FlatMemory.RDword, FlatMemory.XByte, FlatMemory.XWord, FlatMemory.XDword;
      hide FlatMemory.WByte, FlatMemory.WWord, FlatMemory.WDword;
      ClearInvalid();
      val' := val;
      match kind {
        case KRead =>
          match size {
            case 0 => val' := RByte(addr);
            case 1 => val' := RWord(addr);
            case 2 => val' := RDword(addr);
            case _ => val' := RByteNoPerm(addr);
          }
        case KWrite =>
          match size {
            case 0 => WByte(addr, val);
            case 1 => WWord(addr, val);
            case 2 => WDword(addr, val);
            case _ => WByteNoPerm(addr, val);
          }
        case KExec =>
          match size {
            case 0 => val' := XByte(addr);
            case 1 => val' := XWord(addr);
            case 2 => val' := XDword(addr);
            case _ =>
          }
      }
      err := invalid;
    }

    /** `mem->invalid = 0` */
    method ClearInvalid()
      requires Valid()
      modifies `invalid
      ensures Valid() && View() == old(View()).(invalid := false)
    {
      hide Mem.Tree, Mem.Leaves;
      invalid := false;
    }

    // ---- permissions of a range ----

    /** `page->def_attr = perm`, seen through the bytes of a page that has no block yet */
    method SetDefault(pt: Table, ghost i: nat, j: nat, perm: bv8)
      requires Valid() && i < 0x400 && j < 0x400
      requires pdir != null && pdir.Length == 0x400 && pdir[i] == pt && pt.Length == 0x400
      modifies `pages, `cells, pt
      ensures Valid() && pdir[i] == pt && pages[i][j] == pt[j] && pt[j] == old(pt[j]).(defAttr := perm)
      ensures View() ==
        if pt[j].attr == null then SetAttrs(old(View()), First(i, j), First(i, j) + 0x1000, perm) else old(View())
      ensures pt[j].attr != null ==> Backs(pt[j], First(i, j)) && pt[j].attr in Repr()
      ensures Live() == old(Live())
    {
      hide Mem.Tree, Mem.Leaves, First, PdirIdx, PtableIdx, PageIdx, Join, Has, HasAll;
      FirstIs(i, j);
      PageCells(i, j);
      PutPage(pt, i, j, pt[j].(defAttr := perm));
      if pt[j].attr == null {
        SetAttrsIs(old(View()), First(i, j), First(i, j) + 0x1000, perm, cells);
      } else {
        forall a: u32 ensures cells[a] == old(cells[a]) {
        }
        assert cells == old(cells);
      }
    }

    lemma OffsetHolds(page: Page, addr: u32, k: nat)
      requires Backs(page, addr) && PageIdx(addr) + k < 0x1000
      ensures addr + k < 0x1_0000_0000 && Backs(page, addr + k) && (addr + k) % 0x1000 == PageIdx(addr) + k
    {
      InPage(addr, PdirIdx(addr), PtableIdx(addr));
      InPage(addr + k, PdirIdx(addr), PtableIdx(addr));
    }

    /** `memset(page->attr, perm, X86EMU_PAGE_SIZE)` and the other attribute runs inside one page */
    method FillAttrs(addr: u32, page: Page, n: nat, perm: bv8)
      requires Valid() && Backs(page, addr) && PageIdx(addr) + n <= 0x1000
      modifies `cells, page.attr
      ensures Valid() && View() == SetAttrs(old(View()), addr, addr + n, perm)
    {
      hide Mem.Tree, Mem.Leaves, Mem.Backs, SetAttrs, PutAttr;
      SetAttrsNone(View(), addr, perm);
      for k := 0 to n
        invariant Valid() && Backs(page, addr) && View() == SetAttrs(old(View()), addr, addr + k, perm)
      {
        OffsetHolds(page, addr, k);
        SetAttrsNext(old(View()), addr, addr + k, perm);
        SetAttr(addr + k, page, perm);
      }
    }

    /** One whole page: its default, and its attribute bytes if it has a block. */
    method SetPagePerm(addr: u32, perm: bv8)
      requires Valid() && PageIdx(addr) == 0
      modifies this, Repr()
      ensures Valid() && fresh(Repr() - old(Repr()))
      ensures View() == SetAttrs(old(View()), addr, addr + 0x1000, perm)
      ensures Live() == old(Live())
    {
      hide Mem.Tree, Mem.Leaves, Mem.PagesIn, SetAttrs, First, PdirIdx, PtableIdx, PageIdx, PageOf;
      FirstOf(addr);
      var pt, j := GetPage(addr, false);
      SetDefault(pt, PdirIdx(addr), j, perm);
      if pt[j].attr != null {
        FillAttrs(addr, pt[j], 0x1000, perm);
      }
    }

    /**
    The bytes of [start, end] in a first page that does not start at `start`. `s` is the next address to set, wrapped
    at the top of the address space; `done` is the same without the wrap.
    */
    method SetHead(start: u32, end: u32, perm: bv8) returns (s: u32, ghost done: nat)
      requires Valid() && start <= end && start % 0x1000 != 0
      modifies this, Repr()
      ensures Valid() && fresh(Repr() - old(Repr())) && Live() == old(Live()) + {PageOf(start)}
      ensures start < done <= end + 1 && s == U32(done) && (done == end + 1 || done % 0x1000 == 0)
      ensures done <= start - start % 0x1000 + 0x1000
      ensures View() == SetAttrs(old(View()), start, done, perm)
    {
      hide Mem.Tree, Mem.Leaves, Mem.PagesIn, Mem.Backs, SetAttrs, PutAttr, PageOf, PdirIdx, PtableIdx, Join, Has,
           HasAll;
      s, done := start, start;
      var idx := s % 0x1000;
      SetAttrsNone(View(), start, perm);
      var pt, j := GetPage(s, true);
      var page := pt[j];
      while idx < 0x1000 && s <= end
        invariant Valid() && Backs(page, start) && page.attr in Repr()
        invariant fresh(Repr() - old(Repr())) && Live() == old(Live()) + {PageOf(start)}
        invariant start <= done <= end + 1 && idx == start % 0x1000 + (done - start) <= 0x1000 && s == U32(done)
        invariant View() == SetAttrs(old(View()), start, done, perm)
        invariant done == 0x1_0000_0000 ==> idx == 0x1000
        decreases 0x1000 - idx
      {
        assert s == done;
        OffsetHolds(page, start, done - start);
        SetAttrsNext(old(View()), start, done, perm);
        SetAttr(s, page, perm);
        idx := idx + 1;
        s := U32(s + 1);
        done := done + 1;
      }
    }

    /** The whole pages of [start, end]; `stop` when the function returns from inside the loop. */
    method SetPages(start: u32, end: u32, perm: bv8) returns (s: u32, stop: bool, ghost done: nat)
      requires Valid() && start <= end && start % 0x1000 == 0
      modifies this, Repr()
      ensures Valid() && fresh(Repr() - old(Repr()))
      ensures start <= done <= end + 1 && done % 0x1000 == 0 && s % 0x1000 == 0
      ensures View() == SetAttrs(old(View()), start, done, perm)
      ensures stop <==> start == 0 && end >= 0xfff
      ensures if stop then done == 0x1000 else s == U32(done) && (done == end + 1 || end - done < 0xfff)
      ensures Live() == old(Live())
    {
      hide Mem.Tree, Mem.Leaves, Mem.PagesIn, SetAttrs;
      s, stop, done := start, false, start;
      SetAttrsNone(View(), start, perm);
      while U32(end - s) >= 0xfff
        invariant Valid() && fresh(Repr() - old(Repr()))
        invariant s == done <= end && s % 0x1000 == 0 && start <= s && (s == 0 <==> start == 0)
        invariant View() == SetAttrs(old(View()), start, done, perm)
        invariant Live() == old(Live())
        decreases end - done
      {
        SetAttrsJoin(old(View()), start, done, done + 0x1000, perm);
        SetPagePerm(s, perm);
        done := done + 0x1000;
        if s == 0 {
          stop := true;
          return;
        }
        if U32(end - s) == 0xfff {
          s := U32(s + 0x1000);
          break;
        }
        s := U32(s + 0x1000);
      }
    }

    /** The rest of the range, in one page; at the top of the address space `s` has wrapped and nothing is left. */
    method SetTail(s: u32, end: u32, ghost done: nat, perm: bv8)
      requires Valid() && s % 0x1000 == 0 && s == U32(done)
        && (done == end + 1 == 0x1_0000_0000 || 0 <= end - done < 0xfff)
      modifies this, Repr()
      ensures Valid() && fresh(Repr() - old(Repr())) && Live() == old(Live()) + {PageOf(s)}
      ensures View() == SetAttrs(old(View()), done, end + 1, perm)
    {
      hide Mem.Tree, Mem.Leaves, Mem.PagesIn, Mem.Backs, SetAttrs;
      var pt, j := GetPage(s, true);
      var n := U32(end - s + 1);
      SetAttrsNone(View(), s, perm);
      SetAttrsNone(View(), done, perm);
      FillAttrs(s, pt[j], n, perm);
    }

    lemma NoPages(start: u32, end: u32)
      requires start > end
      ensures PermPages(start, end) == {}
    {
    }

    /** A range that ends in the page it starts in the middle of. */
    lemma HeadPages(start: u32, end: u32)
      requires start <= end < start - start % 0x1000 + 0x1000 && start % 0x1000 != 0
      ensures PermPages(start, end) == {PageOf(start)}
    {
      InPage(start, PdirIdx(start), PtableIdx(start));
      InPage(end, PdirIdx(start), PtableIdx(start));
    }

    /** A range that starts a page; `done` is where its whole pages end. */
    lemma TailPages(start: u32, end: u32, done: nat)
      requires start <= end && start <= done <= end + 1 && start % 0x1000 == done % 0x1000 == 0
      ensures if start == 0 && end >= 0xfff then PermPages(start, end) == {}
        else if done == end + 1 == 0x1_0000_0000 then PermPages(start, end) == {PageOf(0)}
        else if done == end + 1 then PermPages(start, end) == {}
        else end - done < 0xfff ==> PermPages(start, end) == {PageOf(done)}
    {
      hide PageOf;
      if done <= end && end - done < 0xfff {
        SamePage(done, end);
      }
    }

    /** A range that goes on past its first page, at `head`. */
    lemma HeadThenRest(start: u32, head: u32, end: u32)
      requires start < head <= end && start % 0x1000 != 0 && head % 0x1000 == 0
      ensures PermPages(start, end) == {PageOf(start)} + PermPages(head, end)
    {
      hide PageOf;
    }

    lemma SamePage(a: u32, b: u32)
      requires a % 0x1000 == 0 && a <= b < a + 0x1000
      ensures PageOf(a) == PageOf(b)
    {
      InPage(a, PdirIdx(a), PtableIdx(a));
      InPage(b, PdirIdx(a), PtableIdx(a));
    }

    /** A range that starts a page. */
    method SetAligned(start: u32, end: u32, perm: bv8)
      requires Valid() && start <= end && start % 0x1000 == 0
      modifies this, Repr()
      ensures Valid() && fresh(Repr() - old(Repr()))
      ensures View() == FlatMemory.SetPerm(old(View()), start, end, perm)
      ensures Live() == old(Live()) + PermPages(start, end)
    {
      hide Mem.Valid, Mem.View, Mem.Live, SetAttrs, PageOf, PermPages;
      var s, stop, done := SetPages(start, end, perm);
      TailPages(start, end, done);
      if stop || s > end {
        return;
      }
      SetAttrsJoin(old(View()), start, done, end + 1, perm);
      SetTail(s, end, done, perm);
    }

    method SetPerm(start: u32, end: u32, perm: bv8)
      requires Valid()
      modifies this, Repr()
      ensures Valid() && fresh(Repr() - old(Repr()))
      ensures View() == FlatMemory.SetPerm(old(View()), start, end, perm)
      ensures Live() == old(Live()) + PermPages(start, end)
    {
      hide Mem.Valid, Mem.View, Mem.Live, SetAttrs, PageOf, PermPages;
      if start > end {
        NoPages(start, end);
        return;
      }
      var s := start;
      if s % 0x1000 != 0 {
        ghost var head;
        s, head := SetHead(start, end, perm);
        if s == 0 || s > end {
          HeadPages(start, end);
          return;
        }
        HeadThenRest(start, s, end);
        SetAttrsJoin(old(View()), start, head, end + 1, perm);
      }
      SetAligned(s, end, perm);
    }

    // ---- mapping host memory ----

    /** `p->data = address`, or back to the page's own bytes */
    method SetExt(addr: u32, pt: Table, j: nat, o: Option<HostAddr>)
      requires Valid() && pdir != null && pdir.Length == 0x400 && pdir[PdirIdx(addr)] == pt && pt.Length == 0x400
      requires j == PtableIdx(addr) && Backs(pt[j], addr)
      requires o.Some? ==> o.value + 0x1000 <= 0x1_0000_0000_0000
      modifies `pages, `cells, pt
      ensures Valid() && Backs(pt[j], addr) && pt[j] == old(pt[j]).(ext := o)
      ensures View() == Relocate(old(View()), addr / 0x1000, o)
      ensures Live() == old(Live())
    {
      hide Mem.Tree, Mem.Leaves, Mem.PagesIn, First, PdirIdx, PtableIdx, PageIdx, PageOf;
      ghost var i := PdirIdx(addr);
      FirstOf(addr);
      PageCells(i, j);
      PutPage(pt, i, j, pt[j].(ext := o));
      RelocateIs(old(View()), addr / 0x1000, o, First(i, j), cells);
    }

    method SetPage(addr: u32, address: Option<HostAddr>)
      requires Valid()
      requires address.Some? ==> address.value + 0x1000 <= 0x1_0000_0000_0000
      modifies this, Repr()
      ensures Valid() && fresh(Repr() - old(Repr())) && Live() == old(Live()) + {PageOf(addr)}
      ensures View() == MapPage(old(View()), addr / 0x1000, address)
    {
      hide Mem.Tree, Mem.Leaves, Mem.PagesIn, Mem.Backs, OrAttrs, OrAttr, PutAttr, Relocate, Join;
      var pt, j := GetPage(addr, true);
      SetExt(addr, pt, j, address);
      if address.Some? {
        var base := addr - PageIdx(addr);
        OffsetHolds0(pt[j], addr, base);
        MarkPage(pt[j], base);
      }
    }

    /** Every byte of a page counts as written. */
    method MarkPage(page: Page, base: u32)
      requires Valid() && Backs(page, base) && PageIdx(base) == 0
      modifies `cells, page.attr
      ensures Valid() && base + 0x1000 <= 0x1_0000_0000
        && View() == OrAttrs(old(View()), base, base + 0x1000, PERM_VALID)
    {
      hide Mem.Tree, Mem.Leaves, Mem.PagesIn, Mem.Backs, OrAttrs, OrAttr, PutAttr, Join;
      OrAttrsNext(View(), base, base, PERM_VALID);
      ghost var v := View();
      for u := 0 to 0x1000
        invariant Valid() && Backs(page, base) && View() == OrAttrs(v, base, base + u, PERM_VALID)
      {
        OffsetHolds(page, base, u);
        OrAttrsNext(v, base, base + u, PERM_VALID);
        var x := GetAttr(base + u, page);
        OrAttrIs(View(), base + u, PERM_VALID);
        SetAttr(base + u, page, Join(x, PERM_VALID));
      }
    }

    lemma OffsetHolds0(page: Page, addr: u32, base: u32)
      requires Backs(page, addr) && base == addr - PageIdx(addr)
      ensures Backs(page, base) && PageIdx(base) == 0
    {
      InPage(addr, PdirIdx(addr), PtableIdx(addr));
      InPage(base, PdirIdx(addr), PtableIdx(addr));
    }

    // ---- access statistics ----

    ghost predicate LiveAt(a: u32)
      requires Sized()
      reads `pages
    {
      pages[PdirIdx(a)][PtableIdx(a)].attr != null
    }

    lemma FirstHolds(page: Page, i: int, j: int)
      requires Valid() && 0 <= i < 0x400 && 0 <= j < 0x400 && Sized() && page == pages[i][j] && page.attr != null
      ensures 0 <= First(i, j) <= 0xffff_f000 && Backs(page, First(i, j)) && PageIdx(First(i, j)) == 0
    {
      PageCells(i, j);
      FirstIs(i, j);
    }

    method ResetBlock(ghost i: nat, ghost j: nat, page: Page, first: u32)
      requires Valid() && i < 0x400 && j < 0x400 && page == pages[i][j] && page.attr != null && first == First(i, j)
      modifies `cells, page.attr
      ensures Valid() && View() == UnmarkAttrs(old(View()), first, first + 0x1000)
    {
      hide Mem.Tree, Mem.Leaves, Mem.Backs, First, PdirIdx, PtableIdx, PageIdx, Unmark, UnmarkAttrs, PutAttr;
      TableRow(i);
      FirstHolds(page, i, j);
      UnmarkAttrsNext(View(), first, first);
      for u := 0 to 0x1000
        invariant Valid() && Backs(page, first) && View() == UnmarkAttrs(old(View()), first, first + u)
      {
        OffsetHolds(page, first, u);
        UnmarkAttrsNext(old(View()), first, first + u);
        var x := GetAttr(first + u, page);
        SetAttr(first + u, page, Unmark(x));
      }
    }

    /** The bytes below `n` that have a block are reset, all others are as in `was`. */
    ghost predicate ResetTo(was: seq<Cell>, n: int)
      reads `pages, `cells
    {
      && Sized() && |was| == |cells| == 0x1_0000_0000
      && forall a: u32 :: cells[a] == if a < n && LiveAt(a) then was[a].(attr := Unmark(was[a].attr)) else was[a]
    }

    lemma ResetSkips(was: seq<Cell>, i: int, j: int)
      requires Valid() && 0 <= i < 0x400 && 0 <= j < 0x400 && ResetTo(was, First(i, j)) && pages[i][j].attr == null
      ensures ResetTo(was, First(i, j) + 0x1000)
    {
      hide Mem.Tree, Mem.Leaves, First, PdirIdx, PtableIdx, Unmark;
      forall a: u32 | First(i, j) <= a < First(i, j) + 0x1000 ensures !LiveAt(a) {
        InPage(a, i, j);
      }
    }

    lemma ResetStep(f: FlatMem, was: seq<Cell>, i: int, j: int)
      requires Valid() && 0 <= i < 0x400 && 0 <= j < 0x400 && pages[i][j].attr != null
      requires View() == UnmarkAttrs(f, First(i, j), First(i, j) + 0x1000)
      requires |was| == 0x1_0000_0000
      requires forall a: u32 ::
        f.cells[a] == if a < First(i, j) && LiveAt(a) then was[a].(attr := Unmark(was[a].attr)) else was[a]
      ensures ResetTo(was, First(i, j) + 0x1000)
    {
      hide Mem.Tree, Mem.Leaves, First, PdirIdx, PtableIdx, Unmark;
      TableRow(i);
      forall a: u32 | First(i, j) <= a < First(i, j) + 0x1000 ensures LiveAt(a) {
        InPage(a, i, j);
      }
    }

    lemma ResetSkipsRow(was: seq<Cell>, i: int)
      requires Valid() && 0 <= i < 0x400 && ResetTo(was, First(i, 0))
        && (pdir == null || (pdir.Length == 0x400 && pdir[i] == null))
      ensures ResetTo(was, First(i + 1, 0))
    {
      hide Mem.Tree, Mem.Leaves, First, PdirIdx, PtableIdx, Unmark;
      TableRow(i);
      FirstRow(i, i, 0);
      forall a: u32 | First(i, 0) <= a < First(i + 1, 0) ensures !LiveAt(a) {
        InTable(a, i);
      }
    }

    lemma ResetIsWhole(was: FlatMem)
      requires Valid() && ResetTo(was.cells, 0x1_0000_0000) && View().host == was.host && invalid == was.invalid
      ensures View() == Reset(was) <==> Clean()
    {
      hide Mem.Tree, Mem.Leaves, First, PdirIdx, PtableIdx, PageIdx, Unmark;
      if View() == Reset(was) {
        forall i, j | 0 <= i < 0x400 && 0 <= j < 0x400 && pages[i][j].attr == null
          ensures pages[i][j].defAttr & ACC_ALL == 0
        {
          FirstIs(i, j);
          PageCells(i, j);
          var a := First(i, j);
          assert !LiveAt(a) && was.cells[a] == cells[a] == Reset(was).cells[a];
          UnmarkedIs(pages[i][j].defAttr);
        }
      }
      if Clean() {
        forall a: u32 ensures cells[a] == Reset(was).cells[a] {
          if !LiveAt(a) {
            var i, j := PdirIdx(a), PtableIdx(a);
            InPage(a, i, j);
            PageCells(i, j);
            UnmarkedIs(pages[i][j].defAttr);
          }
        }
        assert cells == Reset(was).cells;
      }
    }

    /** The bytes of a page without a block carry its default attribute. */
    lemma DeadByte(a: u32)
      requires Valid() && PageOf(a) !in Live()
      ensures Sized() && pages[PdirIdx(a)][PtableIdx(a)].attr == null
      ensures Attr(View(), a) == pages[PdirIdx(a)][PtableIdx(a)].defAttr
    {
      hide Mem.Tree, Mem.Leaves, First, PdirIdx, PtableIdx, PageIdx;
      InPage(a, PdirIdx(a), PtableIdx(a));
      PageCells(PdirIdx(a), PtableIdx(a));
    }

    lemma DeadPage(i: int, j: int)
      requires Valid() && Sized() && 0 <= i < 0x400 && 0 <= j < 0x400 && pages[i][j].attr == null
      ensures 0 <= First(i, j) < 0x1_0000_0000 && PageOf(First(i, j)) !in Live()
      ensures Attr(View(), First(i, j)) == pages[i][j].defAttr
    {
      hide Mem.Tree, Mem.Leaves, First, PdirIdx, PtableIdx, PageIdx;
      FirstIs(i, j);
      PageCells(i, j);
    }

    /** No page that is still to be created would start with access marks: what that says of the bytes. */
    lemma CleanMeans()
      requires Valid()
      ensures Clean() <==> forall a: u32 :: PageOf(a) in Live() || Attr(View(), a) & ACC_ALL == 0
    {
      hide Mem.Valid, Mem.View, Mem.Live, First, PdirIdx, PtableIdx, PageOf, Attr;
      TableRow(0);
      if Clean() {
        forall a: u32 | PageOf(a) !in Live() ensures Attr(View(), a) & ACC_ALL == 0 {
          DeadByte(a);
        }
      }
      if forall a: u32 :: PageOf(a) in Live() || Attr(View(), a) & ACC_ALL == 0 {
        forall i, j | 0 <= i < 0x400 && 0 <= j < 0x400 && pages[i][j].attr == null
          ensures pages[i][j].defAttr & ACC_ALL == 0
        {
          DeadPage(i, j);
        }
      }
    }

    /** A missing table has no live page; a present one holds its row of `pages`. */
    lemma TableRow(i: int)
      requires Valid() && 0 <= i < 0x400
      ensures Sized() && |cells| == 0x1_0000_0000
      ensures pdir != null ==> pdir.Length == 0x400 && pdir in dirs
      ensures pdir != null && pdir[i] != null ==> pdir[i] in dirs
      ensures pdir == null || pdir[i] == null ==> forall j :: 0 <= j < 0x400 ==>
        pages[i][j] == Page(null, null, None, defAttr)
      ensures pdir != null && pdir[i] != null ==>
        (pdir[i] as object?) != pdir && pdir[i].Length == 0x400 && forall j :: 0 <= j < 0x400 ==>
          pdir[i][j] == pages[i][j]
    {
      if pdir != null {
        assert TableAt(i, pdir[i]);
      }
      if pdir != null && pdir[i] != null {
        forall j | 0 <= j < 0x400 ensures pdir[i][j] == pages[i][j] {
          assert pdir[i][..][j] == pages[i][j];
        }
      }
    }

    method ResetTable(i: nat, pt: Table, ghost was: seq<Cell>)
      requires Valid() && i < 0x400 && pdir != null && pdir.Length == 0x400 && pdir[i] == pt
        && ResetTo(was, First(i, 0))
      modifies `cells, blocks.Keys
      ensures Valid() && ResetTo(was, First(i + 1, 0))
    {
      hide Mem.Tree, Mem.Leaves, First, PdirIdx, PtableIdx, PageIdx, Unmark, UnmarkAttrs;
      TableRow(i);
      for j := 0 to 0x400
        invariant Valid() && ResetTo(was, First(i, j))
      {
        TableRow(i);
        PageCells(i, j);
        FirstIs(i, j);
        FirstNext(i, j);
        var page := pt[j];
        if page.attr != null {
          ghost var f := View();
          ResetBlock(i, j, page, First(i, j));
          ResetStep(f, was, i, j);
        } else {
          ResetSkips(was, i, j);
        }
      }
      FirstNext(i, 0x3ff);
    }

    /** The reset reaches exactly the pages that exist: it resets the whole memory iff no other page has marks. */
    method ResetAccessStats()
      requires Valid()
      modifies `cells, blocks.Keys
      ensures Valid() && Live() == old(Live()) && (old(Clean()) ==> Clean())
      ensures View() == ResetPages(old(View()), Live())
      ensures View() == Reset(old(View())) <==> Clean()
    {
      hide Mem.Tree, Mem.Leaves, First, PdirIdx, PtableIdx, PageIdx, Unmark, Reset;
      TableRow(0);
      FirstEnds();
      if pdir != null {
        for i := 0 to 0x400
          invariant Valid() && ResetTo(old(cells), First(i, 0))
        {
          TableRow(i);
          if pdir[i] != null {
            ResetTable(i, pdir[i], old(cells));
          } else {
            ResetSkipsRow(old(cells), i);
          }
        }
      } else {
        forall a: u32 ensures !LiveAt(a) {
          TableRow(PdirIdx(a));
        }
      }
      ResetIsWhole(old(View()));
    }

    // ---- cloning ----

    /** The bytes of `m` below `n`, and the records of its pages below `n`, are copies; the rest is still blank. */
    ghost predicate ClonedTo(m: Mem, n: int)
      reads `cells, `pages, m`cells, m`pages
    {
      && Sized() && m.Sized() && |cells| == |m.cells| == 0x1_0000_0000
      && (forall a: u32 :: m.cells[a] == if a < n then cells[a] else Cell(defAttr, 0, None))
      && (forall i, j :: 0 <= i < 0x400 && 0 <= j < 0x400 ==>
            if First(i, j) < n then Twin(pages[i][j], m.pages[i][j])
            else m.pages[i][j] == Page(null, null, None, defAttr))
    }

    static ghost predicate Twin(g: Page, h: Page) {
      (g.attr == null <==> h.attr == null) && g.ext == h.ext && g.defAttr == h.defAttr
    }

    /** mem_dup of a page's block */
    method CopyBlock(ghost i: nat, ghost j: nat, page: Page) returns (attr: array<bv8>, own: array<u8>)
      requires Valid() && page.attr != null && page.own != null && page.attr.Length == page.own.Length == 0x1000
      modifies `blocks
      ensures Valid() && fresh(attr) && fresh(own) && blocks == old(blocks)[attr := AttrOf(i, j)][own := OwnOf(i, j)]
      ensures attr.Length == own.Length == 0x1000
      ensures forall k :: 0 <= k < 0x1000 ==> attr[k] == page.attr[k] && own[k] == page.own[k]
      ensures attr in blocks && own in blocks && blocks[attr] == AttrOf(i, j) && blocks[own] == OwnOf(i, j)
    {
      hide Mem.Tree;
      attr := new bv8[0x1000](k requires 0 <= k < 0x1000 reads page.attr => page.attr[k]);
      own := new u8[0x1000](k requires 0 <= k < 0x1000 reads page.own => page.own[k]);
      blocks := blocks[attr := AttrOf(i, j)][own := OwnOf(i, j)];
    }

    /** One page of the clone `this`, from a record of the original. */
    method ClonePage(npt: Table, ghost i: nat, j: nat, page: Page)
      requires Valid() && i < 0x400 && j < 0x400
      requires pdir != null && pdir.Length == 0x400 && pdir[i] == npt && npt.Length == 0x400
      requires page.attr == null <==> page.own == null
      requires page.attr != null ==> page.attr.Length == page.own.Length == 0x1000
      requires page.attr == null ==> page.ext.None?
      requires page.ext.Some? ==> page.ext.value + 0x1000 <= 0x1_0000_0000_0000
      modifies `pages, `cells, `blocks, npt
      ensures Valid() && fresh(Repr() - old(Repr())) && pdir[i] == npt
      ensures |pages| == 0x400 && |pages[i]| == 0x400 && Twin(page, pages[i][j])
      ensures pages == old(pages)[i := old(pages[i])[j := pages[i][j]]]
      ensures |cells| == 0x1_0000_0000
      ensures forall a :: 0 <= a < 0x1_0000_0000 ==>
        cells[a] ==
          if First(i, j) <= a < First(i, j) + 0x1000 then old(PageCell(page, a - First(i, j))) else old(cells[a])
    {
      hide Mem.Tree, Mem.Leaves, First;
      TableRow(i);
      var g := page;
      if page.attr != null {
        var attr, own := CopyBlock(i, j, page);
        g := page.(attr := attr, own := own);
      }
      PutPage(npt, i, j, g);
    }

    /** The next page of one table. */
    method CloneNext(m: Mem, i: nat, j: nat, pt: Table, npt: Table)
      requires Valid() && m.Valid() && m != this && m.Repr() !! Repr() + {this} && this !in m.Repr() && m !in Repr()
      requires i < 0x400 && pdir != null && pdir.Length == 0x400 && pdir[i] == pt && pt.Length == 0x400
      requires m.pdir != null && m.pdir.Length == 0x400 && m.pdir[i] == npt && npt.Length == 0x400
      requires j < 0x400 && m.defAttr == defAttr && ClonedTo(m, First(i, j))
      modifies m`pages, m`cells, m`blocks, npt
      ensures Valid() && m.Valid() && fresh(m.Repr() - old(m.Repr())) && m.pdir[i] == npt
        && ClonedTo(m, First(i, j + 1))
    {
      hide Mem.Tree, Mem.Leaves, First, PdirIdx, PtableIdx, PageIdx;
      TableRow(i);
      m.TableRow(i);
      PageCells(i, j);
      FirstNext(i, j);
      ghost var was, wasPages := m.cells, m.pages;
      m.ClonePage(npt, i, j, pt[j]);
      CloneStep(m, was, wasPages, i, j);
    }

    /** All pages of one table. */
    method CloneTable(m: Mem, i: nat, pt: Table, npt: Table)
      requires Valid() && m.Valid() && m != this && m.Repr() !! Repr() + {this} && this !in m.Repr() && m !in Repr()
      requires i < 0x400 && pdir != null && pdir.Length == 0x400 && pdir[i] == pt && pt.Length == 0x400
      requires m.pdir != null && m.pdir.Length == 0x400 && m.pdir[i] == npt && npt.Length == 0x400
      requires m.defAttr == defAttr && ClonedTo(m, First(i, 0))
      modifies m`pages, m`cells, m`blocks, npt
      ensures m.Valid() && fresh(m.Repr() - old(m.Repr())) && ClonedTo(m, First(i + 1, 0))
    {
      hide Mem.Valid, Mem.ClonedTo, First;
      for j := 0 to 0x400
        invariant Valid() && m.Valid() && fresh(m.Repr() - old(m.Repr())) && m.pdir[i] == npt
        invariant ClonedTo(m, First(i, j))
      {
        CloneNext(m, i, j, pt, npt);
      }
      FirstNext(i, 0x3ff);
    }

    lemma CloneStep(m: Mem, was: seq<Cell>, wasPages: seq<seq<Page>>, i: int, j: int)
      requires Valid() && 0 <= i < 0x400 && 0 <= j < 0x400 && Sized() && |cells| == |was| == |m.cells| == 0x1_0000_0000
      requires forall a: u32 :: was[a] == if a < First(i, j) then cells[a] else Cell(defAttr, 0, None)
      requires |wasPages| == |m.pages| == 0x400 && forall i' :: 0 <= i' < 0x400 ==> |wasPages[i']| == 0x400
      requires forall i', j' :: 0 <= i' < 0x400 && 0 <= j' < 0x400 ==>
        if First(i', j') < First(i, j) then Twin(pages[i'][j'], wasPages[i'][j'])
        else wasPages[i'][j'] == Page(null, null, None, defAttr)
      requires |m.pages[i]| == 0x400 && Twin(pages[i][j], m.pages[i][j])
      requires m.pages == wasPages[i := wasPages[i][j := m.pages[i][j]]]
      requires forall a: u32 ::
        m.cells[a] == if First(i, j) <= a < First(i, j) + 0x1000 then PageCell(pages[i][j], a - First(i, j)) else was[a]
      ensures ClonedTo(m, First(i, j) + 0x1000)
    {
      hide Mem.Tree, Mem.Leaves, PageCell;
      PageCells(i, j);
      assert forall i', j' :: 0 <= i' < 0x400 && 0 <= j' < 0x400 ==>
        (First(i', j') < First(i, j) + 0x1000 <==> First(i', j') < First(i, j) || (i' == i && j' == j));
    }

    lemma CloneSkipsRow(m: Mem, i: int)
      requires Valid() && 0 <= i < 0x400 && ClonedTo(m, First(i, 0))
      requires pdir != null ==> pdir.Length == 0x400 && pdir[i] == null
      ensures ClonedTo(m, First(i + 1, 0))
    {
      hide Mem.Tree, Mem.Leaves, PdirIdx, PtableIdx, PageIdx, PageCell, First;
      TableRow(i);
      forall a: u32 | First(i, 0) <= a < First(i + 1, 0) ensures cells[a] == Cell(defAttr, 0, None) {
        BlankByte(a, i);
      }
      FirstRow(i, i, 0);
      forall i', j' | 0 <= i' < 0x400 && 0 <= j' < 0x400
        ensures if First(i', j') < First(i + 1, 0) then Twin(pages[i'][j'], m.pages[i'][j'])
                else m.pages[i'][j'] == Page(null, null, None, defAttr)
      {
        FirstRow(i, i', j');
      }
    }

    lemma BlankByte(a: u32, i: int)
      requires Valid() && 0 <= i < 0x400 && First(i, 0) <= a < First(i + 1, 0)
      requires pdir != null ==> pdir.Length == 0x400 && pdir[i] == null
      ensures |cells| == 0x1_0000_0000 && cells[a] == Cell(defAttr, 0, None)
    {
      TableRow(i);
      InTable(a, i);
      var j := PtableIdx(a);
      InPage(a, i, j);
      PageCells(i, j);
    }

    lemma ClonedAll(m: Mem)
      requires Valid() && m.Valid() && ClonedTo(m, 0x1_0000_0000) && m.host == host && m.invalid == invalid
      ensures m.View() == View() && m.Live() == Live()
    {
      hide Mem.Tree, Mem.Leaves, PdirIdx, PtableIdx, PageIdx;
      assert m.cells == cells;
      forall i, j | 0 <= i < 0x400 && 0 <= j < 0x400 ensures Twin(pages[i][j], m.pages[i][j]) {
        FirstIs(i, j);
      }
    }

    method CloneRow(m: Mem, i: nat)
      requires Valid() && m.Valid() && m != this && m.Repr() !! Repr() + {this} && m !in Repr() && m.defAttr == defAttr
      requires i < 0x400 && pdir != null && pdir.Length == 0x400
      requires m.pdir != null && m.pdir.Length == 0x400 && m.pdir[i] == null && m.pdir in m.dirs
      requires ClonedTo(m, First(i, 0))
      modifies m`pages, m`cells, m`blocks, m`dirs, m.pdir
      ensures m.Valid() && fresh(m.Repr() - old(m.Repr())) && m.pdir in m.dirs && ClonedTo(m, First(i + 1, 0))
      ensures m.pdir.Length == 0x400 && forall i' :: i < i' < 0x400 ==> m.pdir[i'] == old(m.pdir[i'])
    {
      hide Mem.Tree, Mem.Leaves, First, PdirIdx, PtableIdx, PageIdx;
      if pdir[i] != null {
        TableRow(i);
        m.MakeTable(i);
        m.TableRow(i);
        CloneTable(m, i, pdir[i], m.pdir[i]);
      } else {
        CloneSkipsRow(m, i);
      }
    }

    lemma ClonedBlank(m: Mem)
      requires Valid() && pdir == null && ClonedTo(m, 0)
      ensures ClonedTo(m, 0x1_0000_0000)
    {
      hide Mem.Tree, Mem.Leaves, PdirIdx, PtableIdx, PageIdx, PageCell;
      forall a: u32 ensures cells[a] == Cell(defAttr, 0, None) {
        var i := PdirIdx(a);
        InTable(a, i);
        BlankByte(a, i);
      }
      forall i, j | 0 <= i < 0x400 && 0 <= j < 0x400 ensures Twin(pages[i][j], m.pages[i][j]) {
        FirstIs(i, j);
        TableRow(i);
      }
    }

    lemma ClonedNone(m: Mem)
      requires Valid() && m.Valid() && m.Sized()
      requires forall a: u32 :: m.cells[a] == Cell(defAttr, 0, None)
      requires forall i, j :: 0 <= i < 0x400 && 0 <= j < 0x400 ==> m.pages[i][j] == Page(null, null, None, defAttr)
      ensures ClonedTo(m, 0)
    {
      TableRow(0);
      m.TableRow(0);
    }

    method CloneRows(m: Mem)
      requires Valid() && m.Valid() && m != this && m.Repr() !! Repr() + {this} && m !in Repr() && m.defAttr == defAttr
      requires pdir != null && m.pdir != null && m.pdir in m.dirs && m.pdir.Length == 0x400
      requires forall i :: 0 <= i < 0x400 ==> m.pdir[i] == null
      requires ClonedTo(m, 0)
      modifies m`pages, m`cells, m`blocks, m`dirs, m.pdir
      ensures m.Valid() && fresh(m.Repr() - old(m.Repr())) && ClonedTo(m, 0x1_0000_0000)
    {
      hide Mem.Tree, Mem.Leaves, First, PdirIdx, PtableIdx, PageIdx;
      FirstEnds();
      TableRow(0);
      for i := 0 to 0x400
        invariant m.Valid() && fresh(m.Repr() - old(m.Repr())) && m.pdir in m.dirs
        invariant forall i' :: i <= i' < 0x400 ==> m.pdir[i'] == null
        invariant ClonedTo(m, First(i, 0))
      {
        CloneRow(m, i);
      }
    }

    /** A new memory with the same default and nothing in it. */
    method BlankLike() returns (m: Mem)
      requires Valid()
      ensures fresh(m) && m.Valid() && fresh(m.Repr()) && m.host == host && m.defAttr == defAttr && m.pdir == null
      ensures m.invalid == invalid && ClonedTo(m, 0)
    {
      hide Mem.Tree, Mem.Leaves, First, PdirIdx, PtableIdx, PageIdx, Mem.PagesIn;
      m := new Mem(defAttr, host);
      if invalid {
        m.SetInvalid();
      }
      ClonedNone(m);
    }

    method Clone() returns (m: Mem)
      requires Valid()
      ensures fresh(m) && m.Valid() && fresh(m.Repr()) && m.host == host && m.defAttr == defAttr
      ensures m.View() == View() && m.Live() == Live()
    {
      hide Mem.Tree, Mem.Leaves, First, PdirIdx, PtableIdx, PageIdx, Mem.ClonedTo, Mem.PagesIn;
      m := BlankLike();
      if pdir != null {
        m.MakeDir();
        CloneRows(m);
      } else {
        ClonedBlank(m);
      }
      ClonedAll(m);
    }
  }
}
