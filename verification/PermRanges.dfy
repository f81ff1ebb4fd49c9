/** Which bytes a range permission update reaches. */
module PermRanges {
  import opened Words
  import opened FlatMemory

  /** Exactly the attributes of [start, end] become `perm`; no byte moves or changes. */
  ghost predicate SetsExactly(f: FlatMem, g: FlatMem, start: u32, end: u32, perm: bv8) {
    && g.host == f.host && g.invalid == f.invalid
    && forall a: u32 :: g.cells[a] == if start <= a <= end then f.cells[a].(attr := perm) else f.cells[a]
  }

  /** What is set is [start, end], except that a range from 0 across the end of page 0 stops there. */
  lemma SetPermReaches(f: FlatMem, start: u32, end: u32, perm: bv8)
    requires start <= end
    ensures SetsExactly(f, SetPerm(f, start, end, perm), start, LastSet(start, end), perm)
  {
  }

  /** Concretely: permissions for the first 0x1001 bytes leave the last of them as it was. */
  lemma FirstPageOnly(f: FlatMem, perm: bv8)
    ensures Attr(SetPerm(f, 0, 0x1000, perm), 0xfff) == perm
    ensures Attr(SetPerm(f, 0, 0x1000, perm), 0x1000) == Attr(f, 0x1000)
  {
    SetPermReaches(f, 0, 0x1000, perm);
  }

  /** Theorem: the update is exact on every memory if and only if the range starts above 0 or ends in page 0. */
  lemma SetPermIsExact(start: u32, end: u32, perm: bv8)
    requires start <= end
    ensures (forall f: FlatMem :: SetsExactly(f, SetPerm(f, start, end, perm), start, end, perm)) <==>
      start > 0 || end <= 0xfff
  {
    hide SetPerm;
    if start > 0 || end <= 0xfff {
      forall f: FlatMem ensures SetsExactly(f, SetPerm(f, start, end, perm), start, end, perm) {
        SetPermReaches(f, start, end, perm);
      }
    } else {
      var other: bv8 := if perm == 0 then 1 else 0;
      var f := PutAttr(Blank(), 0x1000, other);
      SetPermReaches(f, start, end, perm);
      assert SetPerm(f, start, end, perm).cells[0x1000] == f.cells[0x1000];
      assert !SetsExactly(f, SetPerm(f, start, end, perm), start, end, perm);
    }
  }
}
