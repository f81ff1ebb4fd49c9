/** Where enter leaves the pointers, and what it leaves on the stack. */
module Displays {
  import opened Words
  import opened FlatMemory
  import opened MemoryLaws
  import opened Machine
  import opened Stack
  import opened Frames
  import opened EnterLeave
  import opened Accesses

  // ---- the pointers ----

  /** One display entry: both pointers move down by the operand size. */
  lemma EntryMoves(s: St, n: Width)
    ensures var t := CopyEntry(s, n); var k: int := n;
      && Sp(t) == (Sp(s) - k) % SpMod(s) && Bp(t) == (Bp(s) - k) % SpMod(s) && SpMod(t) == SpMod(s)
      && Base(t) == Base(s) && t.mode == s.mode
  {
    hide SetBp, Fetch, Push, Kept, Sp, SpMod, Bp, Base, ReadN;
    var t := SetBp(s, Bp(s) - n);
    SetBpKept(s, Bp(s) - n);
    KeptIs(s, t);
    var (u, v) := Fetch(t, t.segs.ss, Bp(t), n);
    FetchKept(t, Bp(t), n);
    SamePointers(t, u);
    PushMoves(u, n, v);
  }

  /** A push, as far as the pointers go. */
  lemma PushMoves(s: St, n: Width, v: u32)
    ensures var t := Push(s, n, v); var k: int := n;
      && Sp(t) == (Sp(s) - k) % SpMod(s) && Bp(t) == Bp(s) && SpMod(t) == SpMod(s) && Base(t) == Base(s)
      && t.mode == s.mode
  {
    hide Push, Moved, Sp, SpMod, Base, Bp;
    PushIs(s, n, v);
    MovedIs(s, Push(s, n, v));
    MovedBp(s, Push(s, n, v));
  }

  lemma SamePointers(s: St, t: St)
    requires t == s.(intr := t.intr, mem := t.mem)
    ensures Sp(t) == Sp(s) && SpMod(t) == SpMod(s) && Bp(t) == Bp(s) && Base(t) == Base(s)
  {
  }

  lemma MovedBp(s: St, t: St)
    requires Moved(s, t)
    ensures Bp(t) == Bp(s)
  {
    hide SetLo16, U16, U32;
  }

  lemma {:induction false} DisplayMoves(s: St, n: Width, k: nat)
    ensures var t := CopyDisplay(s, n, k);
      Sp(t) == (Sp(s) - Bytes(n, k)) % SpMod(s) && SpMod(t) == SpMod(s) && Base(t) == Base(s) && t.mode == s.mode
    decreases k
  {
    hide CopyEntry, Sp, SpMod, Base;
    if k == 0 {
      StaysPut(s);
    } else {
      EntryMoves(s, n);
      DisplayMoves(CopyEntry(s, n), n, k - 1);
      Shifted(SpMod(s), Sp(s), n, 0 - Bytes(n, k));
    }
  }

  /** Down by `a`, then by `b`. */
  lemma Down(m: nat, sp: nat, a: nat, b: nat)
    requires IsSpMod(m)
    ensures ((sp - a) % m - b) % m == (sp - a - b) % m
  {
    Shifted(m, sp, a, 0 - a - b);
  }

  lemma FrameSum(m: nat, sp: nat, k: nat, b: nat, n: nat, x: nat, y: nat, z: nat)
    requires IsSpMod(m) && x == (sp - k) % m && y == (x - b) % m && z == (y - n) % m
    ensures z == (sp - k - (n + b)) % m
  {
    Down(m, x, b, n);
    Down(m, sp, k, b + n);
  }

  lemma FrameMoves(s: St, nesting: nat)
    ensures var t := PushFrame(s, nesting);
      Sp(t) == (Sp(s) - StackBytes(s) - Bytes(OpBytes(s), nesting)) % SpMod(s)
  {
    hide Push, CopyDisplay, Sp, SpMod, Bp, Base, StackBytes, OpBytes, IsSpMod;
    var n, k: int := OpBytes(s), StackBytes(s);
    var t := Push(s, StackBytes(s), Bp(s));
    PushMoves(s, StackBytes(s), Bp(s));
    SameMode(s, t);
    if nesting > 0 {
      var u := CopyDisplay(t, n, nesting - 1);
      DisplayMoves(t, n, nesting - 1);
      PushMoves(u, n, Sp(t));
      FrameSum(SpMod(s), Sp(s), k, Bytes(n, nesting - 1), n, Sp(t), Sp(u), Sp(Push(u, n, Sp(t))));
    }
  }

  lemma SameMode(s: St, t: St)
    requires t.mode == s.mode
    ensures OpBytes(t) == OpBytes(s) && StackBytes(t) == StackBytes(s)
  {
  }

  /**
  Theorem: enter leaves the frame pointer at the saved frame pointer and the stack pointer below display and locals,
  for every local size and nesting level, on every stack.
  */
  lemma EnterMoves(s: St, local: u16, nesting: nat)
    ensures var t := EnterFrame(s, local, nesting); var n, k: int := OpBytes(s), StackBytes(s);
      && Bp(t) == (Sp(s) - k) % SpMod(s)
      && Sp(t) == (Sp(s) - k - Bytes(OpBytes(s), nesting) - local) % SpMod(s)
  {
    hide Push, PushFrame, Kept, SetSp, SetBp, SpMod, Sp, Base, Bp;
    var k: int := StackBytes(s);
    var t := PushFrame(s, nesting);
    var fp := Sp(Push(s, StackBytes(s), Bp(s)));
    FrameMoves(s, nesting);
    FrameKept(s, nesting);
    KeptIs(s, t);
    EnterFrameIs(s, local, nesting);
    PushIs(s, StackBytes(s), Bp(s));
    var u := SetBp(t, fp);
    SetBpKept(t, fp);
    KeptIs(t, u);
    SetSpKept(u, Sp(u) - local);
    Shifted(SpMod(s), Sp(s), k + Bytes(OpBytes(s), nesting), 0 - k - Bytes(OpBytes(s), nesting) - local);
  }

  // ---- what a push leaves alone ----

  /** `b` is none of the `d` bytes below the stack pointer. */
  ghost predicate Clear(s: St, d: nat, b: u32) {
    forall o: nat :: o < SpMod(s) + 3 && Below(SpMod(s), Sp(s), d, o) ==> At(Base(s), o) != b
  }

  ghost predicate ClearOf(s: St, d: nat, a: u32, n: Width) { forall b: u32 :: Hit(a, n, b) ==> Clear(s, d, b) }

  lemma PushClear(s: St, n: Width, v: u32, d: nat, b: u32)
    requires Separate(s.mem) && n <= d <= SpMod(s) && Clear(s, d, b)
    ensures Data(Push(s, n, v).mem, b) == Data(s.mem, b) && Clear(Push(s, n, v), d - n, b)
  {
    hide Push, WriteN, Separate, Data, Below, At, Hit, Sp, SpMod, Base, Moved, SameLayout;
    PushIs(s, n, v);
    var m, base, sp := SpMod(s), Base(s), Sp(s);
    var g := s.mem.(invalid := false);
    Quiet(s.mem);
    WriteLaw(g, At(base, (sp - n) % m), n, v);
    if Hit(At(base, (sp - n) % m), n, b) {
      SlotBelow(base, m, sp, n, d, b);
    }
    forall o: nat | o < m + 3 && Below(m, (sp - n) % m, d - n, o) ensures At(base, o) != b {
      Deeper(m, sp, d, n, d - n, o);
    }
  }

  /** A push clear of some bytes leaves what a read shows of them. */
  lemma PushShows(s: St, n: Width, v: u32, d: nat, a: u32, n2: Width)
    requires Room(s, n) && n <= d <= SpMod(s) && ClearOf(s, d, a, n2)
    ensures Value(Push(s, n, v).mem, a, n2, KRead) == Value(s.mem, a, n2, KRead)
    ensures ClearOf(Push(s, n, v), d - n, a, n2)
  {
    hide Push, Separate, Data, Hit, Clear, Moved, SameLayout, Sp, SpMod, Base, Usable, Value, Slot, U32;
    var t := Push(s, n, v);
    PushLaw(s, n, v, n);
    forall b: u32 | Hit(a, n2, b)
      ensures Clear(t, d - n, b) && Shown(t.mem, b, KRead) == Shown(s.mem, b, KRead) {
      PushClear(s, n, v, d, b);
      LayoutPerms(s.mem, t.mem, b);
    }
    SameValue(s.mem, t.mem, a, n2);
  }

  lemma SameValue(f: FlatMem, g: FlatMem, a: u32, n: Width)
    requires forall b: u32 :: Hit(a, n, b) ==> Shown(g, b, KRead) == Shown(f, b, KRead)
    ensures Value(g, a, n, KRead) == Value(f, a, n, KRead)
  {
    hide Hit, Shown, U32, Word, Dword;
    HitAt(a, n, 0);
    if n > 1 {
      HitAt(a, n, 1);
    }
    if n > 2 {
      HitAt(a, n, 2);
      HitAt(a, n, 3);
    }
  }

  // ---- the display ----

  /** Where the `i`-th entry below a frame pointer lies. */
  function EntryAt(s: St, fp: u32, n: Width, i: nat): u32 { At(Base(s), (fp - Bytes(n, i)) % SpMod(s)) }

  /** What a read of the `i`-th entry of the caller's display shows. */
  function Shows(s: St, n: Width, i: nat): u32 { Value(s.mem, EntryAt(s, Bp(s), n, i), n, KRead) }

  /** An entry copied: the first of the caller's display goes on top of the stack. */
  lemma EntryCopied(s: St, n: Width, d: nat)
    requires Room(s, d) && n <= d
    ensures var t := CopyEntry(s, n); Slot(t, 0, n, Shows(s, n, 1)) && Room(t, d - n)
  {
    hide SetBp, Fetch, Push, Kept, Moved, Room, Slot, SameLayout, Separate, Sp, SpMod, Base, Bp, Value, At, SameCode;
    var t := SetBp(s, Bp(s) - n);
    SetBpKept(s, Bp(s) - n);
    KeptIs(s, t);
    SetBpRoom(s, Bp(s) - n, d);
    var (u, v) := Fetch(t, t.segs.ss, Bp(t), n);
    FetchShows(t, Bp(t), n);
    FetchRoom(t, Bp(t), n, d);
    PushLaw(u, n, v, d);
    assert Bytes(n, 1) == n + Bytes(n, 0);
  }

  lemma SetBpRoom(s: St, x: int, d: nat)
    requires Room(s, d)
    ensures Room(SetBp(s, x), d) && SetBp(s, x).mem == s.mem
  {
    hide Usable, Separate, U16, U32, SetLo16;
  }

  lemma FetchShows(s: St, ofs: u32, n: Width)
    ensures var (t, v) := Fetch(s, s.segs.ss, ofs, n);
      && v == Value(s.mem, At(Base(s), ofs), n, KRead) && SameCode(s.mem, t.mem)
      && t == s.(intr := t.intr, mem := t.mem)
  {
    hide ReadN, Value, SameCode;
    var g := s.mem.(invalid := false);
    SameCodeSelf(s.mem);
    SameShown(s.mem, g, KRead);
    ReadShows(g, At(Base(s), ofs), n);
    SameCodeTrans(s.mem, g, ReadN(g, At(Base(s), ofs), n).0);
  }

  lemma FetchRoom(s: St, ofs: u32, n: Width, d: nat)
    requires Room(s, d)
    ensures Room(Fetch(s, s.segs.ss, ofs, n).0, d)
  {
    hide Fetch, Usable, Separate, SameLayout, Value;
    var t := Fetch(s, s.segs.ss, ofs, n).0;
    FetchShows(s, ofs, n);
    LayoutSeparate(s.mem, t.mem);
    SamePointers(s, t);
    RoomLayout(s, t, d);
  }

  /** The entries after the first, seen from one copy on. */
  lemma EntryNext(s: St, n: Width, i: nat)
    ensures var t := CopyEntry(s, n);
      EntryAt(t, Bp(t), n, i) == EntryAt(s, Bp(s), n, i + 1) && EntryAt(t, Sp(t), n, i) == EntryAt(s, Sp(s), n, i + 1)
  {
    hide CopyEntry, At, Sp, SpMod, Base, Bp;
    EntryMoves(s, n);
    Shifted(SpMod(s), Bp(s), n, 0 - n - Bytes(n, i));
    Shifted(SpMod(s), Sp(s), n, 0 - n - Bytes(n, i));
  }

  /** A copy leaves entries it does not overwrite. */
  lemma EntryClear(s: St, n: Width, d: nat, e: nat, a: u32, n2: Width)
    requires Room(s, d) && n <= e <= d && ClearOf(s, e, a, n2)
    ensures var t := CopyEntry(s, n);
      Value(t.mem, a, n2, KRead) == Value(s.mem, a, n2, KRead) && ClearOf(t, e - n, a, n2)
  {
    hide SetBp, Fetch, Push, Kept, Moved, Room, SameLayout, Separate, Sp, SpMod, Base, Bp, Value, At, SameCode, Below,
         Hit;
    var t := SetBp(s, Bp(s) - n);
    SetBpKept(s, Bp(s) - n);
    KeptIs(s, t);
    SetBpRoom(s, Bp(s) - n, d);
    var (u, v) := Fetch(t, t.segs.ss, Bp(t), n);
    FetchShows(t, Bp(t), n);
    FetchRoom(t, Bp(t), n, d);
    SamePointers(t, u);
    SameShown(t.mem, u.mem, KRead);
    RoomIs(u, d);
    RoomPart(u, d, n);
    PushShows(u, n, v, e, a, n2);
  }

  lemma RoomPart(s: St, d: nat, n: nat)
    requires Room(s, d) && n <= d
    ensures Room(s, n)
  {
    hide Usable, Separate, Sp, SpMod, Base;
    StaysPut(s);
    UsableDeeper(s.mem, Base(s), SpMod(s), Sp(s), d, 0, n);
  }

  /** The `i`-th entry of the new display is the `i`-th of the caller's, unless the copy has overwritten that one. */
  lemma {:induction false} DisplayCopied(s: St, n: Width, k: nat, d: nat, i: nat)
    requires Room(s, d) && Bytes(n, k) <= d && 0 < i <= k
    requires ClearOf(s, Bytes(n, i - 1), EntryAt(s, Bp(s), n, i), n)
    ensures Holds(CopyDisplay(s, n, k).mem, EntryAt(s, Sp(s), n, i), n, Shows(s, n, i))
    decreases k
  {
    hide CopyEntry, Room, Slot, SameLayout, At, Sp, SpMod, Base, Bp, Value, ClearOf, Holds;
    var t := CopyEntry(s, n);
    EntryMoves(s, n);
    EntryCopied(s, n, d);
    RoomIs(s, d);
    if i == 1 {
      DisplayLaw(t, n, k - 1, d - n, 0, n, Shows(s, n, 1));
      DisplayMoves(t, n, k - 1);
      SlotHolds(CopyDisplay(t, n, k - 1), t, Bytes(n, k - 1), n, Shows(s, n, 1));
      assert Bytes(n, 1) == n + Bytes(n, 0);
    } else {
      BytesGrow(n, i - 1, k);
      EntryClear(s, n, d, Bytes(n, i - 1), EntryAt(s, Bp(s), n, i), n);
      EntryNext(s, n, i - 1);
      DisplayCopied(t, n, k - 1, d - n, i - 1);
    }
  }

  lemma {:induction false} BytesGrow(n: Width, i: nat, k: nat)
    requires i <= k
    ensures Bytes(n, i) <= Bytes(n, k) && (0 < i ==> n <= Bytes(n, i))
    decreases k
  {
    if i < k {
      BytesGrow(n, i, k - 1);
    }
  }

  /** A slot of `t`, `off` bytes above a pointer that is `off` bytes below that of `s`. */
  lemma SlotHolds(t: St, s: St, off: nat, n: Width, v: u32)
    requires Slot(t, off, n, v) && SpMod(t) == SpMod(s) && Base(t) == Base(s) && Sp(t) == (Sp(s) - off) % SpMod(s)
    ensures Holds(t.mem, At(Base(s), Sp(s)), n, v)
  {
    hide Sp, SpMod, Base, At, Holds;
    StaysPut(s);
    Shifted(SpMod(s), Sp(s), off, 0);
  }

  /** A push leaves a slot above the pointer where it is. */
  lemma PushKeepsHeld(s: St, n: Width, v: u32, off: nat, n2: Width, v2: u32)
    requires Room(s, n) && off + n2 + n <= SpMod(s) && Slot(s, off, n2, v2)
    ensures Holds(Push(s, n, v).mem, At(Base(s), (Sp(s) + off) % SpMod(s)), n2, v2)
  {
    hide Push, Sp, SpMod, Base, At, Holds, Moved, Separate, Usable;
    PushIs(s, n, v);
    PushKeepsSlot(s, n, v, off, n2, v2);
    Shifted(SpMod(s), Sp(s), n, off);
  }

  /** The frame pointer just saved, with everything above it as before. */
  lemma SavedPointer(s: St, d: nat)
    requires Room(s, d) && StackBytes(s) <= d
    ensures var k: int := StackBytes(s); var t := Push(s, StackBytes(s), Bp(s));
      && Room(t, d - k) && Slot(t, 0, StackBytes(s), Bp(s)) && SpMod(t) == SpMod(s) && Base(t) == Base(s)
      && Sp(t) == (Sp(s) - k) % SpMod(s) && Bp(t) == Bp(s) && OpBytes(t) == OpBytes(s)
  {
    hide Push, Room, Slot, Sp, SpMod, Base, Bp, Moved, SameLayout;
    PushLaw(s, StackBytes(s), Bp(s), d);
    MovedBp(s, Push(s, StackBytes(s), Bp(s)));
    MovedIs(s, Push(s, StackBytes(s), Bp(s)));
  }

  /** The display copied on top of the saved pointer, and room for one more entry. */
  lemma CopiedRoom(t: St, n: Width, j: nat, d: nat, k: Width, v: u32)
    requires Room(t, d) && Slot(t, 0, k, v) && Bytes(n, j + 1) <= d && k + d <= SpMod(t)
    ensures var u := CopyDisplay(t, n, j);
      && Room(u, n) && Slot(u, Bytes(n, j), k, v) && SpMod(u) == SpMod(t) && Base(u) == Base(t)
      && Sp(u) == (Sp(t) - Bytes(n, j)) % SpMod(t)
  {
    hide CopyDisplay, Room, Slot, Sp, SpMod, Base, SameLayout;
    DisplayLaw(t, n, j, d, 0, k, v);
    DisplayMoves(t, n, j);
    RoomPart(CopyDisplay(t, n, j), d - Bytes(n, j), n);
  }

  /** The caller's frame pointer lies at the new one. */
  lemma FrameSaves(s: St, nesting: nat, d: nat)
    requires var k: int := StackBytes(s); Room(s, d) && d == k + Bytes(OpBytes(s), nesting)
    ensures var k: int := StackBytes(s);
      Holds(PushFrame(s, nesting).mem, At(Base(s), (Sp(s) - k) % SpMod(s)), StackBytes(s), Bp(s))
  {
    hide Push, CopyDisplay, Room, Slot, Sp, SpMod, Base, Bp, Holds, At;
    var n, w, k: int := OpBytes(s), StackBytes(s), StackBytes(s);
    var t := Push(s, w, Bp(s));
    SavedPointer(s, d);
    RoomIs(s, d);
    if nesting == 0 {
      SlotHolds(t, t, 0, w, Bp(s));
    } else {
      var u := CopyDisplay(t, n, nesting - 1);
      CopiedRoom(t, n, nesting - 1, d - k, w, Bp(s));
      PushKeepsHeld(u, n, Sp(t), Bytes(n, nesting - 1), w, Bp(s));
      Shifted(SpMod(s), Sp(t), Bytes(n, nesting - 1), 0);
      StaysPut(t);
    }
  }

  /** The new frame pointer is the last entry. */
  lemma FrameEnds(s: St, nesting: nat, d: nat)
    requires var k: int := StackBytes(s); Room(s, d) && d == k + Bytes(OpBytes(s), nesting) && nesting > 0
    ensures var k: int := StackBytes(s); var fp := (Sp(s) - k) % SpMod(s);
      Holds(PushFrame(s, nesting).mem, EntryAt(s, fp, OpBytes(s), nesting), OpBytes(s), fp)
  {
    hide Push, CopyDisplay, Room, Slot, Sp, SpMod, Base, Bp, Holds, At, Moved, SameLayout;
    var n, w, k: int := OpBytes(s), StackBytes(s), StackBytes(s);
    var t := Push(s, w, Bp(s));
    SavedPointer(s, d);
    RoomIs(s, d);
    var u := CopyDisplay(t, n, nesting - 1);
    CopiedRoom(t, n, nesting - 1, d - k, w, Bp(s));
    PushLaw(u, n, Sp(t), n);
    SlotHolds(Push(u, n, Sp(t)), Push(u, n, Sp(t)), 0, n, Sp(t));
    Down(SpMod(s), Sp(t), Bytes(n, nesting - 1), n);
  }

  /** Entry `i` of the new display, in terms of the memory with the frame pointer saved. */
  lemma FrameKeepsEntry(s: St, nesting: nat, d: nat, i: nat, t: St)
    requires var k: int := StackBytes(s);
      && Room(s, d) && d == k + Bytes(OpBytes(s), nesting) && 0 < i < nesting && t == Push(s, StackBytes(s), Bp(s))
      && ClearOf(t, Bytes(OpBytes(s), i - 1), EntryAt(t, Bp(t), OpBytes(s), i), OpBytes(s))
    ensures Holds(PushFrame(s, nesting).mem, EntryAt(t, Sp(t), OpBytes(s), i), OpBytes(s), Shows(t, OpBytes(s), i))
  {
    hide Push, CopyDisplay, Room, Slot, Sp, SpMod, Base, Bp, Holds, At, ClearOf, Value;
    var n, j: int := OpBytes(s), nesting - 1;
    SavedPointer(s, d);
    RoomIs(s, d);
    BytesGrow(n, i, j);
    DisplayCopied(t, n, j, d - StackBytes(s), i);
    var u := CopyDisplay(t, n, j);
    CopiedRoom(t, n, j, d - StackBytes(s), StackBytes(s), Bp(s));
    var off := Bytes(n, j) - Bytes(n, i);
    Shifted(SpMod(s), Sp(t), Bytes(n, j), 0 - Bytes(n, i));
    HeldIsSlot(u, off, n, Shows(t, n, i));
    PushKeepsHeld(u, n, Sp(t), off, n, Shows(t, n, i));
  }

  /** Entry `i` of the new display, in terms of the memory before. */
  lemma FrameCopies(s: St, nesting: nat, d: nat, i: nat)
    requires var k: int := StackBytes(s);
      && Room(s, d) && d == k + Bytes(OpBytes(s), nesting) && 0 < i < nesting
      && ClearOf(s, k + Bytes(OpBytes(s), i - 1), EntryAt(s, Bp(s), OpBytes(s), i), OpBytes(s))
    ensures var k: int := StackBytes(s); var fp := (Sp(s) - k) % SpMod(s);
      Holds(PushFrame(s, nesting).mem, EntryAt(s, fp, OpBytes(s), i), OpBytes(s), Shows(s, OpBytes(s), i))
  {
    hide Push, PushFrame, Room, Slot, Sp, SpMod, Base, Bp, Holds, At, ClearOf, Value;
    var n, w, k: int := OpBytes(s), StackBytes(s), StackBytes(s);
    SavedPointer(s, d);
    RoomIs(s, d);
    RoomPart(s, d, w);
    BytesGrow(n, i - 1, nesting);
    PushShows(s, w, Bp(s), k + Bytes(n, i - 1), EntryAt(s, Bp(s), n, i), n);
    FrameKeepsEntry(s, nesting, d, i, Push(s, w, Bp(s)));
  }

  lemma HeldIsSlot(s: St, off: nat, n: Width, v: u32)
    requires Holds(s.mem, At(Base(s), (Sp(s) + off) % SpMod(s)), n, v)
    ensures Slot(s, off, n, v)
  {
    hide Holds, At, Sp, SpMod, Base;
  }

  /**
  Theorem: what enter leaves in memory. The caller's frame pointer lies at the new one; entry i of the display, i
  times the operand size below, is what the caller's entry i showed before, unless the copy has overwritten that one
  by then; the last entry is the new frame pointer.
  */
  lemma EnterStores(s: St, local: u16, nesting: nat)
    requires Room(s, Bytes(StackBytes(s), 1) + Bytes(OpBytes(s), nesting))
    ensures var t := EnterFrame(s, local, nesting); var n, k := OpBytes(s), Bytes(StackBytes(s), 1);
      && Holds(t.mem, EntryAt(s, Bp(t), n, 0), StackBytes(s), Bp(s))
      && (nesting > 0 ==> Holds(t.mem, EntryAt(s, Bp(t), n, nesting), n, Bp(t)))
      && forall i: nat :: 0 < i < nesting && ClearOf(s, k + Bytes(n, i - 1), EntryAt(s, Bp(s), n, i), n) ==>
        Holds(t.mem, EntryAt(s, Bp(t), n, i), n, Shows(s, n, i))
  {
    hide EnterFrame, PushFrame, Room, Sp, SpMod, Base, Bp, Holds, At, ClearOf, Value, Kept, Push;
    var n, k: int := OpBytes(s), StackBytes(s);
    var d := k + Bytes(n, nesting);
    assert Bytes(StackBytes(s), 1) == k + Bytes(StackBytes(s), 0);
    EnterMoves(s, local, nesting);
    EnterFrameIs(s, local, nesting);
    FrameSaves(s, nesting, d);
    Reduced(SpMod(s), Sp(s) - k);
    Fits(SpMod(s), (Sp(s) - k) % SpMod(s));
    if nesting > 0 {
      FrameEnds(s, nesting, d);
    }
    forall i: nat | 0 < i < nesting && ClearOf(s, k + Bytes(n, i - 1), EntryAt(s, Bp(s), n, i), n)
      ensures Holds(PushFrame(s, nesting).mem, EntryAt(s, (Sp(s) - k) % SpMod(s), n, i), n, Shows(s, n, i)) {
      FrameCopies(s, nesting, d, i);
    }
  }

  /**
  Concretely: when BP equals SP and operand and stack size agree, the first entry copied is the frame pointer that
  enter has just saved, whatever the caller's display held there.
  */
  lemma CopyOverwritten(s: St, local: u16, nesting: nat)
    requires Room(s, Bytes(StackBytes(s), 1) + Bytes(OpBytes(s), nesting)) && nesting > 1
    requires Matched(s) && Bp(s) == Sp(s)
    ensures var t := EnterFrame(s, local, nesting); Holds(t.mem, EntryAt(s, Bp(t), OpBytes(s), 1), OpBytes(s), Bp(s))
  {
    hide EnterFrame, PushFrame, Room, Sp, SpMod, Base, Bp, Holds, At, Value, Kept, Push, Below, Slot;
    var n, k: int := OpBytes(s), OpBytes(s);
    var d := k + Bytes(n, nesting);
    assert Bytes(n, 1) == k + Bytes(n, 0);
    var t := Push(s, n, Bp(s));
    EnterMoves(s, local, nesting);
    EnterFrameIs(s, local, nesting);
    SavedPointer(s, d);
    Reduced(SpMod(s), Sp(s) - k);
    Fits(SpMod(s), (Sp(s) - k) % SpMod(s));
    NothingBelow(t, EntryAt(t, Bp(t), n, 1), n);
    FrameKeepsEntry(s, nesting, d, 1, t);
    SlotShows(s, t, d);
  }

  lemma NothingBelow(s: St, a: u32, n: Width)
    ensures ClearOf(s, 0, a, n)
  {
    hide Hit, At;
    forall o: nat ensures !Below(SpMod(s), Sp(s), 0, o) {
      Reduced(SpMod(s), Sp(s) - 1 - o);
    }
    hide Below;
  }

  /** A read of the frame pointer just saved shows it. */
  lemma SlotShows(s: St, t: St, d: nat)
    requires Matched(s) && Room(s, d) && OpBytes(s) <= d && t == Push(s, OpBytes(s), Bp(s))
    ensures var n := OpBytes(s); var k: int := n;
      Value(t.mem, At(Base(s), (Sp(s) - k) % SpMod(s)), n, KRead) == Bp(s)
  {
    hide Push, Room, Sp, SpMod, Base, Bp, Holds, At, Value, Slot, Moved, SameLayout, ReadN, Readable;
    var n, k: int := OpBytes(s), OpBytes(s);
    var a := At(Base(s), (Sp(s) - k) % SpMod(s));
    SavedPointer(s, d);
    SlotHolds(t, t, 0, n, Bp(s));
    PushedReadable(s, t, n, d);
    ReadBack(t.mem, a, n, Bp(s));
    ReadShows(t.mem, a, n);
    BpSmall(s);
  }

  lemma BpSmall(s: St)
    ensures Matched(s) ==> Low(Bp(s), OpBytes(s)) == Bp(s)
  {
  }

  lemma PushedReadable(s: St, t: St, n: Width, d: nat)
    requires Room(s, d) && n <= d && t == Push(s, n, Bp(s))
    ensures var k: int := n; Readable(t.mem, At(Base(s), (Sp(s) - k) % SpMod(s)), n)
  {
    hide Push, Sp, SpMod, Base, Bp, At, Moved, Separate, SameLayout, Slot, Hit, CanRead, CanWrite, Below;
    PushLaw(s, n, Bp(s), d);
    SlotUsable(s.mem, Base(s), SpMod(s), Sp(s), d, n);
    var k: int := n;
    forall b: u32 | Hit(At(Base(s), (Sp(s) - k) % SpMod(s)), n, b) ensures CanRead(t.mem, b) {
      LayoutPerms(s.mem, t.mem, b);
    }
  }
}
