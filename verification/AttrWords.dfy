/**
Attribute bytes taken two or four at a time, as the word and dword fast paths of mem.c do: the little-endian word
of the attribute bytes is tested and changed with a mask that has `m` in every byte (the macros PERM16, PERM32).
*/
module AttrWords {
  import opened FlatMemory

  lemma HasAllIs(x: bv8, m: bv8)
    ensures HasAll(x, m) <==> x & m == m
  {
  }

  lemma JoinIs(x: bv8, m: bv8)
    ensures Join(x, m) == x | m
  {
  }

  lemma Bytes16(a: bv8, b: bv8, m: bv8)
    ensures var x := (a as bv16) | ((b as bv16) << 8);
      var y := (m as bv16) + ((m as bv16) << 8);
      && (x & y == y <==> a & m == m && b & m == m)
      && ((x | y) & 0xff) as bv8 == a | m && ((x | y) >> 8) as bv8 == b | m
  {
  }

  /** `(*perm16 & PERM16(m)) == PERM16(m)` */
  method Test16(a: bv8, b: bv8, m: bv8) returns (all: bool)
    ensures all <==> HasAll(a, m) && HasAll(b, m)
  {
    hide HasAll;
    Bytes16(a, b, m);
    HasAllIs(a, m);
    HasAllIs(b, m);
    var perm: bv16 := (a as bv16) | ((b as bv16) << 8);
    var mask: bv16 := (m as bv16) + ((m as bv16) << 8);
    all := perm & mask == mask;
  }

  /** `*perm16 |= PERM16(m)`, read back as bytes */
  method Or16(a: bv8, b: bv8, m: bv8) returns (a': bv8, b': bv8)
    ensures a' == Join(a, m) && b' == Join(b, m)
  {
    hide Join;
    var perm: bv16 := (a as bv16) | ((b as bv16) << 8);
    Bytes16(a, b, m);
    JoinIs(a, m);
    JoinIs(b, m);
    perm := perm | ((m as bv16) + ((m as bv16) << 8));
    a', b' := (perm & 0xff) as bv8, (perm >> 8) as bv8;
  }

  /** PERM32 has `m` in every byte. */
  lemma Mask32(m: bv8, perm16: bv32)
    requires perm16 == (m as bv32) + ((m as bv32) << 8)
    ensures perm16 + (perm16 << 16) == (m as bv32) | ((m as bv32) << 8) | ((m as bv32) << 16) | ((m as bv32) << 24)
  {
  }

  /** `PERM32(m)` */
  method Perm32(m: bv8) returns (mask: bv32)
    ensures mask == (m as bv32) | ((m as bv32) << 8) | ((m as bv32) << 16) | ((m as bv32) << 24)
  {
    var perm16: bv32 := (m as bv32) + ((m as bv32) << 8);
    Mask32(m, perm16);
    mask := perm16 + (perm16 << 16);
  }

  lemma Bytes32(a: bv8, b: bv8, c: bv8, d: bv8, m: bv8)
    ensures var x := (a as bv32) | ((b as bv32) << 8) | ((c as bv32) << 16) | ((d as bv32) << 24);
      var y := (m as bv32) | ((m as bv32) << 8) | ((m as bv32) << 16) | ((m as bv32) << 24);
      && (x & y == y <==> a & m == m && b & m == m && c & m == m && d & m == m)
      && ((x | y) & 0xff) as bv8 == a | m && (((x | y) >> 8) & 0xff) as bv8 == b | m
      && (((x | y) >> 16) & 0xff) as bv8 == c | m && ((x | y) >> 24) as bv8 == d | m
  {
  }

  /** `(*perm32 & PERM32(m)) == PERM32(m)` */
  method Test32(a: bv8, b: bv8, c: bv8, d: bv8, m: bv8) returns (all: bool)
    ensures all <==> HasAll(a, m) && HasAll(b, m) && HasAll(c, m) && HasAll(d, m)
  {
    hide HasAll;
    HasAllIs(a, m);
    HasAllIs(b, m);
    HasAllIs(c, m);
    HasAllIs(d, m);
    var perm: bv32 := (a as bv32) | ((b as bv32) << 8) | ((c as bv32) << 16) | ((d as bv32) << 24);
    Bytes32(a, b, c, d, m);
    var mask := Perm32(m);
    all := perm & mask == mask;
  }

  /** `*perm32 |= PERM32(m)`, read back as bytes */
  method Or32(a: bv8, b: bv8, c: bv8, d: bv8, m: bv8) returns (a': bv8, b': bv8, c': bv8, d': bv8)
    ensures a' == Join(a, m) && b' == Join(b, m) && c' == Join(c, m) && d' == Join(d, m)
  {
    hide Join;
    JoinIs(a, m);
    JoinIs(b, m);
    JoinIs(c, m);
    JoinIs(d, m);
    Bytes32(a, b, c, d, m);
    var perm: bv32 := (a as bv32) | ((b as bv32) << 8) | ((c as bv32) << 16) | ((d as bv32) << 24);
    var mask := Perm32(m);
    perm := perm | mask;
    a', b' := (perm & 0xff) as bv8, ((perm >> 8) & 0xff) as bv8;
    c', d' := ((perm >> 16) & 0xff) as bv8, (perm >> 24) as bv8;
  }
}
