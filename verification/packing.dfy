/**
 Packed lower-triangle addressing.

 A symmetric relation over `n` elements keeps only the cells (a, b) with
 a >= b, stored row after row:

     row 0: (0,0)                  offsets 0
     row 1: (1,0) (1,1)            offsets 1 2
     row 2: (2,0) (2,1) (2,2)      offsets 3 4 5
     ...

 Row `a` starts at the triangular number Tri(a) = a*(a+1)/2 and holds a+1
 cells, so cell (a, b) lives at Tri(a) + b and the whole triangle needs
 Tri(n) cells. This module defines that addressing, its inverse, and proves
 that it is a bijection from the canonical pairs onto [0, Tri(n)).
 */
module Packing {

  /** The triangular number n*(n+1)/2: the cells in rows 0 .. n-1. */
  function Tri(n: nat): nat {
    n * (n + 1) / 2
  }

  function Max(x: nat, y: nat): nat {
    if x >= y then x else y
  }

  function Min(x: nat, y: nat): nat {
    if x >= y then y else x
  }

  /** The canonical pairs of an n-element relation: row >= column, both below n. */
  ghost function CanonicalPairs(n: nat): set<(nat, nat)> {
    set a: nat, b: nat | b <= a < n :: (a, b)
  }

  /** The cells named by the offsets 0 .. Tri(n)-1. */
  ghost function UnpackedCells(n: nat): set<(nat, nat)> {
    set i: nat | i < Tri(n) :: Unpack(i)
  }

  lemma CanonicalPairsMember(p: (nat, nat), n: nat)
    ensures p in CanonicalPairs(n) <==> p.1 <= p.0 < n
  {
    if p.1 <= p.0 < n {
      assert (p.0, p.1) == p;
    }
  }

  /** Coordinates given in either order, put larger first (the swap of index_of). */
  function Canon(row: nat, column: nat): (p: (nat, nat))
    ensures p.1 <= p.0
    ensures p == (row, column) || p == (column, row)
  {
    if row >= column then (row, column) else (column, row)
  }

  /** Offset of the canonical cell (a, b): the start of row a plus b. */
  function PackedOffset(a: nat, b: nat): nat {
    Tri(a) + b
  }

  /** Offset of the cell at (row, column), coordinates in either order. */
  function LinearIndex(row: nat, column: nat): (idx: nat)
    ensures Tri(Max(row, column)) <= idx < Tri(Max(row, column) + 1)
  {
    var (a, b) := Canon(row, column);
    TriStep(a);
    PackedOffset(a, b)
  }

  /**
   The inverse of PackedOffset: the canonical cell stored at offset i.
   It walks the layout cell by cell, moving to the next row after the
   diagonal cell.
   */
  function Unpack(i: nat): (p: (nat, nat))
    ensures p.1 <= p.0
    ensures PackedOffset(p.0, p.1) == i
  {
    if i == 0 then (0, 0)
    else
      var (a, b) := Unpack(i - 1);
      TriStep(a);
      if b < a then (a, b + 1) else (a + 1, 0)
  }

  /** Row a+1 starts right after the a+1 cells of row a. */
  lemma TriStep(a: nat)
    ensures Tri(a + 1) == Tri(a) + a + 1
  {
    assert (a + 1) * (a + 2) == a * (a + 1) + 2 * (a + 1);
  }

  lemma {:induction false} TriMonotone(m: nat, n: nat)
    requires m <= n
    ensures Tri(m) <= Tri(n)
    decreases n - m
  {
    if m < n {
      TriStep(m);
      TriMonotone(m + 1, n);
    }
  }

  /** A canonical cell's offset lies inside its own row's block of offsets. */
  lemma RowBlock(a: nat, b: nat)
    requires b <= a
    ensures Tri(a) <= PackedOffset(a, b) < Tri(a + 1)
  {
    TriStep(a);
  }

  /** Distinct canonical cells have distinct offsets. */
  lemma {:induction false} PackedOffsetInjective(a1: nat, b1: nat, a2: nat, b2: nat)
    requires b1 <= a1 && b2 <= a2
    requires PackedOffset(a1, b1) == PackedOffset(a2, b2)
    ensures a1 == a2 && b1 == b2
  {
    if a1 < a2 {
      RowBlock(a1, b1);
      TriMonotone(a1 + 1, a2);
      assert false;
    } else if a2 < a1 {
      RowBlock(a2, b2);
      TriMonotone(a2 + 1, a1);
      assert false;
    }
  }

  /** Unpack recovers the canonical cell from its offset. */
  lemma UnpackPackedOffset(a: nat, b: nat)
    requires b <= a
    ensures Unpack(PackedOffset(a, b)) == (a, b)
  {
    var p := Unpack(PackedOffset(a, b));
    PackedOffsetInjective(p.0, p.1, a, b);
  }

  /** Unpack is injective: every offset names its own cell. */
  lemma UnpackInjective(i: nat, j: nat)
    requires Unpack(i) == Unpack(j)
    ensures i == j
  {
  }

  /**
   The offset computed by LinearIndex is below Tri(n) exactly when both
   coordinates are below n: this is the bounds assertion of index_of.
   */
  lemma {:induction false} InBoundsIff(row: nat, column: nat, n: nat)
    ensures LinearIndex(row, column) < Tri(n) <==> Max(row, column) < n
  {
    var a := Max(row, column);
    if a < n {
      TriMonotone(a + 1, n);
    } else {
      TriMonotone(n, a);
    }
  }

  /** An offset below Tri(n) unpacks to a cell inside the n-element triangle, and only those do. */
  lemma UnpackInRange(i: nat, n: nat)
    ensures i < Tri(n) <==> Unpack(i).0 < n
  {
    var p := Unpack(i);
    InBoundsIff(p.0, p.1, n);
  }

  /** Every canonical pair's offset is below Tri(n) and unpacks back to that pair. */
  lemma PackedOffsetsInRange(n: nat)
    ensures forall a: nat, b: nat | b <= a < n ::
              PackedOffset(a, b) < Tri(n) && Unpack(PackedOffset(a, b)) == (a, b)
  {
    forall a: nat, b: nat | b <= a < n
      ensures PackedOffset(a, b) < Tri(n) && Unpack(PackedOffset(a, b)) == (a, b)
    {
      InBoundsIff(a, b, n);
      UnpackPackedOffset(a, b);
    }
  }

  /**
   The packed layout: the offsets 0 .. Tri(n)-1 unpack to exactly the
   canonical pairs of n elements, with no gap and no cell left over.
   */
  lemma PackedLayout(n: nat)
    ensures UnpackedCells(n) == CanonicalPairs(n)
  {
    var image := UnpackedCells(n);
    forall p | p in image ensures p in CanonicalPairs(n) {
      var i: nat :| i < Tri(n) && Unpack(i) == p;
      UnpackInRange(i, n);
      CanonicalPairsMember(p, n);
    }
    PackedOffsetsInRange(n);
    forall p | p in CanonicalPairs(n) ensures p in image {
      CanonicalPairsMember(p, n);
      var i := PackedOffset(p.0, p.1);
      assert i < Tri(n) && Unpack(i) == p;
    }
    assert image == CanonicalPairs(n);
  }
}
