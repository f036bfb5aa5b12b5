/**
 The half matrix: a symmetric boolean relation over `size` elements that
 stores only the lower triangle (row >= column, diagonal included), packed
 row after row into a bit set of Tri(size) cells (see module Packing).

 The two fatal conditions of the original (a size over the capacity ceiling
 at construction, and the bounds assertion when a coordinate is out of
 range) are results here: `Err`/`Fail` carry the panic that would abort the
 program, so that "fails exactly when" can be stated and proved.
 */
module Matrix {
  import opened Packing

  /** The unsigned 32-bit integers used for sizes, coordinates and offsets. */
  type U32 = x: int | 0 <= x < 0x1_0000_0000

  /** The largest size whose cell count stays below the 2^24 cells the bit set can address. */
  const MaxSize: nat := 5792

  /** The address limit of the underlying bit set: 2^24 cells. */
  const BitSetCapacity: nat := 0x100_0000

  /** The fatal conditions of the original, which panic. */
  datatype Panic =
    | SizeTooBig(requested: U32)        // construction with size > MaxSize
    | IndexOutOfBounds                  // the failed assertion idx < index_size

  datatype Result<T> = Ok(value: T) | Err(panic: Panic)

  datatype Outcome = Pass | Fail(panic: Panic)

  /** Tri(s) stays below the bit set's 2^24 addressable cells exactly when s <= MaxSize. */
  lemma CapacityCeiling(s: nat)
    ensures Tri(s) < BitSetCapacity <==> s <= MaxSize
  {
    if s <= MaxSize {
      TriMonotone(s, MaxSize);
    } else {
      TriMonotone(MaxSize + 1, s);
    }
  }

  /**
   The size check and cell count of construction: sizes over MaxSize are
   refused, any other size gets Tri(size) cells, computed in 32 bits without
   overflow and below the bit set's 2^24 limit.
   */
  function CheckedIndexSize(size: U32): (r: Result<U32>)
    ensures r.Ok? <==> size <= MaxSize
    ensures r.Err? ==> r.panic == SizeTooBig(size)
    ensures r.Ok? ==> r.value == Tri(size) && r.value < BitSetCapacity
  {
    if size > MaxSize then Err(SizeTooBig(size))
    else
      CapacityCeiling(size);
      assert size * (size + 1) < 0x1_0000_0000 by {
        assert Tri(size) == size * (size + 1) / 2 < BitSetCapacity;
      }
      Ok((size * (size + 1)) / 2)
  }

  class HalfMatrix {
    /** Number of elements along one side; coordinates run over 0 .. size-1. */
    const size: U32
    /** Number of stored cells, Tri(size). */
    const indexSize: U32
    /** The bit set: the offsets whose cell is enabled. */
    var bits: set<nat>

    /** The two counts agree and respect the capacity ceiling. */
    predicate WellSized() {
      size <= MaxSize && indexSize == Tri(size)
    }

    ghost predicate Valid()
      reads this
    {
      WellSized() && forall i | i in bits :: i < indexSize
    }

    /**
     The relation the matrix holds, as its set of canonical pairs: each
     enabled offset names the cell Unpack maps it to.
     */
    ghost function Relation(): (rel: set<(nat, nat)>)
      reads this
      requires Valid()
      ensures rel <= CanonicalPairs(size)
    {
      var rel := set i | i in bits :: Unpack(i);
      forall p | p in rel ensures p in CanonicalPairs(size) {
        var i :| i in bits && Unpack(i) == p;
        UnpackInRange(i, size);
        CanonicalPairsMember(p, size);
      }
      rel
    }

    /** The struct literal of construction, reached only after the size check. */
    constructor Init(size: U32, indexSize: U32)
      requires size <= MaxSize && indexSize == Tri(size)
      ensures Valid()
      ensures this.size == size && this.indexSize == indexSize
      ensures bits == {} && Relation() == {}
    {
      this.size := size;
      this.indexSize := indexSize;
      bits := {};
    }

    /** Construction: refuses sizes over MaxSize, otherwise an empty relation of that size. */
    static method New(size: U32) returns (r: Result<HalfMatrix>)
      ensures r.Ok? <==> size <= MaxSize
      ensures r.Err? ==> r.panic == SizeTooBig(size)
      ensures r.Ok? ==> fresh(r.value) && r.value.Valid()
      ensures r.Ok? ==> r.value.size == size && r.value.indexSize == Tri(size)
      ensures r.Ok? ==> r.value.Relation() == {}
    {
      var checked := CheckedIndexSize(size);
      if checked.Err? {
        return Err(checked.panic);
      }
      var m := new HalfMatrix.Init(size, checked.value);
      return Ok(m);
    }

    /** The size of one side, which fixes the cell count. */
    function Size(): (s: U32)
      requires WellSized()
      ensures s <= MaxSize && Tri(s) == indexSize
    {
      size
    }

    /**
     The offset of cell (row, column), coordinates in either order. It fails
     exactly when a coordinate is out of range; otherwise it is a stored
     offset and names the canonical form of the pair.
     */
    function IndexOf(row: U32, column: U32): (r: Result<U32>)
      requires WellSized()
      ensures r.Ok? <==> Max(row, column) < size
      ensures r.Err? ==> r.panic == IndexOutOfBounds
      ensures r.Ok? ==> r.value == LinearIndex(row, column) < indexSize
      ensures r.Ok? ==> Unpack(r.value) == Canon(row, column)
    {
      var idx := LinearIndex(row, column);
      InBoundsIff(row, column, size);
      var (a, b) := Canon(row, column);
      UnpackPackedOffset(a, b);
      if idx < indexSize then Ok(idx) else Err(IndexOutOfBounds)
    }

    /** Whether (row, column) is in the relation; fails as IndexOf does. */
    function Contains(row: U32, column: U32): (r: Result<bool>)
      reads this
      requires Valid()
      ensures r.Ok? <==> Max(row, column) < size
      ensures r.Err? ==> r.panic == IndexOutOfBounds
      ensures r.Ok? ==> (r.value <==> Canon(row, column) in Relation())
    {
      match IndexOf(row, column)
      case Err(e) => Err(e)
      case Ok(idx) =>
        assert idx in bits ==> Unpack(idx) in Relation();
        assert Unpack(idx) in Relation() ==> idx in bits by {
          if Unpack(idx) in Relation() {
            var j :| j in bits && Unpack(j) == Unpack(idx);
            UnpackInjective(j, idx);
          }
        }
        Ok(idx in bits)
    }

    /** Adds the pair (row, column) to the relation and changes no other cell. */
    method Enable(row: U32, column: U32) returns (r: Outcome)
      requires Valid()
      modifies this
      ensures Valid()
      ensures r.Pass? <==> Max(row, column) < size
      ensures r.Fail? ==> r.panic == IndexOutOfBounds
      ensures r.Fail? ==> bits == old(bits)
      ensures r.Pass? ==> bits == old(bits) + {IndexOf(row, column).value}
      ensures Relation() == if r.Pass? then old(Relation()) + {Canon(row, column)} else old(Relation())
    {
      var idx := IndexOf(row, column);
      if idx.Err? {
        return Fail(idx.panic);
      }
      bits := bits + {idx.value};
      r := Pass;
    }

    /** Removes the pair (row, column) from the relation and changes no other cell. */
    method Disable(row: U32, column: U32) returns (r: Outcome)
      requires Valid()
      modifies this
      ensures Valid()
      ensures r.Pass? <==> Max(row, column) < size
      ensures r.Fail? ==> r.panic == IndexOutOfBounds
      ensures r.Fail? ==> bits == old(bits)
      ensures r.Pass? ==> bits == old(bits) - {IndexOf(row, column).value}
      ensures Relation() == if r.Pass? then old(Relation()) - {Canon(row, column)} else old(Relation())
    {
      var idx := IndexOf(row, column);
      if idx.Err? {
        return Fail(idx.panic);
      }
      ghost var before := bits;
      bits := bits - {idx.value};
      r := Pass;
      forall j | j in before && Unpack(j) == Unpack(idx.value) ensures j == idx.value {
        UnpackInjective(j, idx.value);
      }
    }
  }

  /** The swap makes the offset independent of the order of the coordinates. */
  lemma IndexOfSymmetric(m: HalfMatrix, row: U32, column: U32)
    requires m.WellSized()
    ensures m.IndexOf(row, column) == m.IndexOf(column, row)
  {
  }

  /**
   On in-range canonical pairs IndexOf is a bijection onto 0 .. indexSize-1:
   distinct pairs get distinct offsets, and every offset is some pair's.
   */
  lemma IndexOfBijective(m: HalfMatrix)
    requires m.WellSized()
    ensures forall a: U32, b: U32, c: U32, d: U32 |
              b <= a < m.size && d <= c < m.size && m.IndexOf(a, b) == m.IndexOf(c, d) ::
              a == c && b == d
    ensures forall i: nat | i < m.indexSize ::
              Unpack(i).0 < m.size && m.IndexOf(Unpack(i).0, Unpack(i).1) == Ok(i)
  {
    forall i: nat | i < m.indexSize
      ensures Unpack(i).0 < m.size && m.IndexOf(Unpack(i).0, Unpack(i).1) == Ok(i)
    {
      var p := Unpack(i);
      UnpackInRange(i, m.size);
      UnpackInjective(m.IndexOf(p.0, p.1).value, i);
    }
  }
}
