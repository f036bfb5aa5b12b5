# half-matrix, modelled in Dafny

`HalfMatrix` stores a symmetric boolean relation over `size` elements (for
instance "do objects i and j collide"). Only the lower triangle of the
conceptual `size × size` matrix is kept: the cells with row ≥ column, the
diagonal included. They are packed row after row into a bit set of
`size*(size+1)/2` cells, so cell `(a, b)` with `a ≥ b` lives at offset
`a*(a+1)/2 + b`. Callers may give the coordinates in either order:
`index_of` swaps them so that the larger one is the row.

The model has three modules:

- `Packing` (`packing.dfy`) holds the pure addressing. `Tri(n)` is the
  triangular number, `Canon` is the coordinate swap, and `LinearIndex` is
  the offset computed by `index_of`. `Unpack` is the inverse of the
  offset: it walks the layout `-|--|---|----` cell by cell. The lemmas
  prove that the offset is a bijection from the canonical pairs of `n`
  elements onto `0 .. Tri(n)-1`. They also prove that the offset is below
  `Tri(n)` exactly when both coordinates are below `n`, which is the
  bounds assertion.
- `Matrix` (`half_matrix.dfy`) holds the class `HalfMatrix`. `size` and
  `indexSize` are `const` fields, so `enable`/`disable` cannot change
  them. The hibitset `BitSet` is the mutable field `bits: set<nat>`, the
  set of enabled offsets. `Relation()` is the abstract value: the set of
  canonical pairs the matrix holds. `Enable` and `Disable` are methods
  that change `bits`. Their contracts give the new relation in terms of
  the old one: add, or remove, exactly the canonical form of the pair,
  with no other cell changed. `IndexOf`, `Contains` and `Size` are
  functions, because they only read.
- `Scenarios` (`scenarios.dfy`) restates the crate's unit tests as methods.
  Each one's `ensures` gives the literal results, and the
  enable/disable round trip is stated there for any matrix.

The two panics of the original are modelled as results. `new` with
`size > 5792` gives `Err(SizeTooBig(size))`. A failed `assert!(idx <
index_size)` gives `Err(IndexOutOfBounds)` from `IndexOf`/`Contains` and
`Fail(IndexOutOfBounds)` from `Enable`/`Disable`. The contracts state that
each happens exactly when the source panics.

Two places where the prose and the code disagree, and the model follows the
code:

- The comment in the test `index_calculation2` expects 9. The assertion
  beside it expects 8, which is what the formula gives, and
  `Scenarios.IndexCalculation2` proves 8.
- The test `out_of_range_swap` only checks that `contains(0, 1)` on a size-3
  matrix does not panic. The model also proves that it reads `false` on a
  fresh matrix.

## Model

| member | source | states |
|---|---|---|
| `Packing.Canon` | src/lib.rs:88-92 | the result is the same two coordinates with the larger one first, so it is the same for both orders |
| `Packing.LinearIndex` | src/lib.rs:94-95 | the offset of (row, column) lies in the block of row max(row, column): at least Tri(max) and below Tri(max + 1) |
| `Packing.Unpack` | src/lib.rs:10-13 | the inverse of the packed layout: the cell stored at offset i is canonical (column ≤ row) and its offset is i |
| `Packing.TriStep` | src/lib.rs:94 | row a+1 starts right after the a+1 cells of row a |
| `Packing.TriMonotone` | src/lib.rs:94 | row start offsets never decrease |
| `Packing.RowBlock` | src/lib.rs:94-95 | a canonical cell's offset stays inside its row's block |
| `Packing.PackedOffsetInjective` | src/lib.rs:94-95 | two canonical cells with the same offset are the same cell |
| `Packing.UnpackPackedOffset` | src/lib.rs:94-95 | unpacking a canonical cell's offset gives back that cell |
| `Packing.UnpackInjective` | src/lib.rs:10-13 | distinct offsets name distinct cells |
| `Packing.InBoundsIff` | src/lib.rs:97 | the offset is below Tri(n) if and only if both coordinates are below n |
| `Packing.UnpackInRange` | src/lib.rs:97 | an offset is below Tri(n) if and only if its cell's row is below n |
| `Packing.PackedOffsetsInRange` | src/lib.rs:94-97 | every canonical pair of n elements has an offset below Tri(n) that unpacks back to it |
| `Packing.PackedLayout` | src/lib.rs:1-13 | the offsets 0 .. Tri(n)-1 unpack to exactly the canonical pairs of n elements, with no gap and nothing left over |
| `Matrix.CapacityCeiling` | src/lib.rs:52-55 | Tri(s) is below 2^24 if and only if s ≤ 5792, so 5792 is the largest size the bit set can address |
| `Matrix.CheckedIndexSize` | src/lib.rs:52-55 | it fails, with the requested size, exactly when size > 5792; otherwise the cell count is Tri(size), computed in 32 bits without overflow, and it is below 2^24 |
| `Matrix.HalfMatrix.Relation` | src/lib.rs:44 | the relation held by the bit set contains only canonical pairs of in-range elements |
| `Matrix.HalfMatrix.Init` | src/lib.rs:56-60 | a fresh matrix has the given size, Tri(size) cells, and an empty relation |
| `Matrix.HalfMatrix.New` | src/lib.rs:51-61 | it fails exactly when size > 5792; otherwise it gives a fresh valid matrix of that size with Tri(size) cells, all clear |
| `Matrix.HalfMatrix.Size` | src/lib.rs:64-66 | the size is at most 5792 and fixes the cell count, Tri(size) == indexSize |
| `Matrix.HalfMatrix.IndexOf` | src/lib.rs:86-100 | it fails exactly when max(row, column) ≥ size; otherwise the offset is LinearIndex(row, column), lies below indexSize, and unpacks to the canonical form of the pair |
| `Matrix.HalfMatrix.Contains` | src/lib.rs:79-81 | it fails exactly when a coordinate is out of range; otherwise it is true if and only if the canonical pair is in the relation |
| `Matrix.HalfMatrix.Enable` | src/lib.rs:69-71 | it fails with nothing changed exactly when out of range; otherwise the relation becomes the old one plus the canonical pair, and nothing else changes |
| `Matrix.HalfMatrix.Disable` | src/lib.rs:74-76 | it fails with nothing changed exactly when out of range; otherwise the relation becomes the old one minus the canonical pair, and nothing else changes |
| `Matrix.IndexOfSymmetric` | src/lib.rs:88-92 | index_of(row, column) == index_of(column, row), in result and in failure |
| `Matrix.IndexOfBijective` | src/lib.rs:94-97 | on in-range canonical pairs, index_of is injective, and every offset below indexSize is the index of some such pair |
| `Scenarios.IndexCalculation` | src/lib.rs:108-114 | on size 4, index_of(2, 2) == 5 |
| `Scenarios.IndexCalculation2` | src/lib.rs:127-133 | on size 4, index_of(3, 2) == 8 |
| `Scenarios.IndexOfFail` | src/lib.rs:116-124 | on size 1, index_of(0, 1) fails the bounds assertion |
| `Scenarios.MaxSizeBoundary` | src/lib.rs:135-146 | new(5792) succeeds and new(5793) fails with the requested size |
| `Scenarios.EnableScenario` | src/lib.rs:148-170 | on size 3, after enabling (2,0), (2,2) and (0,0), those three cells read true and (1,0), (1,1) and (2,1) read false |
| `Scenarios.OutOfRangeSwap` | src/lib.rs:172-176 | on size 3, contains(0, 1) does not fail, because of the swap, and reads false on a fresh matrix |
| `Scenarios.EnableDisableRoundTrip` | src/lib.rs:69-81 | on any matrix and in-range pair, after enable both orders read true, after disable both read false, and every other pair is unchanged |

## Left out

- Matrix.HalfMatrix.IndexOf: does not model the 32-bit wrap-around of `a * (a + 1)` in `index_of` for huge out-of-range coordinates; the arithmetic is unbounded. For in-range coordinates (below 5792) no intermediate value overflows, so nothing is lost there. Out of range, a debug build panics on the overflow itself, which agrees with the model's failure. A release build wraps instead. For example, `index_of(65536, 0)` on a size-256 matrix wraps to offset 32768, which is below the 32896 cells and names cell (255, 128). The model does not capture that aliasing.
- The internals of `hibitset::BitSet` are not modelled: its hierarchical word layout, `with_capacity`, and its own 2^24 limit. It is a foreign library, so it is a `set<nat>` of enabled offsets here. Only its 2^24 address limit appears, as the bound on `indexSize`.
- A panic aborts the program. Here it is an `Err`/`Fail` result that leaves the matrix unchanged. Nothing after a panic is modelled.
- The panic message text is not modelled. `SizeTooBig` carries the requested size, which is the only data in the message.
- The `Debug` and `Clone` derives are not modelled. They are plumbing with no behaviour to prove.
- Concurrency is not modelled. `&mut self` means a single owner, so there is none to capture.
