/**
 The literal unit scenarios of the half matrix, and the enable/disable round
 trip on any matrix, each proved from the contracts of module Matrix.
 */
module Scenarios {
  import opened Packing
  import opened Matrix

  /** Size 4: cell (2,2) is at offset 5. */
  method IndexCalculation() returns (at22: Result<U32>)
    ensures at22 == Ok(5)
  {
    var created := HalfMatrix.New(4);
    var m := created.value;
    assert m.indexSize == 10;
    assert LinearIndex(2, 2) == 5;
    at22 := m.IndexOf(2, 2);
    assert at22.Ok?;
  }

  /** Size 4: cell (3,2) is at offset 8. */
  method IndexCalculation2() returns (at32: Result<U32>)
    ensures at32 == Ok(8)
  {
    var created := HalfMatrix.New(4);
    var m := created.value;
    assert m.indexSize == 10;
    assert LinearIndex(3, 2) == 8;
    at32 := m.IndexOf(3, 2);
    assert at32.Ok?;
  }

  /** Size 1: (0,1) is out of range, so the bounds assertion fails. */
  method IndexOfFail() returns (at01: Result<U32>)
    ensures at01 == Err(IndexOutOfBounds)
  {
    var created := HalfMatrix.New(1);
    var m := created.value;
    at01 := m.IndexOf(0, 1);
  }

  /** The capacity ceiling: 5792 is accepted and 5793 refused. */
  method MaxSizeBoundary() returns (largest: bool, tooBig: Result<HalfMatrix>)
    ensures largest && tooBig == Err(SizeTooBig(5793))
  {
    var created := HalfMatrix.New(5792);
    largest := created.Ok?;
    tooBig := HalfMatrix.New(5793);
  }

  /**
   Size 3: after enabling (2,0), (2,2) and (0,0) exactly those three cells
   read true and (1,0), (1,1), (2,1) read false.
   */
  method EnableScenario() returns (answers: seq<Result<bool>>)
    ensures answers == [Ok(true), Ok(true), Ok(true), Ok(false), Ok(false), Ok(false)]
  {
    var created := HalfMatrix.New(3);
    var m := created.value;
    assert m.indexSize == 6;
    assert m.Relation() == {};
    var _ := m.Enable(2, 0);
    assert m.Relation() == {(2, 0)};
    var _ := m.Enable(2, 2);
    assert m.Relation() == {(2, 0), (2, 2)};
    var _ := m.Enable(0, 0);
    ghost var rel: set<(nat, nat)> := {(2, 0), (2, 2), (0, 0)};
    assert m.Relation() == rel;
    var c20, c22, c00 := m.Contains(2, 0), m.Contains(2, 2), m.Contains(0, 0);
    var c10, c11, c21 := m.Contains(1, 0), m.Contains(1, 1), m.Contains(2, 1);
    assert c20 == Ok(true) && c22 == Ok(true) && c00 == Ok(true);
    OtherCellsClear(rel);
    assert c10 == Ok(false) && c11 == Ok(false) && c21 == Ok(false);
    answers := [c20, c22, c00, c10, c11, c21];
  }

  lemma OtherCellsClear(rel: set<(nat, nat)>)
    requires rel == {(2, 0), (2, 2), (0, 0)}
    ensures (1, 0) !in rel && (1, 1) !in rel && (2, 1) !in rel
  {
  }

  /** Size 3: (0,1) is swapped to (1,0), which is in range. */
  method OutOfRangeSwap() returns (at01: Result<bool>)
    ensures at01 == Ok(false)
  {
    var created := HalfMatrix.New(3);
    var m := created.value;
    assert m.indexSize == 6;
    at01 := m.Contains(0, 1);
  }

  /**
   On any matrix and in-range pair: after Enable the pair reads true in both
   orders, after Disable false in both orders, and the other cells are as
   they were before.
   */
  method EnableDisableRoundTrip(m: HalfMatrix, row: U32, column: U32)
    returns (enabled: bool, enabledSwapped: bool, disabled: bool, disabledSwapped: bool)
    requires m.Valid() && Max(row, column) < m.size
    modifies m
    ensures enabled && enabledSwapped && !disabled && !disabledSwapped
    ensures m.Valid() && m.Relation() == old(m.Relation()) - {Canon(row, column)}
  {
    var _ := m.Enable(row, column);
    enabled := m.Contains(row, column).value;
    enabledSwapped := m.Contains(column, row).value;
    var _ := m.Disable(row, column);
    disabled := m.Contains(row, column).value;
    disabledSwapped := m.Contains(column, row).value;
  }
}
