/** The cursor walks the grid in month-major, category-minor order. This
    module numbers the cells in that order and defines, independently of how
    the session steps its cursor, which cell comes after and before another. */
module Cursor {

  /** The position of cell (i, j) when the cells are numbered month by month,
      each month holding nCats categories. */
  function CellIndex(i: nat, j: nat, nCats: nat): nat {
    i * nCats + j
  }

  /** The cell at position k in that numbering. */
  function CellAt(k: nat, nCats: nat): (nat, nat)
    requires nCats > 0
  {
    (k / nCats, k % nCats)
  }

  /** Multiplying by a natural number keeps the order of the factors. */
  lemma {:induction false} MulLe(a: nat, b: nat, n: nat)
    ensures a <= b ==> a * n <= b * n
    decreases if a <= b then b - a else 0
  {
    if a < b {
      MulLe(a + 1, b, n);
      assert (a + 1) * n == a * n + n;
    }
  }

  /** A strictly smaller factor leaves a gap of at least n. */
  lemma MulLt(a: nat, b: nat, n: nat)
    ensures a < b ==> a * n + n <= b * n
  {
    MulLe(a + 1, b, n);
    assert (a + 1) * n == a * n + n;
  }

  /** Numbering the cell found at a position gives back that position. */
  lemma IndexOfCellAt(k: nat, nCats: nat)
    requires nCats > 0
    ensures CellAt(k, nCats).1 < nCats
    ensures CellIndex(CellAt(k, nCats).0, CellAt(k, nCats).1, nCats) == k
  {
  }

  /** Finding the cell at a cell's position gives back that cell. */
  lemma CellAtIndex(i: nat, j: nat, nCats: nat)
    requires j < nCats
    ensures CellAt(CellIndex(i, j, nCats), nCats) == (i, j)
  {
    var k := CellIndex(i, j, nCats);
    var q := k / nCats;
    assert k == q * nCats + k % nCats;
    MulLt(q, i, nCats);
    MulLt(i, q, nCats);
  }

  /** The numbering is one-to-one on a grid with nCats categories and
      follows the month-major, category-minor order. */
  lemma CellIndexOrder(i: nat, j: nat, i': nat, j': nat, nCats: nat)
    requires j < nCats && j' < nCats
    ensures CellIndex(i, j, nCats) < CellIndex(i', j', nCats) <==> i < i' || (i == i' && j < j')
    ensures CellIndex(i, j, nCats) == CellIndex(i', j', nCats) <==> i == i' && j == j'
  {
    MulLt(i, i', nCats);
    MulLt(i', i, nCats);
  }

  /** Every cell of an nMonths × nCats grid has a position below nMonths * nCats,
      and only the last cell has the last position. */
  lemma CellIndexBound(i: nat, j: nat, nMonths: nat, nCats: nat)
    requires i < nMonths && j < nCats
    ensures CellIndex(i, j, nCats) < nMonths * nCats
    ensures CellIndex(i, j, nCats) == nMonths * nCats - 1 <==> i == nMonths - 1 && j == nCats - 1
  {
    assert nMonths * nCats == (nMonths - 1) * nCats + nCats;
    MulLt(i, nMonths - 1, nCats);
    MulLe(i, nMonths - 1, nCats);
  }

  /** Every position below nMonths * nCats is the position of a cell of the grid. */
  lemma CellAtBound(k: nat, nMonths: nat, nCats: nat)
    requires nCats > 0 && k < nMonths * nCats
    ensures CellAt(k, nCats).0 < nMonths && CellAt(k, nCats).1 < nCats
  {
    var q := k / nCats;
    assert k == q * nCats + k % nCats;
    MulLe(nMonths, q, nCats);
  }

  /** The cell after (i, j): the next position, or (i, j) itself at the last cell. */
  function Successor(i: nat, j: nat, nMonths: nat, nCats: nat): (r: (nat, nat))
    requires i < nMonths && j < nCats
    ensures r.0 < nMonths && r.1 < nCats
    ensures i == nMonths - 1 && j == nCats - 1 ==> r == (i, j)
    ensures !(i == nMonths - 1 && j == nCats - 1) ==>
              CellIndex(r.0, r.1, nCats) == CellIndex(i, j, nCats) + 1
  {
    if i == nMonths - 1 && j == nCats - 1 then (i, j)
    else
      var k := CellIndex(i, j, nCats) + 1;
      CellIndexBound(i, j, nMonths, nCats);
      CellAtBound(k, nMonths, nCats);
      IndexOfCellAt(k, nCats);
      CellAt(k, nCats)
  }

  /** The cell before (i, j): the previous position, or (0, 0) itself at the first cell. */
  function Predecessor(i: nat, j: nat, nMonths: nat, nCats: nat): (r: (nat, nat))
    requires i < nMonths && j < nCats
    ensures r.0 < nMonths && r.1 < nCats
    ensures i == 0 && j == 0 ==> r == (i, j)
    ensures !(i == 0 && j == 0) ==>
              CellIndex(r.0, r.1, nCats) + 1 == CellIndex(i, j, nCats)
  {
    if i == 0 && j == 0 then (i, j)
    else
      var k := CellIndex(i, j, nCats) - 1;
      CellIndexBound(i, j, nMonths, nCats);
      CellAtBound(k, nMonths, nCats);
      IndexOfCellAt(k, nCats);
      CellAt(k, nCats)
  }

  /** Stepping back from the successor returns to the starting cell, except at the last cell. */
  lemma PredecessorOfSuccessor(i: nat, j: nat, nMonths: nat, nCats: nat)
    requires i < nMonths && j < nCats
    requires !(i == nMonths - 1 && j == nCats - 1)
    ensures Successor(i, j, nMonths, nCats).0 < nMonths
    ensures Predecessor(Successor(i, j, nMonths, nCats).0, Successor(i, j, nMonths, nCats).1, nMonths, nCats) == (i, j)
  {
    var s := Successor(i, j, nMonths, nCats);
    var b := Predecessor(s.0, s.1, nMonths, nCats);
    CellIndexOrder(b.0, b.1, i, j, nCats);
  }

  /** Stepping forward from the predecessor returns to the starting cell, except at (0, 0). */
  lemma SuccessorOfPredecessor(i: nat, j: nat, nMonths: nat, nCats: nat)
    requires i < nMonths && j < nCats
    requires !(i == 0 && j == 0)
    ensures Successor(Predecessor(i, j, nMonths, nCats).0, Predecessor(i, j, nMonths, nCats).1, nMonths, nCats) == (i, j)
  {
    var b := Predecessor(i, j, nMonths, nCats);
    var s := Successor(b.0, b.1, nMonths, nCats);
    CellIndexBound(i, j, nMonths, nCats);
    CellIndexBound(b.0, b.1, nMonths, nCats);
    CellIndexOrder(s.0, s.1, i, j, nCats);
  }
}
