/*
 * A compressed sparse row (CSR) matrix as SciPy stores it: a row-pointer
 * array `indptr` of length rows + 1, and the parallel arrays `indices`
 * (column of each stored entry) and `data` (its value).  Row r owns the
 * stored entries indptr[r] .. indptr[r + 1] - 1.  Explicitly stored zeros
 * are ordinary stored entries.
 */
module Csr {
  import opened ArrayOps

  /** SciPy's default index dtype. */
  newtype Int32 = v: int | -0x8000_0000 <= v < 0x8000_0000

  datatype CsrMatrix = CsrMatrix(
    rows: nat,
    cols: nat,
    indptr: seq<nat>,
    indices: seq<Int32>,
    data: seq<real>)

  /** The CSR invariant. */
  predicate Valid(m: CsrMatrix)
  {
    && |m.indptr| == m.rows + 1
    && m.indptr[0] == 0
    && (forall r :: 0 <= r < m.rows ==> m.indptr[r] <= m.indptr[r + 1])
    && m.indptr[m.rows] == |m.indices| == |m.data|
    && (forall k :: 0 <= k < |m.indices| ==> 0 <= m.indices[k] as int < m.cols)
  }

  /** Number of stored entries (explicit zeros included). */
  function Nnz(m: CsrMatrix): nat
  {
    |m.data|
  }

  /** The row pointer is monotone across any span of rows, not just
      between neighbours; in particular every row pointer is at most nnz. */
  lemma {:induction false} IndptrMonotone(m: CsrMatrix, r: nat, s: nat)
    requires Valid(m) && r <= s <= m.rows
    ensures m.indptr[r] <= m.indptr[s] <= |m.indices|
    decreases m.rows - r
  {
    if r < m.rows {
      IndptrMonotone(m, r + 1, m.rows);
      if r < s {
        IndptrMonotone(m, r + 1, s);
      }
    }
  }

  /** Number of stored entries in row r. */
  function RowNnz(m: CsrMatrix, r: nat): nat
    requires Valid(m) && r < m.rows
  {
    m.indptr[r + 1] - m.indptr[r]
  }

  /** indices[indptr[r]:indptr[r + 1]]: the stored columns of row r, in
      stored order, each a valid column of the matrix. */
  function RowIndices(m: CsrMatrix, r: nat): (ind: seq<Int32>)
    requires Valid(m) && r < m.rows
    ensures |ind| == RowNnz(m, r)
    ensures forall j :: 0 <= j < |ind| ==>
              m.indptr[r] + j < |m.indices| && ind[j] == m.indices[m.indptr[r] + j]
    ensures forall j :: 0 <= j < |ind| ==> 0 <= ind[j] as int < m.cols
  {
    IndptrMonotone(m, r + 1, m.rows);
    m.indices[m.indptr[r]..m.indptr[r + 1]]
  }

  /** data[indptr[r]:indptr[r + 1]]: the stored values of row r, in stored
      order, aligned with RowIndices(m, r). */
  function RowData(m: CsrMatrix, r: nat): (vals: seq<real>)
    requires Valid(m) && r < m.rows
    ensures |vals| == RowNnz(m, r) == |RowIndices(m, r)|
    ensures forall j :: 0 <= j < |vals| ==>
              m.indptr[r] + j < |m.data| && vals[j] == m.data[m.indptr[r] + j]
  {
    IndptrMonotone(m, r + 1, m.rows);
    m.data[m.indptr[r]..m.indptr[r + 1]]
  }

  /** Stored-entry count of every row, in row order. */
  function RowLengths(m: CsrMatrix): seq<nat>
    requires Valid(m)
  {
    seq(m.rows, r requires 0 <= r < m.rows => RowNnz(m, r))
  }

  /** Every row's column slice, in row order. */
  function AllRowIndices(m: CsrMatrix): seq<seq<Int32>>
    requires Valid(m)
  {
    seq(m.rows, r requires 0 <= r < m.rows => RowIndices(m, r))
  }

  /** Every row's value slice, in row order. */
  function AllRowData(m: CsrMatrix): seq<seq<real>>
    requires Valid(m)
  {
    seq(m.rows, r requires 0 <= r < m.rows => RowData(m, r))
  }

  /** The row pointer is the running sum of the row lengths. */
  lemma {:induction false} IndptrIsRunningSum(m: CsrMatrix, n: nat)
    requires Valid(m) && n <= m.rows
    ensures Start(RowLengths(m), n) == m.indptr[n]
  {
    if n > 0 {
      IndptrIsRunningSum(m, n - 1);
      assert RowLengths(m)[..n][..n - 1] == RowLengths(m)[..n - 1];
    }
  }

  lemma {:induction false} RowsReassemblePrefix(m: CsrMatrix, n: nat)
    requires Valid(m) && n <= m.rows
    ensures m.indptr[n] <= |m.indices|
    ensures Concat(AllRowIndices(m)[..n]) == m.indices[..m.indptr[n]]
    ensures Concat(AllRowData(m)[..n]) == m.data[..m.indptr[n]]
  {
    IndptrMonotone(m, n, m.rows);
    if n > 0 {
      RowsReassemblePrefix(m, n - 1);
      assert AllRowIndices(m)[..n][..n - 1] == AllRowIndices(m)[..n - 1];
      assert AllRowData(m)[..n][..n - 1] == AllRowData(m)[..n - 1];
      assert m.indices[..m.indptr[n]]
          == m.indices[..m.indptr[n - 1]] + m.indices[m.indptr[n - 1]..m.indptr[n]];
      assert m.data[..m.indptr[n]]
          == m.data[..m.indptr[n - 1]] + m.data[m.indptr[n - 1]..m.indptr[n]];
    }
  }

  /** Joining the row slices of all rows, in order, gives back the stored
      arrays: row extraction loses, duplicates and reorders nothing. */
  lemma RowsReassemble(m: CsrMatrix)
    requires Valid(m)
    ensures Concat(AllRowIndices(m)) == m.indices
    ensures Concat(AllRowData(m)) == m.data
  {
    RowsReassemblePrefix(m, m.rows);
    assert AllRowIndices(m)[..m.rows] == AllRowIndices(m);
    assert AllRowData(m)[..m.rows] == AllRowData(m);
  }

  /** Repeating each row number once per stored entry of that row gives
      one id per stored entry. */
  lemma RowIdsLength(m: CsrMatrix)
    requires Valid(m)
    ensures |Repeat(RowLengths(m))| == |m.indices|
  {
    var c := RowLengths(m);
    RepeatLength(c);
    IndptrIsRunningSum(m, m.rows);
    assert c[..m.rows] == c;
  }

  lemma RowIdOfEntry(m: CsrMatrix, k: nat)
    requires Valid(m) && k < |m.indices|
    ensures k < |Repeat(RowLengths(m))| && Repeat(RowLengths(m))[k] < m.rows
    ensures m.indptr[Repeat(RowLengths(m))[k]] <= k < m.indptr[Repeat(RowLengths(m))[k] + 1]
  {
    var c := RowLengths(m);
    RowIdsLength(m);
    RepeatCovers(c, k);
    IndptrIsRunningSum(m, Repeat(c)[k]);
  }

  /** The id of every stored entry k is the row whose pointer range holds k. */
  lemma RowIdsOfEntries(m: CsrMatrix)
    requires Valid(m)
    ensures |Repeat(RowLengths(m))| == |m.indices|
    ensures forall k :: 0 <= k < |Repeat(RowLengths(m))| ==>
              && Repeat(RowLengths(m))[k] < m.rows
              && m.indptr[Repeat(RowLengths(m))[k]] <= k < m.indptr[Repeat(RowLengths(m))[k] + 1]
  {
    RowIdsLength(m);
    forall k | 0 <= k < |Repeat(RowLengths(m))|
      ensures Repeat(RowLengths(m))[k] < m.rows
      ensures m.indptr[Repeat(RowLengths(m))[k]] <= k < m.indptr[Repeat(RowLengths(m))[k] + 1]
    {
      RowIdOfEntry(m, k);
    }
  }
}
