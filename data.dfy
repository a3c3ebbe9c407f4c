/*
 * sparsechem/data.py: the dataset that owns the feature matrix X and the
 * label matrix Y (both CSR), serves one row of each by index, and the
 * collate function that merges a list of such rows into one batch in
 * coordinate (row, column, value) form.
 */
module Data {
  import opened ArrayOps
  import opened Csr

  /** The int64 dtype that the label column indices are widened to. */
  newtype Int64 = v: int | -0x8000_0000_0000_0000 <= v < 0x8000_0000_0000_0000

  /** The ways the source fails. */
  datatype DataError =
    | ShapeMismatch(xRows: nat, yRows: nat)  // the row-count assertion in __init__
    | IndexOutOfRange(idx: nat, rows: nat)   // numpy IndexError reading indptr[idx] or indptr[idx + 1]
    | EmptyBatch                             // numpy ValueError: nothing to concatenate

  datatype Result<T> = Success(value: T) | Failure(error: DataError)

  /** The dict that __getitem__ returns: one row of X and one row of Y. */
  datatype Sample = Sample(xInd: seq<Int32>, xData: seq<real>, yInd: seq<Int32>, yData: seq<real>)

  /** The dict that sparse_collate returns, as plain sequences: the row and
      column halves of "x_ind" and "y_ind", the values, and the batch size. */
  datatype Batch = Batch(
    xRow: seq<nat>, xCol: seq<Int32>, xVal: seq<real>,
    yRow: seq<nat>, yCol: seq<Int64>, yVal: seq<real>,
    batchSize: nat)

  // -----------------------------------------------------------------------
  // Label rescale

  /** A label on {-1, +1} moved to {0, 1}; the map is invertible, so no two
      stored labels are merged by it. */
  function Rescale(v: real): (w: real)
    ensures 2.0 * w - 1.0 == v
    ensures v == -1.0 ==> w == 0.0
    ensures v == 1.0 ==> w == 1.0
  {
    (v + 1.0) / 2.0
  }

  /** `(data + 1) / 2.0` on the whole value buffer, entry by entry. */
  function RescaleValues(d: seq<real>): (r: seq<real>)
    ensures |r| == |d|
    ensures forall k :: 0 <= k < |d| ==> r[k] == Rescale(d[k])
  {
    seq(|d|, k requires 0 <= k < |d| => Rescale(d[k]))
  }

  /** The label matrix after the rescale: only the stored values change. */
  function RescaleLabels(m: CsrMatrix): CsrMatrix
  {
    m.(data := RescaleValues(m.data))
  }

  /** The rescale keeps the sparsity pattern: the result is a valid CSR
      matrix of the same shape, with the same row pointer and columns and
      the same number of stored entries (explicit zeros stay stored). */
  lemma RescaleKeepsStructure(m: CsrMatrix)
    requires Valid(m)
    ensures Valid(RescaleLabels(m))
    ensures RescaleLabels(m).rows == m.rows && RescaleLabels(m).cols == m.cols
    ensures RescaleLabels(m).indptr == m.indptr && RescaleLabels(m).indices == m.indices
    ensures Nnz(RescaleLabels(m)) == Nnz(m)
  {
  }

  /** On bipolar labels the rescale gives binary labels, and a stored 0
      after the rescale is exactly a stored -1 before it. */
  lemma RescaleBipolar(m: CsrMatrix)
    requires forall k :: 0 <= k < |m.data| ==> m.data[k] == -1.0 || m.data[k] == 1.0
    ensures forall k :: 0 <= k < |m.data| ==>
              var w := RescaleLabels(m).data[k];
              (w == 0.0 || w == 1.0) && (w == 0.0 <==> m.data[k] == -1.0)
  {
  }

  /** Reading a row of the rescaled labels gives the rescaled row: the
      rescale commutes with row extraction. */
  lemma RescaledRow(m: CsrMatrix, r: nat)
    requires Valid(m) && r < m.rows
    ensures Valid(RescaleLabels(m))
    ensures RowIndices(RescaleLabels(m), r) == RowIndices(m, r)
    ensures RowData(RescaleLabels(m), r) == RescaleValues(RowData(m, r))
  {
    var m' := RescaleLabels(m);
    RescaleKeepsStructure(m);
    assert RowIndices(m', r) == RowIndices(m, r);
    assert RowData(m', r) == RescaleValues(RowData(m, r));
  }

  // -----------------------------------------------------------------------
  // The dataset

  /** The four slices __getitem__ takes for row idx. */
  function ExtractRow(x: CsrMatrix, y: CsrMatrix, idx: nat): Sample
    requires Valid(x) && Valid(y) && idx < x.rows == y.rows
  {
    Sample(RowIndices(x, idx), RowData(x, idx), RowIndices(y, idx), RowData(y, idx))
  }

  /** The dataset is read-only once built, so its two matrices are
      constants of the object. */
  class SparseDataset {
    const x: CsrMatrix
    const y: CsrMatrix

    /** Both matrices are valid CSR and row-aligned. */
    ghost predicate Valid()
    {
      Csr.Valid(x) && Csr.Valid(y) && x.rows == y.rows
    }

    /** __init__ once the row counts agree: keep X, and keep Y with its
        value buffer replaced by the rescaled one. */
    constructor (x0: CsrMatrix, y0: CsrMatrix)
      requires Csr.Valid(x0) && Csr.Valid(y0) && x0.rows == y0.rows
      ensures Valid()
      ensures x == x0
      ensures y == RescaleLabels(y0)
    {
      x := x0;
      y := y0.(data := RescaleValues(y0.data));
    }

    /** __init__ with its row-count assertion: fails, naming both row
        counts, exactly when X and Y have different numbers of rows. */
    static method Create(x0: CsrMatrix, y0: CsrMatrix) returns (r: Result<SparseDataset>)
      requires Csr.Valid(x0) && Csr.Valid(y0)
      ensures r.Failure? <==> x0.rows != y0.rows
      ensures r.Failure? ==> r.error == ShapeMismatch(x0.rows, y0.rows)
      ensures r.Success? ==> fresh(r.value) && r.value.Valid()
      ensures r.Success? ==> r.value.x == x0 && r.value.y == RescaleLabels(y0)
    {
      if x0.rows != y0.rows {
        return Failure(ShapeMismatch(x0.rows, y0.rows));
      }
      var ds := new SparseDataset(x0, y0);
      r := Success(ds);
    }

    /** __len__: the number of samples, which is the row count of X and of Y. */
    function Len(): (n: nat)
      requires Valid()
      ensures n == x.rows && n == y.rows
    {
      x.rows
    }

    /** input_size: the feature count, which bounds every stored column of X. */
    function InputSize(): (n: nat)
      requires Valid()
      ensures n == x.cols
      ensures forall k :: 0 <= k < |x.indices| ==> x.indices[k] as int < n
    {
      x.cols
    }

    /** output_size: the task count, which bounds every stored column of Y. */
    function OutputSize(): (n: nat)
      requires Valid()
      ensures n == y.cols
      ensures forall k :: 0 <= k < |y.indices| ==> y.indices[k] as int < n
    {
      y.cols
    }

    /** __getitem__: the stored columns and values of row idx of X and of Y,
        as the CSR row slices; an index past the last row fails. */
    function GetItem(idx: nat): (r: Result<Sample>)
      requires Valid()
      ensures r.Failure? <==> idx >= Len()
      ensures r.Failure? ==> r.error == IndexOutOfRange(idx, Len())
      ensures r.Success? ==>
                && r.value.xInd == RowIndices(x, idx) && r.value.xData == RowData(x, idx)
                && r.value.yInd == RowIndices(y, idx) && r.value.yData == RowData(y, idx)
      ensures r.Success? ==>
                |r.value.xInd| == |r.value.xData| && |r.value.yInd| == |r.value.yData|
    {
      if idx >= x.rows then Failure(IndexOutOfRange(idx, x.rows))
      else Success(ExtractRow(x, y, idx))
    }
  }

  /** A dataset built from (x0, y0) serves, for every row, the unchanged
      feature row and the rescaled label row of the inputs. */
  lemma GetItemAfterConstruction(ds: SparseDataset, x0: CsrMatrix, y0: CsrMatrix, idx: nat)
    requires Csr.Valid(x0) && Csr.Valid(y0) && x0.rows == y0.rows && idx < x0.rows
    requires ds.Valid() && ds.x == x0 && ds.y == RescaleLabels(y0)
    ensures ds.GetItem(idx).Success?
    ensures ds.GetItem(idx).value.xInd == RowIndices(x0, idx)
    ensures ds.GetItem(idx).value.xData == RowData(x0, idx)
    ensures ds.GetItem(idx).value.yInd == RowIndices(y0, idx)
    ensures ds.GetItem(idx).value.yData == RescaleValues(RowData(y0, idx))
  {
    RescaledRow(y0, idx);
  }

  // -----------------------------------------------------------------------
  // sparse_collate

  /** [b["x_ind"] for b in batch] and its three siblings. */
  function XInds(batch: seq<Sample>): seq<seq<Int32>>
  {
    seq(|batch|, i requires 0 <= i < |batch| => batch[i].xInd)
  }

  function XDatas(batch: seq<Sample>): seq<seq<real>>
  {
    seq(|batch|, i requires 0 <= i < |batch| => batch[i].xData)
  }

  function YInds(batch: seq<Sample>): seq<seq<Int32>>
  {
    seq(|batch|, i requires 0 <= i < |batch| => batch[i].yInd)
  }

  function YDatas(batch: seq<Sample>): seq<seq<real>>
  {
    seq(|batch|, i requires 0 <= i < |batch| => batch[i].yData)
  }

  /** `.astype(np.int64)` on int32 column indices: every index keeps its value. */
  function Widen(s: seq<Int32>): (r: seq<Int64>)
    ensures |r| == |s|
    ensures forall k :: 0 <= k < |s| ==> r[k] as int == s[k] as int
  {
    seq(|s|, k requires 0 <= k < |s| => s[k] as int as Int64)
  }

  /** Every extract has as many values as column indices (true of all
      extracts that GetItem produces; sparse_collate does not check it). */
  predicate WellFormed(batch: seq<Sample>)
  {
    forall i :: 0 <= i < |batch| ==>
      |batch[i].xInd| == |batch[i].xData| && |batch[i].yInd| == |batch[i].yData|
  }

  /** sparse_collate.  An empty batch fails, as np.concatenate of an empty
      list does; otherwise the batch size is the number of extracts,
      however many entries they hold. */
  function Collate(batch: seq<Sample>): (r: Result<Batch>)
    ensures r.Failure? <==> |batch| == 0
    ensures r.Failure? ==> r.error == EmptyBatch
    ensures r.Success? ==> r.value.batchSize == |batch|
  {
    if |batch| == 0 then Failure(EmptyBatch)
    else
      Success(Batch(
        xRow := Repeat(Lengths(XInds(batch))),
        xCol := Concat(XInds(batch)),
        xVal := Concat(XDatas(batch)),
        yRow := Repeat(Lengths(YInds(batch))),
        yCol := Widen(Concat(YInds(batch))),
        yVal := Concat(YDatas(batch)),
        batchSize := |batch|))
  }

  /** X row ids: one per collated entry, below the batch size,
      non-decreasing, and batch-local id i occurs exactly as often as
      extract i has column indices -- an empty extract still uses up its id. */
  lemma CollateXRowIds(batch: seq<Sample>)
    requires |batch| > 0
    ensures var b := Collate(batch).value;
      && |b.xRow| == |b.xCol|
      && (forall k :: 0 <= k < |b.xRow| ==> b.xRow[k] < |batch|)
      && (forall a, c :: 0 <= a <= c < |b.xRow| ==> b.xRow[a] <= b.xRow[c])
      && (forall i :: 0 <= i < |batch| ==> multiset(b.xRow)[i] == |batch[i].xInd|)
  {
    RepeatOfLengths(XInds(batch));
  }

  /** Y row ids, likewise, counted by the label column indices. */
  lemma CollateYRowIds(batch: seq<Sample>)
    requires |batch| > 0
    ensures var b := Collate(batch).value;
      && |b.yRow| == |b.yCol|
      && (forall k :: 0 <= k < |b.yRow| ==> b.yRow[k] < |batch|)
      && (forall a, c :: 0 <= a <= c < |b.yRow| ==> b.yRow[a] <= b.yRow[c])
      && (forall i :: 0 <= i < |batch| ==> multiset(b.yRow)[i] == |batch[i].yInd|)
  {
    RepeatOfLengths(YInds(batch));
  }

  /** Totals: the collated X has as many entries as the extracts' X rows
      together, and the same for Y; values are counted the same way. */
  lemma CollateTotals(batch: seq<Sample>)
    requires |batch| > 0
    ensures var b := Collate(batch).value;
      && |b.xCol| == Sum(Lengths(XInds(batch))) && |b.xVal| == Sum(Lengths(XDatas(batch)))
      && |b.yCol| == Sum(Lengths(YInds(batch))) && |b.yVal| == Sum(Lengths(YDatas(batch)))
      && (WellFormed(batch) ==> |b.xVal| == |b.xCol| && |b.yVal| == |b.yCol|)
  {
    ConcatLength(XInds(batch));
    ConcatLength(XDatas(batch));
    ConcatLength(YInds(batch));
    ConcatLength(YDatas(batch));
    if WellFormed(batch) {
      assert Lengths(XInds(batch)) == Lengths(XDatas(batch));
      assert Lengths(YInds(batch)) == Lengths(YDatas(batch));
    }
  }

  /** Entry j of extract i lands at Start + j of the collated X, where Start
      is the number of entries of the extracts before it; there its row id
      is i, its column is the extract's column and its value the extract's
      value. */
  lemma CollateXPlacement(batch: seq<Sample>, i: nat, j: nat)
    requires WellFormed(batch) && i < |batch| && j < |batch[i].xInd|
    ensures var b := Collate(batch).value;
      var k := Start(Lengths(XInds(batch)), i) + j;
      && k < |b.xRow| && k < |b.xCol| && k < |b.xVal|
      && b.xRow[k] == i && b.xCol[k] == batch[i].xInd[j] && b.xVal[k] == batch[i].xData[j]
  {
    var xi, xd := XInds(batch), XDatas(batch);
    assert Lengths(xi) == Lengths(xd);
    RepeatAt(Lengths(xi), i, j);
    ConcatAt(xi, i, j);
    ConcatAt(xd, i, j);
  }

  /** The same for Y, with the column widened but equal in value. */
  lemma CollateYPlacement(batch: seq<Sample>, i: nat, j: nat)
    requires WellFormed(batch) && i < |batch| && j < |batch[i].yInd|
    ensures var b := Collate(batch).value;
      var k := Start(Lengths(YInds(batch)), i) + j;
      && k < |b.yRow| && k < |b.yCol| && k < |b.yVal|
      && b.yRow[k] == i && b.yCol[k] as int == batch[i].yInd[j] as int
      && b.yVal[k] == batch[i].yData[j]
  {
    var yi, yd := YInds(batch), YDatas(batch);
    assert Lengths(yi) == Lengths(yd);
    RepeatAt(Lengths(yi), i, j);
    ConcatAt(yi, i, j);
    ConcatAt(yd, i, j);
  }

  /** Conversely, every collated X entry k comes from extract i = xRow[k],
      at offset k - Start within it: row, column and value at position k
      describe one and the same stored entry. */
  lemma CollateXEntry(batch: seq<Sample>, k: nat)
    requires WellFormed(batch) && |batch| > 0
    requires k < |Collate(batch).value.xCol|
    ensures var b := Collate(batch).value;
      && k < |b.xRow| && k < |b.xVal| && b.xRow[k] < |batch|
      && var i := b.xRow[k];
         var s := Start(Lengths(XInds(batch)), i);
         s <= k < s + |batch[i].xInd|
         && b.xCol[k] == batch[i].xInd[k - s] && b.xVal[k] == batch[i].xData[k - s]
  {
    var c := Lengths(XInds(batch));
    RepeatLength(c);
    ConcatLength(XInds(batch));
    RepeatCovers(c, k);
    var i := Repeat(c)[k];
    CollateXPlacement(batch, i, k - Start(c, i));
  }

  /** The same for every collated Y entry. */
  lemma CollateYEntry(batch: seq<Sample>, k: nat)
    requires WellFormed(batch) && |batch| > 0
    requires k < |Collate(batch).value.yCol|
    ensures var b := Collate(batch).value;
      && k < |b.yRow| && k < |b.yVal| && b.yRow[k] < |batch|
      && var i := b.yRow[k];
         var s := Start(Lengths(YInds(batch)), i);
         s <= k < s + |batch[i].yInd|
         && b.yCol[k] as int == batch[i].yInd[k - s] as int
         && b.yVal[k] == batch[i].yData[k - s]
  {
    var c := Lengths(YInds(batch));
    RepeatLength(c);
    ConcatLength(YInds(batch));
    RepeatCovers(c, k);
    var i := Repeat(c)[k];
    CollateYPlacement(batch, i, k - Start(c, i));
  }

  /** Every row of a dataset, in order, as __getitem__ extracts them. */
  function AllSamples(x: CsrMatrix, y: CsrMatrix): seq<Sample>
    requires Valid(x) && Valid(y) && x.rows == y.rows
  {
    seq(x.rows, i requires 0 <= i < x.rows => ExtractRow(x, y, i))
  }

  lemma AllSamplesParts(x: CsrMatrix, y: CsrMatrix)
    requires Valid(x) && Valid(y) && x.rows == y.rows
    ensures |AllSamples(x, y)| == x.rows
    ensures XInds(AllSamples(x, y)) == AllRowIndices(x)
    ensures XDatas(AllSamples(x, y)) == AllRowData(x)
    ensures YInds(AllSamples(x, y)) == AllRowIndices(y)
    ensures YDatas(AllSamples(x, y)) == AllRowData(y)
    ensures Lengths(AllRowIndices(x)) == RowLengths(x)
    ensures Lengths(AllRowIndices(y)) == RowLengths(y)
  {
  }

  /** Collating every row of a dataset, in order, rebuilds X and Y in
      coordinate form: the columns and values are the stored arrays, the
      label columns are the stored ones widened, and the row ids repeat each
      row number once per stored entry of that row (which places stored
      entry k in the row whose pointer range holds it, by
      Csr.RowIdsOfEntries). */
  lemma CollateAllRows(x: CsrMatrix, y: CsrMatrix)
    requires Valid(x) && Valid(y) && x.rows == y.rows > 0
    ensures Collate(AllSamples(x, y))
         == Success(Batch(Repeat(RowLengths(x)), x.indices, x.data,
                          Repeat(RowLengths(y)), Widen(y.indices), y.data, x.rows))
  {
    AllSamplesParts(x, y);
    RowsReassemble(x);
    RowsReassemble(y);
  }

  // -----------------------------------------------------------------------
  // Worked examples

  /** The example matrices: X is 2 x 3 with row 0 = {1: 0.5} and row 1
      empty; Y is 2 x 2 with row 0 = {0: -1, 1: +1} and row 1 = {0: +1}. */
  function ExampleX(): CsrMatrix
  {
    CsrMatrix(2, 3, [0, 1, 1], [1], [0.5])
  }

  function ExampleY(): CsrMatrix
  {
    CsrMatrix(2, 2, [0, 2, 3], [0, 1, 0], [-1.0, 1.0, 1.0])
  }

  /** After the rescale Y holds 0, 1 and 1 in the same places; row 0 of X
      reads ([1], [0.5]) and row 1 reads ([], []). */
  lemma WorkedExampleRows()
    ensures Valid(ExampleX()) && Valid(ExampleY()) && Valid(RescaleLabels(ExampleY()))
    ensures RescaleLabels(ExampleY()).data == [0.0, 1.0, 1.0]
    ensures ExtractRow(ExampleX(), RescaleLabels(ExampleY()), 0)
         == Sample([1], [0.5], [0, 1], [0.0, 1.0])
    ensures ExtractRow(ExampleX(), RescaleLabels(ExampleY()), 1)
         == Sample([], [], [0], [1.0])
  {
    var x, y := ExampleX(), RescaleLabels(ExampleY());
    assert y.data == [0.0, 1.0, 1.0];
    assert RowIndices(x, 0) == [1];
    assert RowIndices(y, 0) == [0, 1];
    assert RowIndices(y, 1) == [0];
  }

  /** The two example rows as extracts. */
  function ExampleBatch(): seq<Sample>
  {
    [Sample([1], [0.5], [0, 1], [0.0, 1.0]), Sample([], [], [0], [1.0])]
  }

  lemma ExampleBatchParts()
    ensures XInds(ExampleBatch()) == [[1], []]
    ensures XDatas(ExampleBatch()) == [[0.5], []]
    ensures YInds(ExampleBatch()) == [[0, 1], [0]]
    ensures YDatas(ExampleBatch()) == [[0.0, 1.0], [1.0]]
  {
  }

  lemma ExampleRepeats()
    ensures Repeat([1, 0]) == [0]
    ensures Repeat([2, 1]) == [0, 0, 1]
  {
    assert [1, 0][..1] == [1];
    assert Repeat([1]) == Fill(0, 1) == [0];
    assert [2, 1][..1] == [2];
    assert Repeat([2]) == Fill(0, 2) == [0, 0];
    assert Fill(1, 1) == [1];
  }

  lemma ExampleConcats()
    ensures Concat<Int32>([[1], []]) == [1]
    ensures Concat<real>([[0.5], []]) == [0.5]
    ensures Concat<real>([[0.0, 1.0], [1.0]]) == [0.0, 1.0, 1.0]
  {
    assert [[1], []][..1] == [[1 as Int32]];
    assert Concat<Int32>([[1]]) == [1];
    assert [[0.5], []][..1] == [[0.5]];
    assert Concat<real>([[0.5]]) == [0.5];
    assert [[0.0, 1.0], [1.0]][..1] == [[0.0, 1.0]];
    assert Concat<real>([[0.0, 1.0]]) == [0.0, 1.0];
  }

  /** Collating rows 0 and 1 of the example gives one X entry, in batch
      row 0 and column 1, with batch size 2: the empty row 1 holds no entry
      but still counts. */
  lemma WorkedExampleCollateX()
    ensures Collate(ExampleBatch()).Success?
    ensures Collate(ExampleBatch()).value.xRow == [0]
    ensures Collate(ExampleBatch()).value.xCol == [1]
    ensures Collate(ExampleBatch()).value.xVal == [0.5]
    ensures Collate(ExampleBatch()).value.batchSize == 2
  {
    ExampleBatchParts();
    assert Lengths(XInds(ExampleBatch())) == [1, 0];
    ExampleRepeats();
    ExampleConcats();
  }

  /** ... and three Y entries, in batch rows 0, 0 and 1, with the rescaled
      labels 0, 1 and 1. */
  lemma WorkedExampleCollateY()
    ensures Collate(ExampleBatch()).Success?
    ensures Collate(ExampleBatch()).value.yRow == [0, 0, 1]
    ensures Collate(ExampleBatch()).value.yVal == [0.0, 1.0, 1.0]
  {
    ExampleBatchParts();
    assert Lengths(YInds(ExampleBatch())) == [2, 1];
    ExampleRepeats();
    ExampleConcats();
  }

  /** sparse_collate does not compare an extract's index and value
      lengths: an extract with two column indices and one value is
      collated, and the result has fewer X values than X entries. */
  lemma MismatchedExtractAccepted()
    ensures var b := Collate([Sample([1, 2], [0.5], [], [])]);
      b.Success? && |b.value.xCol| == 2 && |b.value.xVal| == 1 && |b.value.xRow| == 2
  {
    var batch := [Sample([1, 2], [0.5], [], [])];
    assert XInds(batch) == [[1, 2]];
    assert XDatas(batch) == [[0.5]];
    assert Lengths(XInds(batch)) == [2];
    assert XInds(batch)[..0] == [];
    assert XDatas(batch)[..0] == [];
    assert Fill(0, 2) == [0, 0];
  }
}
