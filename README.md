# SparseChem data layer in Dafny

A verified model of `sparsechem/data.py`. That file prepares sparse
chemical feature vectors (X) and sparse multi-task labels (Y) for
mini-batch training. It has two components:

- `SparseDataset` owns X and Y as compressed sparse row (CSR) matrices.
  It checks that they have the same number of rows and rescales every
  stored label from {-1, +1} to {0, 1}. Labels that become 0 stay
  stored as explicit zeros. It reports the sample count and the two
  column counts, and it returns one row of X and one row of Y by index.
- `sparse_collate` merges an ordered list of such rows into one batch in
  coordinate form. Batch row `i` gets row id `i`, repeated once per
  stored entry. Column indices and values are joined in order. Label
  column indices are widened to int64. It also records the batch size.

Files:

- `array_ops.dfy` (module `ArrayOps`) defines the two NumPy primitives
  the collator uses on sequences. `Repeat(c)` is
  `np.repeat(np.arange(len(c)), c)` and `Concat(p)` is
  `np.concatenate(p)`. The file also holds their lemmas: lengths,
  order, multiplicities, and where element `j` of part `i` ends up.
- `csr.dfy` (module `Csr`) defines the CSR matrix as a value, its
  invariant, the row slices `indices[indptr[r]:indptr[r+1]]` and
  `data[...]`, and a proof that joining all row slices gives back the
  stored arrays.
- `data.py` itself maps to `data.dfy` (module `Data`). The dataset is
  a class with two constant matrix fields, read-only once built. Its
  constructor stores Y with its value buffer replaced by the rescaled
  one. `__len__`, `input_size`, `output_size` and `__getitem__` are
  functions that read it. `sparse_collate` is the pure function
  `Collate`. The file also holds the lemmas about the batch and two
  worked examples.

Modelling choices:

- Values are `real`, so the rescale `(v + 1) / 2` is exact.
- Stored column indices are `Int32`, SciPy's default index dtype.
- The widened label columns are `Int64`. `Widen` proves that every
  index keeps its value.
- The three ways the code fails are values of `DataError`, returned in
  a `Result`:
  - `ShapeMismatch`: the row-count assertion in `__init__`.
  - `IndexOutOfRange`: numpy's IndexError when `idx` (for `idx > rows`)
    or `idx + 1` (for `idx == rows`) is past the end of `indptr`.
  - `EmptyBatch`: `np.concatenate` of an empty list.

Where the documented intent and the code differ, the model follows the
code:

- An empty batch fails in `sparse_collate` (line 79). It does not yield
  an empty batch.
- `sparse_collate` does not check that an extract has as many values
  as column indices. `Collate` accepts such an extract, and
  `MismatchedExtractAccepted` shows the lengths that come out. The
  lemmas that line up rows, columns and values assume extracts whose
  lengths match (`WellFormed`). Every extract that `GetItem` returns has
  matching lengths.

## Model

| member | source | states |
|---|---|---|
| `ArrayOps.Repeat` | sparsechem/data.py:78 | no contract of its own: `np.repeat(np.arange(n), counts)`, characterised by RepeatLength, RepeatSorted, RepeatCount, RepeatAt and RepeatCovers |
| `ArrayOps.Concat` | sparsechem/data.py:79 | no contract of its own: `np.concatenate`, characterised by ConcatLength and ConcatAt |
| `ArrayOps.RepeatLength` | sparsechem/data.py:78 | the repeated row-id sequence has exactly as many entries as the counts add up to |
| `ArrayOps.RepeatSorted` | sparsechem/data.py:78 | every repeated id is below the number of counts, and the ids never decrease |
| `ArrayOps.RepeatCount` | sparsechem/data.py:78 | id i occurs exactly c[i] times (zero times for an empty extract), and no other value occurs |
| `ArrayOps.RepeatAt` | sparsechem/data.py:78 | the j-th copy of id i sits at the sum of the earlier counts plus j |
| `ArrayOps.RepeatCovers` | sparsechem/data.py:78 | every position k lies inside the block of the id written there |
| `ArrayOps.ConcatLength` | sparsechem/data.py:79 | the concatenation is as long as all the parts together |
| `ArrayOps.ConcatAt` | sparsechem/data.py:79 | element j of part i sits at the sum of the earlier part lengths plus j, so order is kept and nothing is dropped or merged |
| `ArrayOps.RepeatOfLengths` | sparsechem/data.py:78-79 | ids repeated by the part lengths line up with the concatenated parts: equal length, bounded, non-decreasing, id i as often as part i is long |
| `Csr.IndptrMonotone` | sparsechem/data.py:34-35 | in a valid CSR matrix the row pointer is monotone over any span of rows and bounded by the number of stored entries, so the row slices are in range |
| `Csr.RowIndices` | sparsechem/data.py:34-36 | the column slice of row r has length indptr[r+1]-indptr[r], holds the stored columns in stored order, and every column is below the column count |
| `Csr.RowData` | sparsechem/data.py:34-37 | the value slice of row r holds the stored values in stored order and is as long as the column slice |
| `Csr.IndptrIsRunningSum` | sparsechem/data.py:34-35 | indptr[n] is the sum of the first n row lengths |
| `Csr.RowsReassemble` | sparsechem/data.py:33-37 | joining the column (value) slices of all rows in order gives back the stored column (value) array |
| `Csr.RowIdsLength` | sparsechem/data.py:78 | repeating each row number once per stored entry gives one id per stored entry |
| `Csr.RowIdsOfEntries` | sparsechem/data.py:78 | the repeated row number of stored entry k is the row whose pointer range holds k |
| `Data.Rescale` | sparsechem/data.py:19-20 | the label map is invertible (2w-1 = v) and sends -1 to 0 and +1 to 1 |
| `Data.RescaleValues` | sparsechem/data.py:20 | the rescaled buffer has the same length and holds (v+1)/2 at every position |
| `Data.RescaleLabels` | sparsechem/data.py:20 | no contract of its own: Y with its value buffer rescaled, characterised by RescaleKeepsStructure, RescaleBipolar and RescaledRow |
| `Data.RescaleKeepsStructure` | sparsechem/data.py:18-20 | rescaling keeps a valid CSR matrix with the same shape, row pointer, columns and stored-entry count, so explicit zeros stay stored |
| `Data.RescaleBipolar` | sparsechem/data.py:19-20 | on bipolar labels every rescaled label is 0 or 1, and it is 0 exactly where the input was -1 |
| `Data.RescaledRow` | sparsechem/data.py:20-42 | a row of the rescaled labels has the original columns and the rescaled original values |
| `Data.ExtractRow` | sparsechem/data.py:34-42 | no contract of its own: the four row slices, characterised by Csr.RowIndices, Csr.RowData and Data.SparseDataset.GetItem |
| `Data.SparseDataset.constructor` | sparsechem/data.py:17-20 | the dataset keeps X, keeps Y with its value buffer replaced by the rescaled one, and is valid |
| `Data.SparseDataset.Create` | sparsechem/data.py:15-20 | construction fails, naming both row counts, exactly when X and Y have different row counts, and otherwise yields a fresh valid dataset |
| `Data.SparseDataset.Len` | sparsechem/data.py:22-23 | the length is the row count of X, which equals that of Y |
| `Data.SparseDataset.InputSize` | sparsechem/data.py:25-27 | the input size is X's column count and bounds every stored column of X |
| `Data.SparseDataset.OutputSize` | sparsechem/data.py:29-31 | the output size is Y's column count and bounds every stored column of Y |
| `Data.SparseDataset.GetItem` | sparsechem/data.py:33-49 | an index past the last row fails; otherwise the four fields are the CSR row slices of X and Y, with matching index and value lengths |
| `Data.GetItemAfterConstruction` | sparsechem/data.py:17-42 | after construction, row idx reads the original X row and the original Y columns with rescaled Y values |
| `Data.XInds` | sparsechem/data.py:72 | no contract of its own: the `x_ind` field of every extract, in batch order, characterised by the Collate lemmas |
| `Data.XDatas` | sparsechem/data.py:73 | no contract of its own: the `x_data` field of every extract, in batch order |
| `Data.YInds` | sparsechem/data.py:74 | no contract of its own: the `y_ind` field of every extract, in batch order |
| `Data.YDatas` | sparsechem/data.py:75 | no contract of its own: the `y_data` field of every extract, in batch order |
| `Data.Widen` | sparsechem/data.py:84 | widening to int64 keeps the length and the value of every column index |
| `Data.Collate` | sparsechem/data.py:71-92 | collation fails exactly on an empty batch; otherwise the batch size is the number of extracts |
| `Data.CollateXRowIds` | sparsechem/data.py:78 | X row ids: one per collated entry, below the batch size, non-decreasing, id i exactly as often as extract i has columns |
| `Data.CollateYRowIds` | sparsechem/data.py:83 | the same for the Y row ids, counted by the label columns |
| `Data.CollateTotals` | sparsechem/data.py:78-90 | collated column and value sequences are as long as the per-extract sequences together, and of equal length for well-formed extracts |
| `Data.CollateXPlacement` | sparsechem/data.py:78-80 | entry j of extract i lands at the sum of the earlier X lengths plus j, with row id i, its own column and its own value |
| `Data.CollateYPlacement` | sparsechem/data.py:83-90 | the same for Y, with the widened column equal in value |
| `Data.CollateXEntry` | sparsechem/data.py:78-80 | every collated X position k comes from extract xRow[k], and its column and value are that extract's entry at offset k minus the start |
| `Data.CollateYEntry` | sparsechem/data.py:83-90 | every collated Y position comes from one extract entry in the same way |
| `Data.CollateAllRows` | sparsechem/data.py:33-92 | collating every row of a dataset in order gives back X's and Y's stored columns and values, with each row number repeated once per stored entry of that row |
| `Data.WorkedExampleRows` | sparsechem/data.py:19-49 | on the example matrices, Y's stored values become 0, 1, 1; X row 0 reads ([1], [0.5]) and X row 1 reads ([], []) |
| `Data.WorkedExampleCollateX` | sparsechem/data.py:78-80 | collating the two example rows gives row ids [0], columns [1], values [0.5] and batch size 2 |
| `Data.WorkedExampleCollateY` | sparsechem/data.py:83-90 | collating the two example rows gives Y row ids [0, 0, 1] and values [0, 1, 1] |
| `Data.MismatchedExtractAccepted` | sparsechem/data.py:71-80 | an extract with two columns and one value is collated without error, into two X entries and one X value |

## Left out

- Float32 storage is not modelled. `astype(np.float32)` and the
  float32 `/ 2.0` are exact real arithmetic here.
- Data.SparseDataset.constructor, Data.SparseDataset.Create: SciPy's
  `astype(np.float32)` on an input that is not already float32 also
  puts the matrix in canonical form. It sorts each row's column indices
  and sums duplicate entries in a row, before the rescale. That step is
  SciPy's own code and is not modelled: the dataset keeps the input's
  structure as given. So "X is kept" and "Y's row pointer and column
  indices are unchanged" are exact only for inputs that are already
  float32, or already canonical (columns strictly increasing within each
  row). For other inputs, a row may be served in a different column
  order, and duplicate labels are merged before the rescale.
- SciPy's `tocsr` conversion is not modelled. Both inputs are taken as
  valid CSR matrices (`Csr.Valid`).
- The copy-or-alias behaviour of `tocsr(copy=False)` and `astype` is
  not modelled. The matrices are values, so no caller-held matrix is
  ever changed.
- Int64 index dtype is not modelled. SciPy picks it for very large
  matrices; the model assumes int32 column indices.
- `batch_to_x` is not modelled. It hands the collated indices to
  `torch.sparse_coo_tensor` and moves them to a device.
- Tensor packaging is not modelled: `torch.LongTensor`, `torch.stack`
  and `torch.from_numpy` in `sparse_collate`. In particular, X columns
  are widened to int64 only when packed into a tensor. The batch is
  kept as plain sequences.
- Inheritance from `torch.utils.data.Dataset` is not modelled. It is
  framework plumbing.
- `MappingDataset` is not modelled. It is an unimplemented stub.
- `setup.py` is not modelled. It is package metadata.
- `Data.SparseDataset.GetItem`: takes a `nat`, so negative indices,
  which numpy wraps around to the end of `indptr`, are not modelled.
- Error message texts are not modelled. The errors carry only the
  numbers they report.
