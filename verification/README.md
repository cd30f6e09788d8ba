# User-group transformer, modelled in Dafny

This project models `CustomUserGroupTransformer`. It is the engine that turns
a flat table of timestamped event rows into one record per entity
(user, account, ...). The steps are:

1. Sort the table once by the composite key (entity id, `event_time`).
2. List the distinct ids of the sorted table in order of first appearance.
3. Take each id's rows and collapse them into one record.
4. Return the records as a frame, or as a list of per-entity mappings.

Inside a record, each column becomes a field by a fixed, ordered dispatch:

- A first-item column keeps the cell of the group's first row.
- A tensor column is stacked into a `group size x width` matrix.
- A categorical column becomes its integers.
- An object column passes its values through.
- Anything else becomes a numeric sequence.

The id column and `et_index` are not fields. Line 31 writes the event time
into `et_index`, overwriting any input column of that name, and line 32
moves both columns into the index. The record's id field is then set to the
id. `event_time` itself stays a column, so it becomes a field.

Modules, one per concern:

- `Values` (`values.dfy`): cells, column kinds, the field containers, and
  `Steps`. `Steps` reads a sequence field back as its cells.
- `Events` (`events.dfy`): rows as maps from column name to cell, the
  schema, and well-formedness. It also defines `RowsWithId`, the selection
  of one entity's rows.
- `Ordering` (`ordering.dfy`): the sort by (id, event time).
- `Distinct` (`distinct.dfy`): the distinct ids in order of first appearance.
- `Features` (`features.dfy`): the per-column dispatch `Decide`, and
  `Collapse`, which builds one record.
- `Frames` (`frames.dfy`): the frame built from the records, and the
  records read back from the frame.
- `Transformer` (`transformer.dfy`): the transform and its laws.
- `Scenarios` (`scenarios.dfy`): worked examples on three events.

Modelling choices:

- Pandas decides a column's container by inspecting values and dtypes.
  Here each column instead carries an explicit `Kind` tag in the schema.
- Cells are opaque integers. Tensor cells are integer vectors.
- Entity ids and event times are `Numeric` cells.
- The sort is an insertion sort on an immutable sequence. Every law is
  proved from two facts only: the sorted table is a permutation of the
  input, and it is ordered by (id, event time). So the relative order of
  rows with equal (id, event time) is left open.
- `x.loc[user]` is modelled as the selection of that id's rows from the
  sorted table. The sorted table keeps each id's rows contiguous, so the
  selection is the same rows in the same order.
- A missing `event_time` column is reported first, because line 31 reads
  it first. An id column named `et_index` is reported second, as a
  `DuplicateIndexLevel` error: line 31 creates or overwrites that column,
  and the two-level index of line 32 then has both levels named
  `et_index`. A missing id column is reported last. Missing columns are
  `MissingColumn` errors, where pandas raises a `KeyError`.

Two points of the code that the model follows as written:

- Rows with equal (id, `event_time`) are left in an unspecified order.
  Line 33 sorts the two-level index and nothing fixes the order of ties.
- `astype('int')` at line 21 turns each category label into an integer;
  it does not return pandas' category codes. The model stores a
  categorical cell as its integer label, `Code(label)`, and the field is
  the sequence of those integers.

## Model

| member | source | states |
|---|---|---|
| Features.Decide | src/preprocessing/pandas/user_group_transformer.py:15-23 | A first-item column yields the cell of row 0 whatever its kind, so this check takes priority. Any other column yields a container of its kind: a matrix whose rows all have the column's width, or integers, objects or numbers. Read back with `Steps`, the container gives exactly the column's cells in row order, one per row. |
| Features.Collapse | src/preprocessing/pandas/user_group_transformer.py:26-44 | The record has a field for every column except `et_index`, plus the id, and the id field holds the group's id. First-item fields hold row 0's cell. Every sequence field holds its column's cells, indexed by the same rows. |
| Events.RowsWithId | src/preprocessing/pandas/user_group_transformer.py:42-42 | One entity's rows are exactly the rows with that id, and no others. |
| Events.RowsWithIdPermutation | src/preprocessing/pandas/user_group_transformer.py:33-42 | Selecting an entity from any rearrangement of the table gives the same rows, as a multiset. |
| Ordering.SortByKey | src/preprocessing/pandas/user_group_transformer.py:31-33 | The sorted table is a permutation of the input, ordered by (id, event time). |
| Ordering.EntityRowsTimeOrdered | src/preprocessing/pandas/user_group_transformer.py:31-42 | One entity's rows, taken from the key-sorted table, are in non-decreasing event-time order. |
| Distinct.Unique | src/preprocessing/pandas/user_group_transformer.py:38-38 | The distinct ids hold exactly the values of the input, each once. |
| Distinct.UniqueInFirstOccurrenceOrder | src/preprocessing/pandas/user_group_transformer.py:38-38 | The distinct ids are listed in the order of their first occurrence in the input. |
| Distinct.UniqueOfSorted | src/preprocessing/pandas/user_group_transformer.py:33-38 | The distinct ids of a non-decreasing sequence come out strictly ascending. |
| Transformer.UsersAreInputIds | src/preprocessing/pandas/user_group_transformer.py:31-38 | The ids to process are the distinct input ids, each once, strictly ascending. There are as many of them as there are distinct ids. |
| Transformer.Assemble | src/preprocessing/pandas/user_group_transformer.py:35-45 | Every record built by the per-entity loop has the same columns: the table's columns without `et_index`, plus the id column. |
| Transformer.EtIndexDropped | src/preprocessing/pandas/user_group_transformer.py:31-44 | For an id column other than `et_index`, no record has an `et_index` field, whatever the input held in that column. Every other column of the table is a field of every record. |
| Transformer.Transform | src/preprocessing/pandas/user_group_transformer.py:28-56 | The result is an error exactly when the event-time column is missing, the id column is named `et_index`, or the id column is missing, reported in that order. An id column named `et_index` is overwritten by the event times at line 31 and doubles that index level at line 32, so the ids cannot be read at line 38. Otherwise the result has the representation the caller asked for. |
| Transformer.OneRecordPerEntity | src/preprocessing/pandas/user_group_transformer.py:33-45 | There is one record per distinct input id, and the count of records equals the count of distinct ids. Every record's id is an input id, and record ids are strictly ascending. |
| Transformer.RecordIsItsGroup | src/preprocessing/pandas/user_group_transformer.py:31-44 | Each record is built from one time-ordered arrangement of exactly its entity's input rows. Every sequence field is indexed by that same row order, so index i of each field comes from the same row. |
| Transformer.SequenceFieldLength | src/preprocessing/pandas/user_group_transformer.py:18-42 | Every non-first-item field has as many steps as the entity has input rows. |
| Transformer.FirstItemIsEarliest | src/preprocessing/pandas/user_group_transformer.py:16-33 | A first-item field is the column's cell from one of the entity's input rows with the minimum event time. |
| Transformer.EventTimeAscending | src/preprocessing/pandas/user_group_transformer.py:26-33 | The retained `event_time` field is non-decreasing, with one entry per input row of the entity. |
| Transformer.TensorFieldIsMatrix | src/preprocessing/pandas/user_group_transformer.py:18-19 | A tensor column becomes a matrix of size group size x width. Its row i is the vector of the entity's i-th row in time order. |
| Transformer.RecordsMatchFrame | src/preprocessing/pandas/user_group_transformer.py:50-56 | The records form equals the assembled records, in the same order. The frame's cell in column k, row j is field k of record j. |
| Transformer.EmptyTableYieldsNoRecords | src/preprocessing/pandas/user_group_transformer.py:35-56 | An empty table gives an empty list of records, or an empty frame, and not an error. |
| Frames.FromRecords | src/preprocessing/pandas/user_group_transformer.py:50-50 | The frame has one row per record and one column per field. Its cell in column k, row j is field k of record j. |
| Frames.ToRecords | src/preprocessing/pandas/user_group_transformer.py:54-54 | Reading the frame back gives one mapping per frame row, holding that row's cell of every column. |
| Frames.RecordsRoundTrip | src/preprocessing/pandas/user_group_transformer.py:50-54 | Building a frame from records and reading it back gives the same records. |
| Frames.FrameRoundTrip | src/preprocessing/pandas/user_group_transformer.py:50-54 | A frame with at least one row is rebuilt exactly from its records. |
| Scenarios.AmountsOrderedByTime | src/preprocessing/pandas/user_group_transformer.py:31-45 | Take the events (id 1, time 5, amount p), (1, 2, q) and (2, 1, r). They give two records. Entity 1's amounts are [q, p] and its times are [2, 5]. Entity 2 has [r] at time [1]. |
| Scenarios.FirstItemScenario | src/preprocessing/pandas/user_group_transformer.py:16-17 | Use the same events with the amount as a first-item column. Entity 1's amount is then the single value q, from its earliest event. |

## Left out

- Progress reporting (`tqdm`, line 41) and the `del x` at line 47. One is
  observability and the other is memory management; neither changes the
  result.
- The in-place changes to the caller's frame at lines 31-33. The source adds
  an `et_index` column and re-indexes and sorts the caller's frame in place.
  The model is a pure function over an immutable table, so it does not show
  these side effects.
- Stability of the sort. Ties in (id, event time) are left in an
  unspecified order, so no law depends on it.
- Transformer.FirstItemIsEarliest: the value comes from some row with the
  minimum event time. If several rows tie at that time, the model does not
  say which one, because the sort's tie order is unspecified.
- The constructor of the preprocessor in `src/preprocessing/pandas_preprocessor.py`.
  It maps configuration strings to encoder classes, and those classes are
  not part of this model. Its `AttributeError` branches are configuration
  checks, not part of the transform.
- The column encoders (frequency encoding, datetime to timestamp, identity).
  They run before the transform, and their code is not part of this model.
- Dtypes, floating point, and memory sharing (`torch.from_numpy`,
  `astype('int')`, `to_numpy`). Numeric cells are opaque integers.
- Ids and event times of types other than integers. The source accepts any
  comparable type.
- Events.WellFormed: one vector length per tensor column. Line 19 stacks
  one entity's rows at a time, so `torch.vstack` fails only when lengths
  differ within one entity's rows; different lengths in different entities
  go through in the source. The model's `Tensor(width)` kind fixes one
  length for the whole column, a stronger precondition than the source
  needs, so tables whose entities differ in vector length are not modelled.
- Per-row tensors of rank other than 1. `torch.vstack` at line 19 turns
  rank-0 cells into an `n x 1` matrix and concatenates rank-2 cells of
  shape `a x b` into an `(n*a) x b` matrix; the model has only rank-1
  vectors, stacked one per row.
- Column order. Records and frame columns are maps, so the model does not
  keep the order of a record's fields or of the frame's columns. In the
  source that order is the group's columns, then the id column added at
  line 44.
- Pandas' filling of missing fields with NaN when records have different
  columns. Every record here has the same columns, so this never arises.
