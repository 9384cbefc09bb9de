# polars_utils column mappings in Dafny

This project models the two column utilities of polars_utils and proves
properties about them.

- `map_col` derives new columns of a polars `DataFrame` from existing ones. It
  does so by dictionary lookup or by a user function, in one of five modes. The
  mode is chosen from the kind of mapping and from whether `map_from` and
  `map_to` are a string or a list.
- `move_col` reorders a frame's columns. It pops the name at one index from
  the list of column names, inserts it again at another index, and selects the
  columns in that order.

The frame is modelled as a value: a sequence of named columns with unique
names and equal lengths (`Frames.Frame`). The few polars operations the code
relies on are written out as functions with the effect that is visible from
the code:

- `with_columns` (`Frames.WithColumn`, `Frames.WithColumns`) replaces a column
  of the same name in place, or appends a new one.
- `select` (`MoveCol.Select`) takes the named columns in the given order, and
  fails on an unknown or repeated name.
- `pl.struct` (`MapCol.Record`) packs a row of the listed columns into a
  record.
- `map_dict` (`MapCol.LookupOr`) gives a value's dictionary entry, or the
  default when the value is not a key.
- `apply` and `map_elements` (`MapCol.Apply`) apply the user function to every
  value of a column.

Python's run-time type tests become sum types:

- `MapCol.NameArg`: a string, a list, or something else.
- `MapCol.Mapping`: a dictionary, a callable, or something else.

What a call ends with is an `MapCol.Outcome`: a frame, the `None` of a call
that falls through every branch, or an exception.

`move_col` changes a Python list in place: it calls `pop` and then `insert`
on the list `df.columns` returned. So its model is imperative. The class
`MoveCol.ColumnList` holds that list as a field, and its methods `Pop` and
`Insert` follow Python's index rules exactly: a negative index counts from
the end, `pop` raises `IndexError` out of range, and `insert` clamps its
index. The method `MoveCol.MoveColumn` is proved equal to the function
`MoveCol.Moved`, and the properties are proved about that function.

## Model

| member | source | states |
|---|---|---|
| Frames.WithColumn | polars_utils/src/mappings/map_col.py:126-128 | `with_columns` with one column keeps the height. The new name is appended only if absent. The column holds the given values. Leaving that name out, the frame is unchanged, column by column and in order. |
| Frames.WithColumns | polars_utils/src/mappings/map_col.py:153 | `with_columns` with a list of columns keeps the height. The names are the old names followed by the new ones, each once, in order of first appearance. |
| Frames.Merged | polars_utils/src/mappings/map_col.py:151 | Merging a list of keys has exactly the members of both lists. It keeps the prefix and never repeats a key, like filling a Python dict key by key. |
| Frames.MergedDeduplicated | polars_utils/src/mappings/map_col.py:151-153 | Merging the keys of a dict built from a name list gives the same order as merging the name list itself. |
| Frames.WithColumnsCol | polars_utils/src/mappings/map_col.py:153 | After `with_columns` with uniquely named columns, each of them can be read back under its name. |
| Frames.WithColumnsKeeps | polars_utils/src/mappings/map_col.py:153 | `with_columns` leaves a column that none of the new columns names as it was. |
| Frames.WithColumnsWithout | polars_utils/src/mappings/map_col.py:153 | Outside the target names, the frame after `with_columns` equals the frame before it, column by column and in order. |
| Frames.Columns | polars_utils/src/mappings/map_col.py:176 | Fetching columns by name succeeds iff every name exists. It otherwise fails with ColumnNotFound. Result k has name k and holds that column's data. |
| MapCol.LookupOr | polars_utils/src/mappings/map_col.py:103 | The `map_dict` lookup of one value. It has no contract of its own; `MapColDict` states the row equation it produces. |
| MapCol.MapColDict | polars_utils/src/mappings/map_col.py:102-104 | The result is Ok iff the source column exists, and otherwise ColumnNotFound. Row r of the target is the dictionary entry for source row r, or `default` when that value is not a key. The height is kept, the target is appended only if new, and every other column is unchanged. |
| MapCol.Map1To1 | polars_utils/src/mappings/map_col.py:126-128 | The result is Ok iff the source column exists. Row r of the target is `function(source[r])`. The height, the column order and every other column are kept. |
| MapCol.Subscript | polars_utils/src/mappings/map_col.py:151 | `res[i]` fails only with IndexError, KeyError or TypeError. |
| MapCol.Pick | polars_utils/src/mappings/map_col.py:151 | `[res[i] for res in results]` succeeds iff every row can be indexed at i. It then has one value per row, equal to that row's item i. |
| MapCol.PickError | polars_utils/src/mappings/map_col.py:151 | A failed pick raises the error of the first row that cannot be indexed at i. |
| MapCol.Entries | polars_utils/src/mappings/map_col.py:151 | The comprehension's items, evaluated in order, succeed iff every position of the name list can be picked. Item i is the key `names[i]` with the column picked at i. |
| MapCol.EntriesError | polars_utils/src/mappings/map_col.py:151 | A failed comprehension raises the error of the first position that cannot be picked. |
| MapCol.KeyedShape | polars_utils/src/mappings/map_col.py:151 | Assigning items into a dict one after another gives each key once, in order of first appearance, and keeps the column lengths. |
| MapCol.KeyedLast | polars_utils/src/mappings/map_col.py:151 | An item whose key no later item repeats is the dict's entry for that key. |
| MapCol.Keyed | polars_utils/src/mappings/map_col.py:151 | Assignment of the items into a dict, one after another. It has no contract of its own; `KeyedShape` and `KeyedLast` state its key order and its values. |
| MapCol.Unpack | polars_utils/src/mappings/map_col.py:151 | The dict comprehension: its items, then assigned into a dict. It has no contract of its own; `UnpackShape`, `UnpackCol` and `UnpackOk` state it. |
| MapCol.UnpackShape | polars_utils/src/mappings/map_col.py:151 | The dict's keys are the target names, each once, in order of first appearance. Every column has one entry per row. |
| MapCol.UnpackCol | polars_utils/src/mappings/map_col.py:151 | A repeated name holds the values of its last position: the later entry wins. |
| MapCol.UnpackOk | polars_utils/src/mappings/map_col.py:151 | The unpacking succeeds iff every result can be indexed at every target position. A failure is a subscript error. |
| MapCol.Map1ToN | polars_utils/src/mappings/map_col.py:150-153 | The result is Ok iff the source exists and every row's result can be indexed at every target position. The errors are ColumnNotFound or a subscript error. Column `names[i]` (last occurrence) holds item i of each row's result. Height kept; names merged in order; non-target columns unchanged. |
| MapCol.UnpackTargets | polars_utils/src/mappings/map_col.py:151 | Every unpacked column is named in the target list. |
| MapCol.UnpackedInto | polars_utils/src/mappings/map_col.py:150-153 | Adding the unpacked columns keeps the height and merges the names. It leaves the non-targets unchanged and puts item i of row r's result in `names[i]`. |
| MapCol.UnpackedColumn | polars_utils/src/mappings/map_col.py:150-153 | After `with_columns`, target `names[i]` (at its last occurrence) holds item i of every row's result. |
| MapCol.Map1ToNTuples | polars_utils/src/mappings/map_col.py:150-153 | When every result is a tuple with at least one item per target, the split succeeds. Target i holds item i, and surplus items are ignored. |
| MapCol.Record | polars_utils/src/mappings/map_col.py:176 | The struct `pl.struct` builds at one row. It has no contract of its own; `PackIsRecord` and `MapNTo1` state how it is used. |
| MapCol.PackIsRecord | polars_utils/src/mappings/map_col.py:176 | The row `pl.struct` packs from the fetched columns is the record of the named columns' values at that row, in the given order. |
| MapCol.MapNTo1 | polars_utils/src/mappings/map_col.py:175-177 | The result is Ok iff every source column exists, and otherwise ColumnNotFound. Row r of the target is `function` of the record of the source columns' values at row r. Height, order and other columns are kept. |
| MapCol.MapNToM | polars_utils/src/mappings/map_col.py:199 | Always NotImplementedError. It has no contract of its own; `MapColumnNotImplemented` states it at the dispatch. |
| MapCol.MapColumn | polars_utils/src/mappings/map_col.py:47-78 | The `map_col` dispatch. It has no contract of its own; its contract is the five lemmas `MapColumnValueError`, `MapColumnNotImplemented`, `MapColumnNone`, `MapColumnReturns` and `MapColumnShape`. |
| MapCol.MapColumnValueError | polars_utils/src/mappings/map_col.py:47-50 | ValueError is raised iff the mapping is a dictionary and `map_from` is a list, whatever the frame. |
| MapCol.MapColumnNotImplemented | polars_utils/src/mappings/map_col.py:74-78 | NotImplementedError is raised iff a callable comes with lists on both sides, whatever the frame or function. |
| MapCol.MapColumnNone | polars_utils/src/mappings/map_col.py:47-78 | The call returns None iff the mapping is not a dictionary and either it is not callable or a name argument is neither a string nor a list. |
| MapCol.MapColumnReturns | polars_utils/src/mappings/map_col.py:47-78 | A frame is returned iff one of the four implemented modes is selected and its source columns exist. For the split mode, every result must also be indexable at every target. |
| MapCol.MapColumnShape | polars_utils/src/mappings/map_col.py:47-78 | A returned frame has the input's height. Its names are the old names followed by the new targets. Every column that is not a target keeps its values and relative order. |
| MapCol.MapColumnDictExample | polars_utils/src/mappings/map_col.py:102-104 | Mapping `a = [1, 2]` through `{1: "x"}` with default null appends `b = ["x", null]`. |
| MoveCol.PopIndex | polars_utils/src/mappings/move_col.py:17 | `pop(i)` accepts exactly `-n <= i < n` and otherwise raises IndexError. The removed position is i, or i + n for a negative i. |
| MoveCol.InsertIndex | polars_utils/src/mappings/move_col.py:18 | `insert(i, x)` puts x at i when `0 <= i <= n` and at the end when i > n. The position is always within the list. |
| MoveCol.Reordered | polars_utils/src/mappings/move_col.py:17-18 | Pop-then-insert succeeds iff the source index is one `pop` accepts. Otherwise it raises IndexError. On success the list keeps its length. |
| MoveCol.Select | polars_utils/src/mappings/move_col.py:19 | `select` succeeds iff the names are distinct and all exist. The result's names are the given names, and column k holds the data of the column named k. |
| MoveCol.Moved | polars_utils/src/mappings/move_col.py:16-19 | `move_col` as a function of its arguments. It has no contract of its own; `MoveColumn` is proved equal to it and `MovedIsReordered` states what it returns. |
| MoveCol.ColumnList.constructor | polars_utils/src/mappings/move_col.py:16 | The list holds the frame's column names. |
| MoveCol.ColumnList.Pop | polars_utils/src/mappings/move_col.py:17 | Out of range, IndexError is raised and the list is unchanged. Otherwise the element at the normalised index is returned and removed. |
| MoveCol.ColumnList.Insert | polars_utils/src/mappings/move_col.py:18 | The element is inserted at the clamped index, and nothing else changes. |
| MoveCol.MoveColumn | polars_utils/src/mappings/move_col.py:16-19 | The method's result equals `Moved`, the pop-insert-select function of its arguments. |
| MoveCol.ReorderedPermutation | polars_utils/src/mappings/move_col.py:16-19 | The reordered list has the same multiset of elements. |
| MoveCol.ReorderedInRange | polars_utils/src/mappings/move_col.py:17-18 | For indices in range, the element at `col_to_id` is the one from `col_from_id`. Removing it from both lists gives the same list, so the others keep their relative order. |
| MoveCol.ReorderedSameIndex | polars_utils/src/mappings/move_col.py:17-18 | Moving from an index to itself leaves the order unchanged. |
| MoveCol.ReorderedUndo | polars_utils/src/mappings/move_col.py:17-18 | For valid i and j, moving i to j and then j to i restores the original order. |
| MoveCol.ReorderedNegativeFrom | polars_utils/src/mappings/move_col.py:17 | A negative source index selects the same column as that index plus the column count. |
| MoveCol.ReorderedPastEnd | polars_utils/src/mappings/move_col.py:18 | A target at or past the last position appends the moved column. |
| MoveCol.ReorderedExamples | polars_utils/src/mappings/move_col.py:17-18 | `[A,B,C,D]` moved (0,2) gives `[B,C,A,D]`, and moved (3,0) gives `[D,A,B,C]`. A source index of 5 raises IndexError. |
| MoveCol.ReorderedNoDuplicates | polars_utils/src/mappings/move_col.py:17-18 | Reordering distinct names gives distinct names, so the `select` never meets a duplicate. |
| MoveCol.ReorderedNames | polars_utils/src/mappings/move_col.py:16-18 | Reordering the names is the same as reordering the columns and taking their names. |
| MoveCol.SelectRearranged | polars_utils/src/mappings/move_col.py:19 | Selecting by the names of a rearrangement of the frame's own columns gives that rearrangement, data untouched. |
| MoveCol.MovedIsReordered | polars_utils/src/mappings/move_col.py:4-19 | `move_col` succeeds iff `-n <= col_from_id < n`, and otherwise raises IndexError. On success the result is the frame's own columns, reordered by pop-then-insert, so the column data is untouched. |

## Left out

- The polars expression engine is not modelled: `pl.col`, `map_dict`, `apply`, `map_elements`, `pl.struct`, `with_columns` and `select`. Each appears only through the effect the code relies on.
- Column dtypes, dtype inference and the null handling of `map_dict` and `apply` are not modelled. For example, `apply` skips nulls. All cells are one `Value` type, and a user function is applied to every cell.
- User functions are pure Dafny functions. The documentation asks for side-effect-free functions, so their side effects, exceptions and run time are not modelled. A function is applied to a bare value in every mode. The positional `*args` calling convention the documentation describes for several source columns is not modelled.
- Indexing a result with `res[i]` is modelled for tuples and lists (`Tuple`), strings and records. Any other value raises TypeError. Classes with their own `__getitem__` are not modelled.
- MapCol.MapColumn: a dictionary whose source is neither a string nor a list, or whose target is not a string, is modelled as `Raised(TypeError)`. What polars does there (an error, or possibly a result for a tuple source, since `pl.col` accepts several names) is not modelled.
- MapCol.MapNTo1: an empty or repeated list of source columns is not modelled. The record then simply has no fields, or repeated fields. That is not checked against polars, which may refuse such a struct.
- MapCol.MapNToM has no contract of its own. It always fails with NotImplementedError, which `MapColumnNotImplemented` states at the level of the dispatch.
- The performance advice in the documentation, and the floating-point example it gives, are not behaviour and are not modelled.
- The code has no dedicated error for a bad mapping or a result of the wrong length: a non-dictionary, non-callable mapping returns None, a result shorter than the target list raises IndexError, and a longer one is silently truncated. The model does the same.
- `move_col` with a frame whose names repeat is not modelled. A polars frame cannot have repeated names, and `Frame` excludes them.
