/**
 * `map_col`: derive new columns from existing ones, by dictionary lookup or
 * by a user function, in one of five modes chosen from the kind of mapping
 * and the shapes of the source and target arguments.
 *
 * Python's run-time type tests become sum types: a name argument is one
 * string, a list of strings, or something else; a mapping is a dictionary,
 * a callable, or something else. A user function is a pure Dafny function
 * from cell value to cell value, the same one in every mode.
 */
module MapCol {
  import opened Frames

  /** A `map_from` / `map_to` argument, as `isinstance` classifies it. */
  datatype NameArg = One(name: string) | Many(names: seq<string>) | Other

  /** The `mapping` argument: `isinstance(mapping, dict)`, `callable(mapping)`,
      or neither. */
  datatype Mapping =
    | Dict(table: map<Value, Value>)
    | Callable(f: Value -> Value)
    | NotCallable

  /** What a call of `map_col` ends with: a frame, the `None` of a call that
      falls through every branch, or an exception. */
  datatype Outcome = Returned(frame: Frame) | ReturnedNone | Raised(error: Error)

  /** The column names an argument designates as targets. */
  function Targets(a: NameArg): set<string> {
    match a
    case One(n) => {n}
    case Many(ns) => set n | n in ns
    case Other => {}
  }

  /** The target names in the order they are listed. */
  function TargetList(a: NameArg): seq<string> {
    match a
    case One(n) => [n]
    case Many(ns) => ns
    case Other => []
  }

  function Lift(r: Result<Frame>): Outcome {
    match r
    case Ok(df) => Returned(df)
    case Err(e) => Raised(e)
  }

  // ---------------------------------------------------------------------
  // Dictionary mode

  /** The value `map_dict` gives for `v`: its entry, or the default. */
  function LookupOr(table: map<Value, Value>, default: Value, v: Value): Value {
    if v in table then table[v] else default
  }

  /** `_map_col_dict`: column `newColName` holds, row by row, the dictionary's
      entry for the source value, or `default` when the value is not a key. */
  function MapColDict(df: Frame, colName: string, newColName: string,
                      table: map<Value, Value>, default: Value): (r: Result<Frame>)
    ensures r.Ok? <==> colName in Names(df)
    ensures r.Err? ==> r.error == ColumnNotFound
    ensures r.Ok? ==> Height(r.value) == Height(df)
    ensures r.Ok? ==> Names(r.value) == AppendNew(Names(df), newColName)
    ensures r.Ok? ==> Without(r.value, {newColName}) == Without(df, {newColName})
    ensures r.Ok? ==> forall row :: 0 <= row < Height(df) ==>
      Col(r.value, newColName)[row] == LookupOr(table, default, Col(df, colName)[row])
  {
    if colName !in Names(df) then Err(ColumnNotFound)
    else
      var src := Col(df, colName);
      var mapped := seq(|src|, row requires 0 <= row < |src| => LookupOr(table, default, src[row]));
      Ok(WithColumn(df, Column(newColName, mapped)))
  }

  // ---------------------------------------------------------------------
  // One source column, one target column

  /** `_map_1to1_function`: column `newColName` holds `f` of the source value
      in every row. */
  function Map1To1(df: Frame, colName: string, newColName: string,
                   f: Value -> Value): (r: Result<Frame>)
    ensures r.Ok? <==> colName in Names(df)
    ensures r.Err? ==> r.error == ColumnNotFound
    ensures r.Ok? ==> Height(r.value) == Height(df)
    ensures r.Ok? ==> Names(r.value) == AppendNew(Names(df), newColName)
    ensures r.Ok? ==> Without(r.value, {newColName}) == Without(df, {newColName})
    ensures r.Ok? ==> forall row :: 0 <= row < Height(df) ==>
      Col(r.value, newColName)[row] == f(Col(df, colName)[row])
  {
    if colName !in Names(df) then Err(ColumnNotFound)
    else
      var src := Col(df, colName);
      Ok(WithColumn(df, Column(newColName, Apply(f, src))))
  }

  // ---------------------------------------------------------------------
  // One source column, several target columns

  /** The exceptions `res[i]` can raise. */
  predicate IsSubscriptError(e: Error) {
    e == IndexError || e == TypeError || e == KeyError
  }

  /** `res[i]` for a non-negative integer `i`, as Python evaluates it on the
      value a user function returned. */
  function Subscript(v: Value, i: nat): (r: Result<Value>)
    ensures r.Err? ==> IsSubscriptError(r.error)
  {
    match v
    case Tuple(items) => if i < |items| then Ok(items[i]) else Err(IndexError)
    case Str(s) => if i < |s| then Ok(Str([s[i]])) else Err(IndexError)
    case Struct(_) => Err(KeyError)
    case _ => Err(TypeError)
  }

  /** `[res[i] for res in results]`: the i-th component of every result, in
      row order; the first row whose result has no i-th component raises. */
  function Pick(results: seq<Value>, i: nat): (r: Result<seq<Value>>)
    ensures r.Ok? <==> forall row :: 0 <= row < |results| ==> Subscript(results[row], i).Ok?
    ensures r.Ok? ==> |r.value| == |results|
    ensures r.Ok? ==> forall row :: 0 <= row < |results| ==> Subscript(results[row], i) == Ok(r.value[row])
  {
    if results == [] then Ok([])
    else
      var v :- Subscript(results[0], i);
      var rest :- Pick(results[1..], i);
      assert forall row :: 1 <= row < |results| ==> results[row] == results[1..][row - 1];
      Ok([v] + rest)
  }

  /** A failed pick raises what the first row that cannot be indexed raises. */
  lemma {:induction false} PickError(results: seq<Value>, i: nat) returns (row: nat)
    requires Pick(results, i).Err?
    ensures row < |results| && Subscript(results[row], i) == Err(Pick(results, i).error)
    ensures forall earlier :: 0 <= earlier < row ==> Subscript(results[earlier], i).Ok?
  {
    var e := Pick(results, i).error;
    if Subscript(results[0], i).Err? {
      row := 0;
    } else {
      var r := PickError(results[1..], i);
      row := r + 1;
      assert forall earlier :: 1 <= earlier < row ==> results[earlier] == results[1..][earlier - 1];
    }
  }

  /** No later position of `names` repeats the name at position `i`. */
  predicate IsLast(names: seq<string>, i: nat) {
    forall j :: i < j < |names| ==> names[j] != names[i]
  }

  /** The items of the comprehension in the order they are evaluated:
      position i pairs the key `names[i]` with the column picked at i. The
      first position whose column cannot be built raises. */
  function Entries(results: seq<Value>, names: seq<string>): (r: Result<seq<Column>>)
    ensures r.Ok? <==> forall i :: 0 <= i < |names| ==> Pick(results, i).Ok?
    ensures r.Ok? ==> |r.value| == |names|
    ensures r.Ok? ==> forall i :: 0 <= i < |names| ==> r.value[i] == Column(names[i], Pick(results, i).value)
    decreases |names|
  {
    if names == [] then Ok([])
    else
      var last := |names| - 1;
      match Entries(results, names[..last])
      case Err(e) =>
        assert |names[..last]| == last;
        assert exists i :: 0 <= i < last && !Pick(results, i).Ok?;
        assert exists i :: 0 <= i < |names| && !Pick(results, i).Ok?;
        Err(e)
      case Ok(init) =>
        match Pick(results, last)
        case Err(e) =>
          assert 0 <= last < |names| && !Pick(results, last).Ok?;
          Err(e)
        case Ok(values) => Ok(init + [Column(names[last], values)])
  }

  /** A failed comprehension raises what the first failing position raises. */
  lemma {:induction false} EntriesError(results: seq<Value>, names: seq<string>) returns (i: nat)
    requires Entries(results, names).Err?
    ensures i < |names| && Pick(results, i) == Err(Entries(results, names).error)
    ensures forall earlier :: 0 <= earlier < i ==> Pick(results, earlier).Ok?
    decreases |names|
  {
    var last := |names| - 1;
    var prefix := names[..last];
    if Entries(results, prefix).Err? {
      i := EntriesError(results, prefix);
    } else {
      i := last;
    }
  }

  /** The items assigned one after another into a Python dict: a repeated key
      keeps the place of its first assignment and the value of its last. */
  function Keyed(es: seq<Column>): seq<Column>
    decreases |es|
  {
    if es == [] then [] else Upsert(Keyed(es[..|es| - 1]), es[|es| - 1])
  }

  /** The dict's keys are the item names, each once, in order of first
      appearance; the values keep their lengths. */
  lemma {:induction false} KeyedShape(es: seq<Column>, h: nat)
    ensures Names(Keyed(es)) == Merged([], Names(es))
    ensures AllOfLength(es, h) ==> AllOfLength(Keyed(es), h)
    decreases |es|
  {
    if es != [] {
      var last := |es| - 1;
      var init := Keyed(es[..last]);
      KeyedShape(es[..last], h);
      NamesPrefix(es, last);
      MergedSnoc([], Names(es)[..last], es[last].name);
      assert Names(es)[..last] + [es[last].name] == Names(es);
      UpsertNames(init, es[last]);
      if AllOfLength(es, h) {
        assert AllOfLength(es[..last], h);
        UpsertLengths(init, es[last], h);
      }
    }
  }

  /** An item whose key no later item repeats is the dict's entry for it. */
  lemma {:induction false} KeyedLast(es: seq<Column>, k: nat)
    requires k < |es| && forall j :: k < j < |es| ==> es[j].name != es[k].name
    ensures es[k].name in Names(Keyed(es))
    ensures Col(Keyed(es), es[k].name) == es[k].values
    decreases |es|
  {
    var last := |es| - 1;
    var init := Keyed(es[..last]);
    if k == last {
      UpsertColSelf(init, es[k]);
    } else {
      assert es[..last][k] == es[k];
      KeyedLast(es[..last], k);
      UpsertColOther(init, es[last], es[k].name);
    }
  }

  /** The dictionary comprehension
      `{names[i]: [res[i] for res in results] for i in range(len(names))}`
      as its list of items. */
  function Unpack(results: seq<Value>, names: seq<string>): Result<seq<Column>> {
    var es :- Entries(results, names);
    Ok(Keyed(es))
  }

  /** The comprehension's keys are the target names, each once, in order of
      first appearance; every column has one value per row. */
  lemma UnpackShape(results: seq<Value>, names: seq<string>)
    requires Unpack(results, names).Ok?
    ensures Names(Unpack(results, names).value) == Merged([], names)
    ensures AllOfLength(Unpack(results, names).value, |results|)
  {
    var es := Entries(results, names).value;
    assert Names(es) == names;
    assert AllOfLength(es, |results|);
    KeyedShape(es, |results|);
  }

  /** Each key of the comprehension holds the column built for the last
      position that names it. */
  lemma UnpackCol(results: seq<Value>, names: seq<string>, i: nat)
    requires Unpack(results, names).Ok? && i < |names| && IsLast(names, i)
    ensures names[i] in Names(Unpack(results, names).value)
    ensures Col(Unpack(results, names).value, names[i]) == Pick(results, i).value
  {
    var es := Entries(results, names).value;
    assert es[i].name == names[i];
    KeyedLast(es, i);
  }

  /** Unpacking succeeds exactly when every result has every component
      asked for. */
  lemma {:induction false} UnpackOk(results: seq<Value>, names: seq<string>)
    ensures Unpack(results, names).Ok? <==>
      forall i, row :: 0 <= i < |names| && 0 <= row < |results| ==> Subscript(results[row], i).Ok?
    ensures Unpack(results, names).Err? ==> IsSubscriptError(Unpack(results, names).error)
  {
    var r := Unpack(results, names);
    if r.Err? {
      var i := EntriesError(results, names);
      var row := PickError(results, i);
    }
  }

  /** `function` applied to every value of a column (`apply`, `map_elements`). */
  function Apply(f: Value -> Value, vs: seq<Value>): (r: seq<Value>)
    ensures |r| == |vs| && forall row :: 0 <= row < |vs| ==> r[row] == f(vs[row])
  {
    seq(|vs|, row requires 0 <= row < |vs| => f(vs[row]))
  }

  /** `_map_1ton_function`: the function's result for each row is unpacked,
      component i going to column `newColNames[i]` (the last position wins
      where a name repeats); components past the last target are ignored,
      and a result without a needed component raises. */
  function Map1ToN(df: Frame, colName: string, newColNames: seq<string>,
                   f: Value -> Value): (r: Result<Frame>)
    ensures r.Ok? <==> (colName in Names(df) &&
      forall i, row :: 0 <= i < |newColNames| && 0 <= row < Height(df) ==>
        Subscript(f(Col(df, colName)[row]), i).Ok?)
    ensures r.Err? ==> r.error == ColumnNotFound || IsSubscriptError(r.error)
    ensures r.Ok? ==> Height(r.value) == Height(df)
    ensures r.Ok? ==> Names(r.value) == Merged(Names(df), newColNames)
    ensures r.Ok? ==> Without(r.value, Targets(Many(newColNames))) == Without(df, Targets(Many(newColNames)))
    ensures r.Ok? ==> forall i, row :: 0 <= i < |newColNames| && IsLast(newColNames, i) && 0 <= row < Height(df) ==>
      Subscript(f(Col(df, colName)[row]), i) == Ok(Col(r.value, newColNames[i])[row])
  {
    if colName !in Names(df) then Err(ColumnNotFound)
    else
      var results := Apply(f, Col(df, colName));
      UnpackOk(results, newColNames);
      match Unpack(results, newColNames)
      case Err(e) => Err(e)
      case Ok(cols) =>
        UnpackedInto(df, colName, newColNames, f, cols);
        Ok(WithColumns(df, cols))
  }

  /** Every unpacked column is named by the target list. */
  lemma UnpackTargets(results: seq<Value>, names: seq<string>)
    requires Unpack(results, names).Ok?
    ensures NamesIn(Unpack(results, names).value, Targets(Many(names)))
  {
    var cols := Unpack(results, names).value;
    UnpackShape(results, names);
    forall k | 0 <= k < |cols| ensures cols[k].name in Targets(Many(names)) {
      assert Names(cols)[k] == cols[k].name;
    }
  }

  /** What `with_columns` over the unpacked columns leaves in the frame. */
  lemma {:induction false} UnpackedInto(df: Frame, colName: string, names: seq<string>,
                                        f: Value -> Value, cols: seq<Column>)
    requires colName in Names(df)
    requires Unpack(Apply(f, Col(df, colName)), names) == Ok(cols)
    ensures AllOfLength(cols, Height(df))
    ensures Names(WithColumns(df, cols)) == Merged(Names(df), names)
    ensures Without(WithColumns(df, cols), Targets(Many(names))) == Without(df, Targets(Many(names)))
    ensures forall i, row :: 0 <= i < |names| && IsLast(names, i) && 0 <= row < Height(df) ==>
      names[i] in Names(WithColumns(df, cols)) &&
      Subscript(f(Col(df, colName)[row]), i) == Ok(Col(WithColumns(df, cols), names[i])[row])
  {
    var results := Apply(f, Col(df, colName));
    UnpackShape(results, names);
    MergedDeduplicated(Names(df), names);
    var out := WithColumns(df, cols);
    var drop := Targets(Many(names));
    UnpackTargets(results, names);
    WithColumnsWithout(df, cols, drop);
    forall i | 0 <= i < |names| && IsLast(names, i)
      ensures names[i] in Names(out)
      ensures forall row :: 0 <= row < Height(df) ==>
        Subscript(f(Col(df, colName)[row]), i) == Ok(Col(out, names[i])[row])
    {
      UnpackedColumn(df, colName, names, f, cols, i);
    }
  }

  /** Target `names[i]` (its last occurrence) holds item i of every result. */
  lemma UnpackedColumn(df: Frame, colName: string, names: seq<string>,
                       f: Value -> Value, cols: seq<Column>, i: nat)
    requires colName in Names(df)
    requires Unpack(Apply(f, Col(df, colName)), names) == Ok(cols)
    requires AllOfLength(cols, Height(df)) && NoDuplicates(Names(cols))
    requires i < |names| && IsLast(names, i)
    ensures names[i] in Names(WithColumns(df, cols))
    ensures forall row :: 0 <= row < Height(df) ==>
      Subscript(f(Col(df, colName)[row]), i) == Ok(Col(WithColumns(df, cols), names[i])[row])
  {
    var results := Apply(f, Col(df, colName));
    UnpackCol(results, names, i);
    var k := IndexOf(cols, names[i]);
    WithColumnsCol(df, cols, k);
    var picked := Pick(results, i).value;
    assert Col(WithColumns(df, cols), names[i]) == picked;
    forall row | 0 <= row < Height(df)
      ensures Subscript(f(Col(df, colName)[row]), i) == Ok(picked[row])
    {
      assert results[row] == f(Col(df, colName)[row]);
    }
  }

  // ---------------------------------------------------------------------
  // Several source columns, one target column

  /** The record `pl.struct(names)` holds at `row`: each source column's name
      and value, in the order the names are given. */
  function Record(df: Frame, names: seq<string>, row: nat): Value
    requires forall k :: 0 <= k < |names| ==> names[k] in Names(df)
    requires row < Height(df)
  {
    Struct(seq(|names|, k requires 0 <= k < |names| => (names[k], Col(df, names[k])[row])))
  }

  /** The struct row built from gathered columns. */
  function Pack(cols: seq<Column>, row: nat): Value
    requires forall k :: 0 <= k < |cols| ==> row < |cols[k].values|
  {
    Struct(seq(|cols|, k requires 0 <= k < |cols| => (cols[k].name, cols[k].values[row])))
  }

  /** Packing the gathered columns gives the record of the named columns. */
  lemma {:induction false} PackIsRecord(df: Frame, colNames: seq<string>, cols: seq<Column>)
    requires Columns(df, colNames) == Ok(cols)
    ensures AllOfLength(cols, Height(df))
    ensures forall row :: 0 <= row < Height(df) ==> Pack(cols, row) == Record(df, colNames, row)
  {
    forall row | 0 <= row < Height(df) ensures Pack(cols, row) == Record(df, colNames, row) {
      assert forall k :: 0 <= k < |cols| ==> cols[k].name == Names(cols)[k] == colNames[k];
    }
  }

  /** `_map_nto1_function`: column `newColName` holds, row by row, `f` of the
      record of the source columns' values. */
  function MapNTo1(df: Frame, colNames: seq<string>, newColName: string,
                   f: Value -> Value): (r: Result<Frame>)
    ensures r.Ok? <==> forall k :: 0 <= k < |colNames| ==> colNames[k] in Names(df)
    ensures r.Err? ==> r.error == ColumnNotFound
    ensures r.Ok? ==> Height(r.value) == Height(df)
    ensures r.Ok? ==> Names(r.value) == AppendNew(Names(df), newColName)
    ensures r.Ok? ==> Without(r.value, {newColName}) == Without(df, {newColName})
    ensures r.Ok? ==> forall row :: 0 <= row < Height(df) ==>
      Col(r.value, newColName)[row] == f(Record(df, colNames, row))
  {
    var cols :- Columns(df, colNames);
    var h := Height(df);
    assert AllOfLength(cols, h);
    var packed := seq(h, row requires 0 <= row < h => f(Pack(cols, row)));
    PackIsRecord(df, colNames, cols);
    Ok(WithColumn(df, Column(newColName, packed)))
  }

  // ---------------------------------------------------------------------
  // Several source columns, several target columns

  /** `_map_ntom_function`: not implemented, whatever the arguments. */
  function MapNToM(df: Frame, colNames: seq<string>, newColNames: seq<string>,
                   f: Value -> Value): Result<Frame>
  {
    Err(NotImplementedError)
  }

  // ---------------------------------------------------------------------
  // Dispatch

  /** `map_col`. The dictionary check comes first; a string or list argument
      that is neither leads, under a callable, to no branch at all and the call
      returns None. Under a dictionary, a non-string source or target reaches
      the library, which rejects it. */
  function MapColumn(df: Frame, mapFrom: NameArg, mapTo: NameArg,
                     mapping: Mapping, default: Value): Outcome
  {
    match mapping
    case Dict(table) =>
      if mapFrom.Many? then Raised(ValueError)
      else if mapFrom.One? && mapTo.One? then
        Lift(MapColDict(df, mapFrom.name, mapTo.name, table, default))
      else Raised(TypeError)
    case Callable(f) =>
      if mapFrom.One? then
        if mapTo.One? then Lift(Map1To1(df, mapFrom.name, mapTo.name, f))
        else if mapTo.Many? then Lift(Map1ToN(df, mapFrom.name, mapTo.names, f))
        else ReturnedNone
      else if mapFrom.Many? then
        if mapTo.One? then Lift(MapNTo1(df, mapFrom.names, mapTo.name, f))
        else if mapTo.Many? then Lift(MapNToM(df, mapFrom.names, mapTo.names, f))
        else ReturnedNone
      else ReturnedNone
    case NotCallable => ReturnedNone
  }

  // ---------------------------------------------------------------------
  // Properties of the dispatch

  /** `ValueError` is raised exactly when a dictionary is given with a list of
      source columns. */
  lemma MapColumnValueError(df: Frame, mapFrom: NameArg, mapTo: NameArg,
                            mapping: Mapping, default: Value)
    ensures MapColumn(df, mapFrom, mapTo, mapping, default) == Raised(ValueError)
      <==> mapping.Dict? && mapFrom.Many?
  {
  }

  /** `NotImplementedError` is raised exactly for a callable with lists on
      both sides. */
  lemma MapColumnNotImplemented(df: Frame, mapFrom: NameArg, mapTo: NameArg,
                                mapping: Mapping, default: Value)
    ensures MapColumn(df, mapFrom, mapTo, mapping, default) == Raised(NotImplementedError)
      <==> mapping.Callable? && mapFrom.Many? && mapTo.Many?
  {
  }

  /** The call returns None exactly when the mapping is not a dictionary and
      the arguments select none of the four function modes. */
  lemma MapColumnNone(df: Frame, mapFrom: NameArg, mapTo: NameArg,
                      mapping: Mapping, default: Value)
    ensures MapColumn(df, mapFrom, mapTo, mapping, default) == ReturnedNone
      <==> !mapping.Dict? && (mapping.NotCallable? || mapFrom.Other? || mapTo.Other?)
  {
  }

  /** The call returns a frame exactly when a mode is selected whose source
      columns exist (and, splitting one column, whose results can be indexed
      at every target position). */
  lemma MapColumnReturns(df: Frame, mapFrom: NameArg, mapTo: NameArg,
                         mapping: Mapping, default: Value)
    ensures MapColumn(df, mapFrom, mapTo, mapping, default).Returned? <==>
      (mapping.Dict? && mapFrom.One? && mapTo.One? && mapFrom.name in Names(df)) ||
      (mapping.Callable? && mapFrom.One? && mapTo.One? && mapFrom.name in Names(df)) ||
      (mapping.Callable? && mapFrom.One? && mapTo.Many? && Map1ToN(df, mapFrom.name, mapTo.names, mapping.f).Ok?) ||
      (mapping.Callable? && mapFrom.Many? && mapTo.One? &&
        forall k :: 0 <= k < |mapFrom.names| ==> mapFrom.names[k] in Names(df))
  {
  }

  /** A returned frame has the height of the input, its columns followed by the
      new target names in order of first appearance, and every column that is
      not a target left as it was. */
  lemma MapColumnShape(df: Frame, mapFrom: NameArg, mapTo: NameArg,
                       mapping: Mapping, default: Value)
    requires MapColumn(df, mapFrom, mapTo, mapping, default).Returned?
    ensures var out := MapColumn(df, mapFrom, mapTo, mapping, default).frame;
      Height(out) == Height(df) &&
      Names(out) == Merged(Names(df), TargetList(mapTo)) &&
      Without(out, Targets(mapTo)) == Without(df, Targets(mapTo))
  {
    if mapTo.One? {
      MergedSnoc(Names(df), [], mapTo.name);
      assert [] + [mapTo.name] == [mapTo.name];
    }
  }

  /** Splitting a column succeeds whenever every result is a tuple with at
      least one item per target, and target i then holds item i. */
  lemma Map1ToNTuples(df: Frame, colName: string, newColNames: seq<string>, f: Value -> Value)
    requires colName in Names(df)
    requires forall row :: 0 <= row < Height(df) ==>
      f(Col(df, colName)[row]).Tuple? && |f(Col(df, colName)[row]).items| >= |newColNames|
    ensures Map1ToN(df, colName, newColNames, f).Ok?
    ensures forall i, row :: 0 <= i < |newColNames| && IsLast(newColNames, i) && 0 <= row < Height(df) ==>
      Col(Map1ToN(df, colName, newColNames, f).value, newColNames[i])[row] == f(Col(df, colName)[row]).items[i]
  {
    var src := Col(df, colName);
    forall i, row | 0 <= i < |newColNames| && 0 <= row < Height(df)
      ensures Subscript(f(src[row]), i) == Ok(f(src[row]).items[i])
    {
    }
  }

  /** A dictionary lookup on a two-row frame, one key missing. */
  lemma MapColumnDictExample()
    ensures MapColumn([Column("a", [Int(1), Int(2)])], One("a"), One("b"),
                      Dict(map[Int(1) := Str("x")]), Null)
      == Returned([Column("a", [Int(1), Int(2)]), Column("b", [Str("x"), Null])])
  {
    var df: Frame := [Column("a", [Int(1), Int(2)])];
    assert Names(df) == ["a"];
    var table := map[Int(1) := Str("x")];
    assert Col(df, "a") == [Int(1), Int(2)];
    assert LookupOr(table, Null, Int(1)) == Str("x");
    assert LookupOr(table, Null, Int(2)) == Null;
    var mapped := seq(2, row requires 0 <= row < 2 => LookupOr(table, Null, [Int(1), Int(2)][row]));
    assert mapped == [Str("x"), Null];
    assert IndexOf(df, "b") == 1;
    assert Upsert(df, Column("b", mapped)) == df + [Column("b", mapped)];
  }
}
