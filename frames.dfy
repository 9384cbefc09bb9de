/**
 * The data frame as the two mapping utilities see it: an ordered table of
 * named columns that all have the same length (the row count) and pairwise
 * different names. The dataframe library itself is abstracted to the few
 * primitives the utilities call: reading a column by name, `with_columns`
 * (replace a column of the same name in place, otherwise append it) and
 * `select` (the named columns, in the given order).
 */
module Frames {

  /** A cell value: the Python objects the utilities store in a column or
      hand to a user function. `Tuple` stands for any indexable sequence a
      function may return, `Struct` for the record `pl.struct` builds from
      one row of several columns (field name and value, in column order). */
  datatype Value =
    | Null
    | Bool(b: bool)
    | Int(i: int)
    | Str(s: string)
    | Tuple(items: seq<Value>)
    | Struct(fields: seq<(string, Value)>)

  /** The exceptions that can leave the utilities. */
  datatype Error =
    | ValueError           // raised by map_col for a dictionary with several source columns
    | NotImplementedError  // raised for the many-to-many mode
    | IndexError           // list.pop past the end, or res[i] past the end of a result
    | TypeError            // a value that cannot be subscripted, a column name that is not a string
    | KeyError             // res[i] on a record, which is subscripted by field name
    | ColumnNotFound       // a column name the frame does not have
    | DuplicateError       // select with a name listed twice

  datatype Result<+T> = Ok(value: T) | Err(error: Error) {
    predicate IsFailure() { Err? }
    function PropagateFailure<U>(): Result<U> requires Err? { Err(error) }
    function Extract(): T requires Ok? { value }
  }

  datatype Column = Column(name: string, values: seq<Value>)

  /** The column names, in column order (`df.columns`). */
  function Names(cs: seq<Column>): (ns: seq<string>)
    ensures |ns| == |cs|
    ensures forall k :: 0 <= k < |cs| ==> ns[k] == cs[k].name
  {
    seq(|cs|, k requires 0 <= k < |cs| => cs[k].name)
  }

  predicate NoDuplicates<T(==)>(s: seq<T>) {
    forall i, j :: 0 <= i < j < |s| ==> s[i] != s[j]
  }

  /** The row count; a frame without columns has no rows. */
  function Height(cs: seq<Column>): nat {
    if cs == [] then 0 else |cs[0].values|
  }

  predicate AllOfLength(cs: seq<Column>, h: nat) {
    forall k :: 0 <= k < |cs| ==> |cs[k].values| == h
  }

  /** What the dataframe type guarantees of every frame. */
  predicate WellFormed(cs: seq<Column>) {
    NoDuplicates(Names(cs)) && AllOfLength(cs, Height(cs))
  }

  type Frame = cs: seq<Column> | WellFormed(cs) witness []

  /** Position of the first column called `name`, or |cs| when there is none. */
  function IndexOf(cs: seq<Column>, name: string): (k: nat)
    ensures k <= |cs|
    ensures k < |cs| <==> name in Names(cs)
    ensures k < |cs| ==> cs[k].name == name
    ensures forall j :: 0 <= j < k ==> cs[j].name != name
  {
    if cs == [] then 0
    else if cs[0].name == name then 0
    else 1 + IndexOf(cs[1..], name)
  }

  /** The values of the column called `name` (`df[name]`, `pl.col(name)`). */
  function Col(cs: seq<Column>, name: string): (vs: seq<Value>)
    requires name in Names(cs)
    ensures WellFormed(cs) ==> |vs| == Height(cs)
  {
    cs[IndexOf(cs, name)].values
  }

  /** In a table with unique names, reading a member column by its name
      gives exactly that column's values. */
  lemma {:induction false} ColOfMember(cs: seq<Column>, k: nat)
    requires NoDuplicates(Names(cs)) && k < |cs|
    ensures cs[k].name in Names(cs) && IndexOf(cs, cs[k].name) == k
    ensures Col(cs, cs[k].name) == cs[k].values
  {
    var n := cs[k].name;
    assert Names(cs)[k] == n;
    var j := IndexOf(cs, n);
    assert Names(cs)[j] == n;
  }

  /** `ns` with `n` appended unless it is already there. */
  function AppendNew(ns: seq<string>, n: string): seq<string> {
    if n in ns then ns else ns + [n]
  }

  /** `ns` followed by the names of `news` it does not yet hold, each once, in
      order of first appearance: the column order `with_columns` produces,
      and the key order of a Python dict filled key by key. */
  function Merged(ns: seq<string>, news: seq<string>): (r: seq<string>)
    ensures forall n :: n in r <==> n in ns || n in news
    ensures NoDuplicates(ns) ==> NoDuplicates(r)
    ensures |ns| <= |r| && r[..|ns|] == ns
  {
    if news == [] then ns
    else
      var last := |news| - 1;
      var init := Merged(ns, news[..last]);
      assert forall n :: n in news <==> n in news[..last] || n == news[last];
      AppendNew(init, news[last])
  }

  lemma {:induction false} MergedSnoc(ns: seq<string>, ms: seq<string>, n: string)
    ensures Merged(ns, ms + [n]) == AppendNew(Merged(ns, ms), n)
  {
    assert (ms + [n])[..|ms|] == ms;
  }

  /** Merging names that were already merged once into an empty key list
      changes nothing: de-duplicating first does not alter the result. */
  lemma {:induction false} MergedDeduplicated(ns: seq<string>, xs: seq<string>)
    ensures Merged(ns, Merged([], xs)) == Merged(ns, xs)
    decreases |xs|
  {
    if xs != [] {
      var last := |xs| - 1;
      var d := Merged([], xs[..last]);
      MergedDeduplicated(ns, xs[..last]);
      if xs[last] in d {
        assert Merged([], xs) == d;
        assert xs[last] in Merged(ns, xs[..last]);
      } else {
        assert Merged([], xs) == d + [xs[last]];
        MergedSnoc(ns, d, xs[last]);
      }
    }
  }

  /** The columns whose names are not in `drop`, in their order. */
  function Without(cs: seq<Column>, drop: set<string>): seq<Column> {
    if cs == [] then []
    else (if cs[0].name in drop then [] else [cs[0]]) + Without(cs[1..], drop)
  }

  lemma {:induction false} WithoutAppend(a: seq<Column>, b: seq<Column>, drop: set<string>)
    ensures Without(a + b, drop) == Without(a, drop) + Without(b, drop)
  {
    if a == [] {
      assert a + b == b;
    } else {
      assert (a + b)[0] == a[0];
      assert (a + b)[1..] == a[1..] + b;
      WithoutAppend(a[1..], b, drop);
    }
  }

  /** Overwriting a dropped column by another dropped one does not change
      what is left. */
  lemma {:induction false} WithoutUpdate(cs: seq<Column>, k: nat, c: Column, drop: set<string>)
    requires k < |cs| && cs[k].name in drop && c.name in drop
    ensures Without(cs[k := c], drop) == Without(cs, drop)
  {
    assert cs == cs[..k] + [cs[k]] + cs[k + 1..];
    assert cs[k := c] == cs[..k] + [c] + cs[k + 1..];
    WithoutAppend(cs[..k] + [cs[k]], cs[k + 1..], drop);
    WithoutAppend(cs[..k], [cs[k]], drop);
    WithoutAppend(cs[..k] + [c], cs[k + 1..], drop);
    WithoutAppend(cs[..k], [c], drop);
  }

  /** Replace the column of the same name where it stands, otherwise append:
      the update of one column by `with_columns`, and equally the assignment
      `d[name] = values` to an insertion-ordered Python dict of columns. */
  function Upsert(cs: seq<Column>, c: Column): seq<Column> {
    var k := IndexOf(cs, c.name);
    if k < |cs| then cs[k := c] else cs + [c]
  }

  /** IndexOf is determined by the names alone. */
  lemma {:induction false} IndexOfIs(cs: seq<Column>, name: string, k: nat)
    requires k <= |cs| && (k < |cs| ==> cs[k].name == name)
    requires forall j :: 0 <= j < k ==> cs[j].name != name
    ensures IndexOf(cs, name) == k
  {
  }

  /** Upsert moves no name: every name is found where it was before, and a
      new name at the end. */
  lemma {:induction false} UpsertIndexOf(cs: seq<Column>, c: Column, n: string)
    requires n in Names(cs) || n == c.name
    ensures IndexOf(Upsert(cs, c), n) == IndexOf(cs, n)
  {
    var r := Upsert(cs, c);
    var j := IndexOf(cs, n);
    assert forall i :: 0 <= i < |cs| ==> r[i].name == cs[i].name;
    if j == |cs| {
      assert r[j] == c;
    }
    IndexOfIs(r, n, j);
  }

  lemma {:induction false} UpsertNames(cs: seq<Column>, c: Column)
    ensures Names(Upsert(cs, c)) == AppendNew(Names(cs), c.name)
  {
    var r := Upsert(cs, c);
    if IndexOf(cs, c.name) < |cs| {
      assert Names(r) == Names(cs);
    } else {
      assert Names(r) == Names(cs) + [c.name];
    }
  }

  lemma {:induction false} UpsertColSelf(cs: seq<Column>, c: Column)
    ensures c.name in Names(Upsert(cs, c))
    ensures Col(Upsert(cs, c), c.name) == c.values
  {
    var r := Upsert(cs, c);
    UpsertIndexOf(cs, c, c.name);
    var k := IndexOf(cs, c.name);
    assert r[k] == c;
    assert Names(r)[k] == c.name;
  }

  lemma {:induction false} UpsertColOther(cs: seq<Column>, c: Column, n: string)
    requires n in Names(cs) && n != c.name
    ensures n in Names(Upsert(cs, c))
    ensures Col(Upsert(cs, c), n) == Col(cs, n)
  {
    var r := Upsert(cs, c);
    UpsertIndexOf(cs, c, n);
    var j := IndexOf(cs, n);
    assert r[j] == cs[j];
    assert Names(r)[j] == n;
  }

  lemma {:induction false} UpsertWithout(cs: seq<Column>, c: Column, drop: set<string>)
    requires c.name in drop
    ensures Without(Upsert(cs, c), drop) == Without(cs, drop)
  {
    var k := IndexOf(cs, c.name);
    if k < |cs| {
      WithoutUpdate(cs, k, c, drop);
    } else {
      WithoutAppend(cs, [c], drop);
      assert Without([c], drop) == [];
    }
  }

  lemma {:induction false} UpsertLengths(cs: seq<Column>, c: Column, h: nat)
    requires AllOfLength(cs, h) && |c.values| == h
    ensures AllOfLength(Upsert(cs, c), h)
  {
  }

  /** `df.with_columns(c)`: the frame with column `c` replaced or appended.
      The library refuses a column of another length; the callers here always
      pass one of the frame's height. */
  function WithColumn(df: Frame, c: Column): (out: Frame)
    requires |c.values| == Height(df)
    ensures Height(out) == Height(df)
    ensures Names(out) == AppendNew(Names(df), c.name)
    ensures Col(out, c.name) == c.values
    ensures Without(out, {c.name}) == Without(df, {c.name})
  {
    UpsertNames(df, c);
    UpsertColSelf(df, c);
    UpsertWithout(df, c, {c.name});
    UpsertLengths(df, c, Height(df));
    var r := Upsert(df, c);
    assert r != [] && Height(r) == |r[0].values|;
    assert AllOfLength(r, Height(df));
    r
  }

  predicate NamesIn(cs: seq<Column>, drop: set<string>) {
    forall k :: 0 <= k < |cs| ==> cs[k].name in drop
  }

  /** `df.with_columns([c0, c1, ...])`: the columns applied one after another.
      Polars evaluates the whole list against the original frame and refuses
      a repeated name, so this agrees with it for distinct names only; the
      one caller here passes the keys of a dict, which are distinct. */
  function WithColumns(df: Frame, cs: seq<Column>): (out: Frame)
    requires AllOfLength(cs, Height(df))
    ensures Height(out) == Height(df)
    ensures Names(out) == Merged(Names(df), Names(cs))
    decreases |cs|
  {
    if cs == [] then df
    else
      var last := |cs| - 1;
      assert Names(cs)[..last] == Names(cs[..last]);
      WithColumn(WithColumns(df, cs[..last]), cs[last])
  }

  lemma {:induction false} NamesPrefix(cs: seq<Column>, k: nat)
    requires k <= |cs|
    ensures Names(cs[..k]) == Names(cs)[..k]
  {
  }

  /** After `with_columns` with uniquely named columns, each of them can be
      read back under its name. */
  lemma {:induction false} WithColumnsCol(df: Frame, cs: seq<Column>, k: nat)
    requires AllOfLength(cs, Height(df)) && NoDuplicates(Names(cs)) && k < |cs|
    ensures cs[k].name in Names(WithColumns(df, cs))
    ensures Col(WithColumns(df, cs), cs[k].name) == cs[k].values
    decreases |cs|
  {
    var last := |cs| - 1;
    var init := WithColumns(df, cs[..last]);
    assert WithColumns(df, cs) == Upsert(init, cs[last]);
    if k == last {
      UpsertColSelf(init, cs[last]);
    } else {
      NamesPrefix(cs, last);
      WithColumnsCol(df, cs[..last], k);
      assert Names(cs)[k] != Names(cs)[last];
      UpsertColOther(init, cs[last], cs[k].name);
    }
  }

  /** A column that `with_columns` does not name keeps its values. */
  lemma {:induction false} WithColumnsKeeps(df: Frame, cs: seq<Column>, n: string)
    requires AllOfLength(cs, Height(df)) && n in Names(df) && n !in Names(cs)
    ensures n in Names(WithColumns(df, cs))
    ensures Col(WithColumns(df, cs), n) == Col(df, n)
    decreases |cs|
  {
    if cs != [] {
      var last := |cs| - 1;
      var init := WithColumns(df, cs[..last]);
      assert WithColumns(df, cs) == Upsert(init, cs[last]);
      NamesPrefix(cs, last);
      assert Names(cs)[last] == cs[last].name;
      WithColumnsKeeps(df, cs[..last], n);
      UpsertColOther(init, cs[last], n);
    }
  }

  /** Leaving out the columns `with_columns` names, the frame is unchanged:
      the other columns keep their values and their relative order. */
  lemma {:induction false} WithColumnsWithout(df: Frame, cs: seq<Column>, drop: set<string>)
    requires AllOfLength(cs, Height(df)) && NamesIn(cs, drop)
    ensures Without(WithColumns(df, cs), drop) == Without(df, drop)
    decreases |cs|
  {
    if cs != [] {
      var last := |cs| - 1;
      WithColumnsWithout(df, cs[..last], drop);
      UpsertWithout(WithColumns(df, cs[..last]), cs[last], drop);
    }
  }

  /** The named columns in the given order (the gathering done by
      `df.select(names)` and by `pl.struct(names)`); a missing name is an
      error. */
  function Columns(cs: seq<Column>, names: seq<string>): (r: Result<seq<Column>>)
    ensures r.Ok? <==> forall k :: 0 <= k < |names| ==> names[k] in Names(cs)
    ensures r.Err? ==> r.error == ColumnNotFound
    ensures r.Ok? ==> Names(r.value) == names
    ensures r.Ok? ==> forall k :: 0 <= k < |names| ==> r.value[k].values == Col(cs, names[k])
  {
    if names == [] then Ok([])
    else if names[0] !in Names(cs) then Err(ColumnNotFound)
    else
      var rest :- Columns(cs, names[1..]);
      assert forall k :: 1 <= k < |names| ==> names[k] == names[1..][k - 1];
      Ok([Column(names[0], Col(cs, names[0]))] + rest)
  }
}
