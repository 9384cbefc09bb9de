/**
 * `move_col`: move one column of a frame to another position. The column
 * names are copied into a list, the name at `col_from_id` is popped, it is
 * inserted again at `col_to_id`, and the frame's columns are selected in
 * that order. Indices follow Python's `list.pop` and `list.insert`.
 */
module MoveCol {
  import opened Frames

  /** The position `list.pop(i)` removes from a list of length n: a negative
      index counts from the end; anything else out of range raises. */
  function PopIndex(n: nat, i: int): (r: Result<nat>)
    ensures r.Ok? <==> -(n as int) <= i < n
    ensures r.Err? ==> r.error == IndexError
    ensures r.Ok? ==> r.value < n && (r.value == i || r.value == i + n)
  {
    if 0 <= i < n then Ok(i)
    else if -(n as int) <= i < 0 then Ok(i + n)
    else Err(IndexError)
  }

  /** The position `list.insert(i, x)` puts x at in a list of length n: a
      negative index counts from the end, and out-of-range indices are
      clamped to the ends. */
  function InsertIndex(n: nat, i: int): (k: nat)
    ensures k <= n
    ensures 0 <= i <= n ==> k == i
    ensures i > n ==> k == n
  {
    if i < 0 then (if i + n < 0 then 0 else i + n)
    else if i > n then n
    else i
  }

  function RemoveAt<T>(s: seq<T>, k: nat): (r: seq<T>)
    requires k < |s|
    ensures |r| == |s| - 1
  {
    s[..k] + s[k + 1..]
  }

  function InsertAt<T>(s: seq<T>, k: nat, x: T): (r: seq<T>)
    requires k <= |s|
    ensures |r| == |s| + 1
  {
    s[..k] + [x] + s[k..]
  }

  /** The list after `x = l.pop(from)` and `l.insert(to, x)`. */
  function Reordered<T>(s: seq<T>, from: int, to: int): (r: Result<seq<T>>)
    ensures r.Ok? <==> -|s| <= from < |s|
    ensures r.Err? ==> r.error == IndexError
    ensures r.Ok? ==> |r.value| == |s|
  {
    var k :- PopIndex(|s|, from);
    var rest := RemoveAt(s, k);
    Ok(InsertAt(rest, InsertIndex(|rest|, to), s[k]))
  }

  /** `df.select(names)`: the named columns in the given order. The library
      refuses a name listed twice or one the frame does not have. */
  function Select(df: Frame, names: seq<string>): (r: Result<Frame>)
    ensures r.Ok? <==> NoDuplicates(names) && forall k :: 0 <= k < |names| ==> names[k] in Names(df)
    ensures r.Ok? ==> Names(r.value) == names
    ensures r.Ok? ==> forall k :: 0 <= k < |names| ==> r.value[k].values == Col(df, names[k])
  {
    if !NoDuplicates(names) then Err(DuplicateError)
    else
      match Columns(df, names)
      case Err(e) => Err(e)
      case Ok(cols) =>
        assert AllOfLength(cols, Height(df));
        Ok(cols)
  }

  /** `move_col` as a function of its arguments. */
  function Moved(df: Frame, colFromId: int, colToId: int): Result<Frame> {
    var order :- Reordered(Names(df), colFromId, colToId);
    Select(df, order)
  }

  /** The Python list `df.columns` returns, a fresh list of names that
      `move_col` changes in place. */
  class ColumnList {
    var items: seq<string>

    constructor (names: seq<string>)
      ensures items == names
    {
      items := names;
    }

    /** `list.pop(i)`. */
    method Pop(i: int) returns (r: Result<string>)
      modifies this
      ensures PopIndex(|old(items)|, i).Err? ==> r == Err(IndexError) && items == old(items)
      ensures PopIndex(|old(items)|, i).Ok? ==>
        var k := PopIndex(|old(items)|, i).value;
        r == Ok(old(items)[k]) && items == RemoveAt(old(items), k)
    {
      var k := PopIndex(|items|, i);
      if k.Err? {
        return Err(IndexError);
      }
      r := Ok(items[k.value]);
      items := items[..k.value] + items[k.value + 1..];
    }

    /** `list.insert(i, x)`. */
    method Insert(i: int, x: string)
      modifies this
      ensures items == InsertAt(old(items), InsertIndex(|old(items)|, i), x)
    {
      var k := InsertIndex(|items|, i);
      items := items[..k] + [x] + items[k..];
    }
  }

  /** `move_col(df, col_from_id, col_to_id)`. */
  method MoveColumn(df: Frame, colFromId: int, colToId: int) returns (r: Result<Frame>)
    ensures r == Moved(df, colFromId, colToId)
  {
    var columns := new ColumnList(Names(df));
    var lastCol :- columns.Pop(colFromId);
    columns.Insert(colToId, lastCol);
    r := Select(df, columns.items);
  }

  // ---------------------------------------------------------------------
  // Properties of the reordering

  lemma RemoveInsert<T>(s: seq<T>, k: nat, x: T)
    requires k <= |s|
    ensures InsertAt(s, k, x)[k] == x
    ensures RemoveAt(InsertAt(s, k, x), k) == s
  {
    var t := InsertAt(s, k, x);
    assert t[..k] == s[..k];
    assert t[k + 1..] == s[k..];
  }

  lemma InsertRemove<T>(s: seq<T>, k: nat)
    requires k < |s|
    ensures InsertAt(RemoveAt(s, k), k, s[k]) == s
  {
    var u := RemoveAt(s, k);
    assert u[..k] == s[..k];
    assert u[k..] == s[k + 1..];
  }

  /** The moved list holds the same elements, each as often as before. */
  lemma ReorderedPermutation<T>(s: seq<T>, from: int, to: int)
    requires Reordered(s, from, to).Ok?
    ensures multiset(Reordered(s, from, to).value) == multiset(s)
  {
    var k := PopIndex(|s|, from).value;
    var rest := RemoveAt(s, k);
    var j := InsertIndex(|rest|, to);
    assert s == s[..k] + [s[k]] + s[k + 1..];
    assert rest[..j] + rest[j..] == rest;
    calc {
      multiset(Reordered(s, from, to).value);
      multiset(rest[..j] + [s[k]] + rest[j..]);
      multiset(rest[..j]) + multiset([s[k]]) + multiset(rest[j..]);
      multiset(rest) + multiset([s[k]]);
      multiset(s[..k]) + multiset(s[k + 1..]) + multiset([s[k]]);
      multiset(s);
    }
  }

  /** With both indices in range, the moved element stands at the target
      index, and all others keep their relative order. */
  lemma ReorderedInRange<T>(s: seq<T>, from: int, to: int)
    requires 0 <= from < |s| && 0 <= to < |s|
    ensures Reordered(s, from, to).Ok?
    ensures Reordered(s, from, to).value[to] == s[from]
    ensures RemoveAt(Reordered(s, from, to).value, to) == RemoveAt(s, from)
  {
    var rest := RemoveAt(s, from);
    assert InsertIndex(|rest|, to) == to;
    RemoveInsert(rest, to, s[from]);
  }

  /** Moving a column onto its own position leaves the order unchanged. */
  lemma ReorderedSameIndex<T>(s: seq<T>, i: int)
    requires 0 <= i < |s|
    ensures Reordered(s, i, i) == Ok(s)
  {
    ReorderedInRange(s, i, i);
    InsertRemove(s, i);
  }

  /** The reverse move undoes a move. */
  lemma ReorderedUndo<T>(s: seq<T>, i: int, j: int)
    requires 0 <= i < |s| && 0 <= j < |s|
    ensures Reordered(s, i, j).Ok?
    ensures Reordered(Reordered(s, i, j).value, j, i) == Ok(s)
  {
    ReorderedInRange(s, i, j);
    var t := Reordered(s, i, j).value;
    assert InsertIndex(|s| - 1, i) == i;
    assert RemoveAt(t, j) == RemoveAt(s, i);
    InsertRemove(s, i);
  }

  /** A negative source index counts from the end. */
  lemma ReorderedNegativeFrom<T>(s: seq<T>, from: int, to: int)
    requires -|s| <= from < 0
    ensures Reordered(s, from, to) == Reordered(s, from + |s|, to)
  {
  }

  /** A target index at or past the last position appends the moved element. */
  lemma ReorderedPastEnd<T>(s: seq<T>, from: int, to: int)
    requires 0 <= from < |s| && to >= |s| - 1
    ensures Reordered(s, from, to) == Ok(RemoveAt(s, from) + [s[from]])
  {
    var rest := RemoveAt(s, from);
    assert PopIndex(|s|, from) == Ok(from);
    assert InsertIndex(|rest|, to) == |rest|;
    assert rest[..|rest|] == rest && rest[|rest|..] == [];
    assert InsertAt(rest, |rest|, s[from]) == rest + [s[from]];
  }

  /** Remove-then-insert on a concrete list of four names. */
  lemma ReorderedExamples()
    ensures Reordered(["A", "B", "C", "D"], 0, 2) == Ok(["B", "C", "A", "D"])
    ensures Reordered(["A", "B", "C", "D"], 3, 0) == Ok(["D", "A", "B", "C"])
    ensures Reordered(["A", "B", "C", "D"], 5, 0) == Err(IndexError)
  {
    var s := ["A", "B", "C", "D"];
    assert RemoveAt(s, 0) == ["B", "C", "D"];
    assert InsertAt(["B", "C", "D"], 2, "A") == ["B", "C", "A", "D"];
    assert RemoveAt(s, 3) == ["A", "B", "C"];
    assert InsertAt(["A", "B", "C"], 0, "D") == ["D", "A", "B", "C"];
  }

  // ---------------------------------------------------------------------
  // Properties of the frame

  lemma NoDuplicatesRemoveAt<T>(s: seq<T>, k: nat)
    requires NoDuplicates(s) && k < |s|
    ensures NoDuplicates(RemoveAt(s, k)) && s[k] !in RemoveAt(s, k)
  {
    var u := RemoveAt(s, k);
    assert forall i :: 0 <= i < |u| ==> u[i] == s[if i < k then i else i + 1];
  }

  lemma NoDuplicatesInsertAt<T>(u: seq<T>, j: nat, x: T)
    requires NoDuplicates(u) && x !in u && j <= |u|
    ensures NoDuplicates(InsertAt(u, j, x))
  {
    var t := InsertAt(u, j, x);
    assert forall i :: 0 <= i < |t| && i != j ==> t[i] == u[if i < j then i else i - 1];
  }

  /** Moving never introduces a repeated name. */
  lemma ReorderedNoDuplicates<T>(s: seq<T>, from: int, to: int)
    requires NoDuplicates(s) && Reordered(s, from, to).Ok?
    ensures NoDuplicates(Reordered(s, from, to).value)
  {
    var k := PopIndex(|s|, from).value;
    NoDuplicatesRemoveAt(s, k);
    var rest := RemoveAt(s, k);
    NoDuplicatesInsertAt(rest, InsertIndex(|rest|, to), s[k]);
  }

  /** Moving the names is moving the columns and taking their names. */
  lemma ReorderedNames(cs: seq<Column>, from: int, to: int)
    requires Reordered(cs, from, to).Ok?
    ensures Reordered(Names(cs), from, to) == Ok(Names(Reordered(cs, from, to).value))
  {
    var k := PopIndex(|cs|, from).value;
    var rest := RemoveAt(cs, k);
    var j := InsertIndex(|rest|, to);
    assert Names(rest) == RemoveAt(Names(cs), k);
    assert Names(InsertAt(rest, j, cs[k])) == InsertAt(Names(rest), j, cs[k].name);
  }

  /** Selecting the columns of a frame by the names of a rearrangement of
      them gives that rearrangement: whole columns move, data untouched. */
  lemma SelectRearranged(df: Frame, p: seq<Column>)
    requires multiset(p) == multiset(df) && NoDuplicates(Names(p))
    ensures Select(df, Names(p)) == Ok(p)
  {
    forall k | 0 <= k < |p|
      ensures p[k].name in Names(df) && Col(df, p[k].name) == p[k].values
    {
      assert p[k] in multiset(df);
      var m :| 0 <= m < |df| && df[m] == p[k];
      ColOfMember(df, m);
    }
    var r := Select(df, Names(p));
    assert r.Ok?;
    assert |r.value| == |Names(r.value)| == |p|;
    forall k | 0 <= k < |p|
      ensures r.value[k] == p[k]
    {
      assert r.value[k].name == Names(r.value)[k] == p[k].name;
      assert Names(p)[k] == p[k].name;
      assert r.value[k].values == Col(df, Names(p)[k]) == p[k].values;
    }
    assert r.value == p;
  }

  /** `move_col` succeeds exactly when the source index is one `pop` accepts,
      and then returns the frame's own columns, moved: the column at the
      source goes to the target, the others keep their relative order and
      every column keeps its data. */
  lemma MovedIsReordered(df: Frame, colFromId: int, colToId: int)
    ensures Moved(df, colFromId, colToId).Ok? <==> -|df| <= colFromId < |df|
    ensures Moved(df, colFromId, colToId).Err? ==> Moved(df, colFromId, colToId).error == IndexError
    ensures Moved(df, colFromId, colToId).Ok? ==>
      Moved(df, colFromId, colToId).value == Reordered(df, colFromId, colToId).value
  {
    if -|df| <= colFromId < |df| {
      var p := Reordered(df, colFromId, colToId).value;
      ReorderedNames(df, colFromId, colToId);
      ReorderedPermutation(df, colFromId, colToId);
      ReorderedNoDuplicates(Names(df), colFromId, colToId);
      SelectRearranged(df, p);
    }
  }
}
