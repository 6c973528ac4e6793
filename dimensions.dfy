/** The saved dimensions and the edits made to the loaded list before it is
    written back: add, delete, rename, change group, reorder by positions.
    Each method receives the list as loaded and returns the list as saved;
    an edit that writes nothing returns the list it was given. */
module Dimensions {
  import opened Sequences

  /** One saved measurement. `value` is the stored number (already rounded
      by the caller); a record is identified only by its position. */
  datatype Record = Record(name: string, value: real, group: string)

  /** The group a record gets when none is chosen. */
  const DefaultGroup: string := "Default"

  /** Appends one record at the end; everything before it is kept. */
  method AddDimension(dims: seq<Record>, name: string, value: real, group: string := DefaultGroup)
    returns (r: seq<Record>)
    ensures |r| == |dims| + 1 && r[..|dims|] == dims
    ensures r[|dims|].name == name && r[|dims|].value == value && r[|dims|].group == group
  {
    r := dims + [Record(name, value, group)];
  }

  /** Removes the record at `index` when that is a position of the list;
      any other index leaves the list as it was. */
  method DeleteDimension(dims: seq<Record>, index: int) returns (r: seq<Record>)
    ensures !(0 <= index < |dims|) ==> r == dims
    ensures 0 <= index < |dims| ==>
      |r| == |dims| - 1 && r[..index] == dims[..index] && r[index..] == dims[index + 1..]
    ensures 0 <= index < |dims| ==> multiset(r) + multiset{dims[index]} == multiset(dims)
  {
    r := dims;
    if 0 <= index < |dims| {
      r := dims[..index] + dims[index + 1..];
      assert dims == dims[..index] + [dims[index]] + dims[index + 1..];
    }
  }

  /** Sets the name of the record at `index` when that is a position of the
      list; its value and group and every other record stay as they were. */
  method RenameDimension(dims: seq<Record>, index: int, newName: string) returns (r: seq<Record>)
    ensures |r| == |dims|
    ensures forall k :: 0 <= k < |dims| && k != index ==> r[k] == dims[k]
    ensures 0 <= index < |dims| ==>
      r[index].name == newName && r[index].value == dims[index].value && r[index].group == dims[index].group
    ensures !(0 <= index < |dims|) ==> r == dims
  {
    r := dims;
    if 0 <= index < |dims| {
      r := dims[index := dims[index].(name := newName)];
    }
  }

  /** Sets the group of the record at `index`, reporting whether `index` was
      a position of the list; on failure the list is left as it was. */
  method UpdateDimensionGroup(dims: seq<Record>, index: int, newGroup: string)
    returns (ok: bool, r: seq<Record>)
    ensures ok <==> 0 <= index < |dims|
    ensures |r| == |dims|
    ensures forall k :: 0 <= k < |dims| && k != index ==> r[k] == dims[k]
    ensures ok ==>
      r[index].group == newGroup && r[index].name == dims[index].name && r[index].value == dims[index].value
    ensures !ok ==> r == dims
  {
    if 0 <= index < |dims| {
      r := dims[index := dims[index].(group := newGroup)];
      return true, r;
    }
    return false, dims;
  }

  /** Builds the list whose i-th record is the old record at `newOrder[i]`.
      It is refused, and nothing is written, when `newOrder` has a different
      length from the list or names a position outside it; repeated
      positions are not refused. */
  method ReorderDimensions(dims: seq<Record>, newOrder: seq<int>) returns (ok: bool, r: seq<Record>)
    ensures ok <==> |newOrder| == |dims| && AllBelow(newOrder, |dims|)
    ensures ok ==> |r| == |dims| && forall i :: 0 <= i < |r| ==> r[i] == dims[newOrder[i]]
    ensures ok ==> r == Gathered(dims, newOrder)
    ensures !ok ==> r == dims
  {
    if |newOrder| != |dims| {
      return false, dims;
    }
    var reordered := [];
    for i := 0 to |newOrder|
      invariant AllBelow(newOrder[..i], |dims|)
      invariant reordered == Gathered(dims, newOrder[..i])
    {
      var idx := newOrder[i];
      if 0 <= idx < |dims| {
        assert newOrder[..i + 1] == newOrder[..i] + [idx];
        reordered := reordered + [dims[idx]];
      } else {
        return false, dims;
      }
    }
    assert newOrder[..|newOrder|] == newOrder;
    return true, reordered;
  }

  /** A successful reorder along a true permutation of the positions keeps
      every record exactly once. */
  lemma ReorderByPermutationKeepsRecords(dims: seq<Record>, newOrder: seq<int>)
    requires IsIndexPermutation(newOrder, |dims|)
    ensures |newOrder| == |dims| && AllBelow(newOrder, |dims|)
    ensures multiset(Gathered(dims, newOrder)) == multiset(dims)
  {
    PermutationIsValidOrder(newOrder, |dims|);
    GatheredPermutation(dims, newOrder);
  }

  /** Repeated positions pass validation: [0, 0] on a two-record list is
      accepted, copies the first record twice and loses the second. */
  lemma RepeatedPositionsLoseRecords()
    ensures var dims := [Record("a", 1.0, DefaultGroup), Record("b", 2.0, DefaultGroup)];
      |[0, 0]| == |dims| && AllBelow([0, 0], |dims|) &&
      Gathered(dims, [0, 0]) == [dims[0], dims[0]] &&
      multiset(Gathered(dims, [0, 0])) != multiset(dims)
  {
    var dims := [Record("a", 1.0, DefaultGroup), Record("b", 2.0, DefaultGroup)];
    assert dims[1] !in Gathered(dims, [0, 0]);
    assert dims[1] in multiset(dims);
  }
}
