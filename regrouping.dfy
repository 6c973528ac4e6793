/** `reorder_groups`: the records are rearranged so that the groups follow a
    new order, each group's records kept together and in their old relative
    order. */
module Regrouping {
  import opened Sequences
  import opened Dimensions
  import opened Groups

  /** The records of group `g`, in their original relative order. */
  function OfGroup(dims: seq<Record>, g: string): (r: seq<Record>)
    ensures |r| <= |dims|
    ensures forall k :: 0 <= k < |r| ==> r[k].group == g && r[k] in dims
    decreases |dims|
  {
    if dims == [] then []
    else
      var last := dims[|dims| - 1];
      OfGroup(dims[..|dims| - 1], g) + (if last.group == g then [last] else [])
  }

  /** For each group of `gs` in turn, all records of that group. */
  function Regroup(dims: seq<Record>, gs: seq<string>): (r: seq<Record>)
    ensures forall k :: 0 <= k < |r| ==> r[k].group in gs && r[k] in dims
    decreases |gs|
  {
    if gs == [] then []
    else Regroup(dims, gs[..|gs| - 1]) + OfGroup(dims, gs[|gs| - 1])
  }

  /** Every group's records appear in `r` in the same relative order as in
      `dims`. */
  ghost predicate SameOrderWithinGroups(r: seq<Record>, dims: seq<Record>) {
    forall g :: OfGroup(r, g) == OfGroup(dims, g)
  }

  /** Every record of a group listed earlier in `gs` stands before every
      record of a group listed later. */
  predicate GroupsInBlocks(r: seq<Record>, gs: seq<string>) {
    forall a, b, p, q ::
      (0 <= a < b < |gs| && 0 <= p < |r| && 0 <= q < |r| &&
       r[q].group == gs[a] && r[p].group == gs[b]) ==> q < p
  }

  lemma {:induction false} OfGroupAppend(a: seq<Record>, b: seq<Record>, g: string)
    ensures OfGroup(a + b, g) == OfGroup(a, g) + OfGroup(b, g)
    decreases |b|
  {
    if b == [] {
      assert a + b == a;
    } else {
      var b' := b[..|b| - 1];
      assert (a + b)[..|a + b| - 1] == a + b';
      OfGroupAppend(a, b', g);
    }
  }

  /** Selecting group `g` among the records of group `h` leaves all of them
      when the groups agree and none otherwise. */
  lemma {:induction false} OfGroupTwice(dims: seq<Record>, h: string, g: string)
    ensures OfGroup(OfGroup(dims, h), g) == if h == g then OfGroup(dims, g) else []
    decreases |dims|
  {
    if dims != [] {
      var p, x := dims[..|dims| - 1], dims[|dims| - 1];
      OfGroupTwice(p, h, g);
      var tail := if x.group == h then [x] else [];
      OfGroupAppend(OfGroup(p, h), tail, g);
      assert tail == [] || tail[..0] == [];
    }
  }

  /** A group no record carries selects nothing. */
  lemma OfGroupAbsent(dims: seq<Record>, g: string)
    requires g !in GroupSet(dims)
    ensures OfGroup(dims, g) == []
  {
  }

  /** Regrouping along distinct groups keeps each listed group's records in
      their original relative order, and drops the records of unlisted
      groups. */
  lemma {:induction false} RegroupOfGroup(dims: seq<Record>, gs: seq<string>, g: string)
    requires NoDup(gs)
    ensures OfGroup(Regroup(dims, gs), g) == if g in gs then OfGroup(dims, g) else []
    decreases |gs|
  {
    if gs != [] {
      var gs', h := gs[..|gs| - 1], gs[|gs| - 1];
      assert gs == gs' + [h];
      assert NoDup(gs');
      RegroupOfGroup(dims, gs', g);
      var r' := Regroup(dims, gs');
      assert Regroup(dims, gs) == r' + OfGroup(dims, h);
      OfGroupAppend(r', OfGroup(dims, h), g);
      OfGroupTwice(dims, h, g);
      assert g in gs <==> g in gs' || g == h;
      if g == h {
        assert g !in gs' by {
          forall i | 0 <= i < |gs'| ensures gs'[i] != h {
            assert gs[i] == gs'[i] && gs[|gs| - 1] == h;
          }
        }
      }
    }
  }

  /** The effect on a regrouping of one more record at the end of the list. */
  lemma {:induction false} RegroupAppendRecord(dims: seq<Record>, x: Record, gs: seq<string>)
    requires NoDup(gs)
    ensures multiset(Regroup(dims + [x], gs)) ==
      multiset(Regroup(dims, gs)) + if x.group in gs then multiset{x} else multiset{}
    decreases |gs|
  {
    if gs != [] {
      var gs', h := gs[..|gs| - 1], gs[|gs| - 1];
      assert gs == gs' + [h];
      assert NoDup(gs');
      RegroupAppendRecord(dims, x, gs');
      assert (dims + [x])[..|dims + [x]| - 1] == dims;
    }
  }

  /** Regrouping along distinct groups that cover every record's group is a
      rearrangement of the records. */
  lemma {:induction false} RegroupPermutes(dims: seq<Record>, gs: seq<string>)
    requires NoDup(gs)
    requires forall g :: g in GroupSet(dims) ==> g in gs
    ensures multiset(Regroup(dims, gs)) == multiset(dims)
    decreases |dims|
  {
    if dims != [] {
      var p, x := dims[..|dims| - 1], dims[|dims| - 1];
      assert dims == p + [x];
      GroupSetAppend(p, x);
      RegroupPermutes(p, gs);
      RegroupAppendRecord(p, x, gs);
    }
  }

  /** Appending the records of a new group after blocks of earlier groups
      keeps the groups in blocks. */
  lemma BlocksAppend(r': seq<Record>, gs': seq<string>, tail: seq<Record>, h: string)
    requires GroupsInBlocks(r', gs') && h !in gs'
    requires forall k :: 0 <= k < |r'| ==> r'[k].group in gs'
    requires forall k :: 0 <= k < |tail| ==> tail[k].group == h
    ensures GroupsInBlocks(r' + tail, gs' + [h])
  {
    var r, gs := r' + tail, gs' + [h];
    forall a, b, p, q | 0 <= a < b < |gs| && 0 <= p < |r| && 0 <= q < |r| &&
      r[q].group == gs[a] && r[p].group == gs[b]
      ensures q < p
    {
      assert gs[a] == gs'[a] && gs[a] != h;
      ConcatAt(r', tail, q);
      ConcatAt(r', tail, p);
      if b < |gs'| {
        assert gs[b] == gs'[b] && gs[b] != h;
      }
    }
  }

  /** Along distinct groups, every record of a group listed earlier stands
      before every record of a group listed later. */
  lemma {:induction false} RegroupBlocks(dims: seq<Record>, gs: seq<string>)
    requires NoDup(gs)
    ensures GroupsInBlocks(Regroup(dims, gs), gs)
    decreases |gs|
  {
    if gs != [] {
      var gs', h := gs[..|gs| - 1], gs[|gs| - 1];
      assert gs == gs' + [h];
      assert NoDup(gs') && h !in gs';
      RegroupBlocks(dims, gs');
      BlocksAppend(Regroup(dims, gs'), gs', OfGroup(dims, h), h);
    }
  }

  /** `reorder_groups`: lists the groups by first occurrence, checks `newOrder`
      against that list, and concatenates, group by group in the new order,
      the records of each group. It is refused, and nothing is written, when
      there are no records, when `newOrder` does not have one entry per group,
      or when an entry is not a position in the group list; repeated entries
      are not refused. */
  method ReorderGroups(dims: seq<Record>, newOrder: seq<int>) returns (ok: bool, r: seq<Record>)
    ensures ok <==> dims != [] && |newOrder| == |FirstOccurrence(dims)| &&
                    AllBelow(newOrder, |FirstOccurrence(dims)|)
    ensures ok ==> r == Regroup(dims, Gathered(FirstOccurrence(dims), newOrder))
    ensures ok && IsIndexPermutation(newOrder, |FirstOccurrence(dims)|) ==>
      multiset(r) == multiset(dims) && SameOrderWithinGroups(r, dims)
    ensures !ok ==> r == dims
  {
    if |dims| == 0 {
      return false, dims;
    }
    var currentGroups := CurrentGroups(dims);
    if |newOrder| != |currentGroups| {
      return false, dims;
    }
    var valid := InRange(newOrder, |currentGroups|);
    if !valid {
      return false, dims;
    }
    var newGroups := GroupsInOrder(currentGroups, newOrder);
    r := RegroupAll(dims, newGroups);
    if IsIndexPermutation(newOrder, |currentGroups|) {
      ReorderGroupsByPermutation(dims, newOrder);
    }
    ok := true;
  }

  /** The validation loop of `reorder_groups`: every entry is a position in
      a list of length `n`. */
  method InRange(newOrder: seq<int>, n: int) returns (valid: bool)
    ensures valid <==> AllBelow(newOrder, n)
  {
    for i := 0 to |newOrder|
      invariant AllBelow(newOrder[..i], n)
    {
      if newOrder[i] < 0 || newOrder[i] >= n {
        return false;
      }
    }
    assert newOrder[..|newOrder|] == newOrder;
    return true;
  }

  /** `new_groups`: the current groups read along `newOrder`. */
  method GroupsInOrder(currentGroups: seq<string>, newOrder: seq<int>)
    returns (newGroups: seq<string>)
    requires AllBelow(newOrder, |currentGroups|)
    ensures newGroups == Gathered(currentGroups, newOrder)
    ensures forall i :: 0 <= i < |newOrder| ==> newGroups[i] == currentGroups[newOrder[i]]
  {
    newGroups := [];
    for i := 0 to |newOrder|
      invariant newGroups == Gathered(currentGroups, newOrder[..i])
    {
      assert newOrder[..i + 1] == newOrder[..i] + [newOrder[i]];
      newGroups := newGroups + [currentGroups[newOrder[i]]];
    }
    assert newOrder[..|newOrder|] == newOrder;
  }

  /** The outer loop of `reorder_groups`: the records of each group of
      `newGroups` in turn. */
  method RegroupAll(dims: seq<Record>, newGroups: seq<string>) returns (r: seq<Record>)
    ensures r == Regroup(dims, newGroups)
  {
    r := [];
    for i := 0 to |newGroups|
      invariant r == Regroup(dims, newGroups[..i])
    {
      assert newGroups[..i + 1][..i] == newGroups[..i];
      r := AppendGroup(r, dims, newGroups[i]);
    }
    assert newGroups[..|newGroups|] == newGroups;
  }

  /** The inner loop of `reorder_groups`: appends, in list order, every record
      of `group`. */
  method AppendGroup(reordered: seq<Record>, dims: seq<Record>, group: string)
    returns (r: seq<Record>)
    ensures r == reordered + OfGroup(dims, group)
  {
    r := reordered;
    for j := 0 to |dims|
      invariant r == reordered + OfGroup(dims[..j], group)
    {
      assert dims[..j + 1][..j] == dims[..j];
      if dims[j].group == group {
        r := r + [dims[j]];
      }
    }
    assert dims[..|dims|] == dims;
  }

  /** Read along a permutation of their positions, the first-occurrence
      groups are again every group exactly once. */
  lemma PermutedGroups(dims: seq<Record>, newOrder: seq<int>)
    requires IsIndexPermutation(newOrder, |FirstOccurrence(dims)|)
    ensures AllBelow(newOrder, |FirstOccurrence(dims)|)
    ensures var gs := Gathered(FirstOccurrence(dims), newOrder);
      NoDup(gs) && forall g :: g in gs <==> g in GroupSet(dims)
  {
    var current := FirstOccurrence(dims);
    FirstOccurrenceCharacterised(dims);
    GatheredPermutation(current, newOrder);
    var gs := Gathered(current, newOrder);
    NoDupRearranged(gs, current);
    forall g ensures g in gs <==> g in GroupSet(dims) {
      assert g in gs <==> g in multiset(gs);
      assert g in current <==> g in multiset(current);
    }
  }

  /** When `newOrder` is a permutation of the group positions, the result of
      `reorder_groups` is a rearrangement of the records in which the groups
      follow the new order as contiguous blocks, each group keeping its
      records' relative order. */
  lemma ReorderGroupsByPermutation(dims: seq<Record>, newOrder: seq<int>)
    requires IsIndexPermutation(newOrder, |FirstOccurrence(dims)|)
    ensures |newOrder| == |FirstOccurrence(dims)| && AllBelow(newOrder, |FirstOccurrence(dims)|)
    ensures var r := Regroup(dims, Gathered(FirstOccurrence(dims), newOrder));
      multiset(r) == multiset(dims) && |r| == |dims| &&
      SameOrderWithinGroups(r, dims) &&
      GroupsInBlocks(r, Gathered(FirstOccurrence(dims), newOrder))
  {
    PermutationIsValidOrder(newOrder, |FirstOccurrence(dims)|);
    PermutedGroups(dims, newOrder);
    var gs := Gathered(FirstOccurrence(dims), newOrder);
    RegroupPermutes(dims, gs);
    var r := Regroup(dims, gs);
    assert |r| == |multiset(r)| == |multiset(dims)| == |dims|;
    forall g ensures OfGroup(r, g) == OfGroup(dims, g) {
      RegroupOfGroup(dims, gs, g);
      if g !in gs {
        OfGroupAbsent(dims, g);
      }
    }
    RegroupBlocks(dims, gs);
  }

  /** Two records of different groups list both groups, in record order. */
  lemma FirstOccurrenceOfTwo(x: Record, y: Record)
    requires x.group != y.group
    ensures FirstOccurrence([x, y]) == [x.group, y.group]
  {
    assert [x, y][..1] == [x] && [x][..0] == [];
    assert FirstOccurrence([x]) == [x.group];
    assert y.group !in [x.group];
  }

  /** Of two records of different groups, the first one's group selects it
      alone. */
  lemma OfGroupOfTwo(x: Record, y: Record)
    requires x.group != y.group
    ensures OfGroup([x, y], x.group) == [x]
  {
    assert [x, y][..1] == [x] && [x][..0] == [];
    assert OfGroup([x], x.group) == [x];
  }

  /** Listing a group twice lists its records twice. */
  lemma RegroupTwice(dims: seq<Record>, g: string)
    ensures Regroup(dims, [g, g]) == OfGroup(dims, g) + OfGroup(dims, g)
  {
    assert [g, g][..1] == [g] && [g][..0] == [];
    assert Regroup(dims, [g]) == OfGroup(dims, g);
  }

  /** Repeated entries pass validation: with groups "G" then "H", the order
      [0, 0] is accepted, lists the "G" records twice and loses "H". */
  lemma RepeatedGroupsLoseRecords()
    ensures var dims := [Record("a", 1.0, "G"), Record("b", 2.0, "H")];
      FirstOccurrence(dims) == ["G", "H"] && AllBelow([0, 0], 2) &&
      Regroup(dims, Gathered(FirstOccurrence(dims), [0, 0])) == [dims[0], dims[0]]
  {
    var x, y := Record("a", 1.0, "G"), Record("b", 2.0, "H");
    FirstOccurrenceOfTwo(x, y);
    OfGroupOfTwo(x, y);
    assert Gathered(["G", "H"], [0, 0]) == ["G", "G"];
    RegroupTwice([x, y], "G");
  }
}
