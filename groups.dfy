/** Groups are not stored: they are read off the records. Two listings are
    derived, the distinct groups in the order of their first record (what
    group reordering works on) and the sorted listing shown to the user. */
module Groups {
  import opened Sequences
  import opened StringOrder
  import opened Dimensions

  /** The group names occurring in the records. */
  function GroupSet(dims: seq<Record>): set<string> {
    set i | 0 <= i < |dims| :: dims[i].group
  }

  /** The position of the first record of group `g`. */
  function FirstIndex(dims: seq<Record>, g: string): (k: nat)
    requires g in GroupSet(dims)
    ensures k < |dims| && dims[k].group == g
    ensures forall j :: 0 <= j < k ==> dims[j].group != g
    decreases |dims|
  {
    if dims[0].group == g then 0
    else
      assert g in GroupSet(dims[1..]) by {
        var i :| 0 <= i < |dims| && dims[i].group == g;
        assert dims[1..][i - 1] == dims[i];
      }
      1 + FirstIndex(dims[1..], g)
  }

  /** The distinct groups, each listed when its first record is reached. */
  function FirstOccurrence(dims: seq<Record>): seq<string>
    decreases |dims|
  {
    if dims == [] then []
    else
      var prior := FirstOccurrence(dims[..|dims| - 1]);
      var g := dims[|dims| - 1].group;
      if g in prior then prior else prior + [g]
  }

  /** Appending a record adds its group to the group set. */
  lemma GroupSetAppend(p: seq<Record>, x: Record)
    ensures GroupSet(p + [x]) == GroupSet(p) + {x.group}
  {
    var dims := p + [x];
    forall g | g in GroupSet(dims) ensures g in GroupSet(p) + {x.group} {
      var i :| 0 <= i < |dims| && dims[i].group == g;
      if i < |p| {
        assert p[i] == dims[i];
      }
    }
    forall g | g in GroupSet(p) ensures g in GroupSet(dims) {
      var i :| 0 <= i < |p| && p[i].group == g;
      assert dims[i] == p[i];
    }
    assert dims[|p|] == x;
  }

  /** A record appended after a group's first record does not move it. */
  lemma FirstIndexKept(p: seq<Record>, x: Record, g: string)
    requires g in GroupSet(p)
    ensures g in GroupSet(p + [x]) && FirstIndex(p + [x], g) == FirstIndex(p, g)
  {
    GroupSetAppend(p, x);
    var k' := FirstIndex(p, g);
    assert (p + [x])[k'] == p[k'];
    var k := FirstIndex(p + [x], g);
    assert k <= k';
    assert (p + [x])[k] == p[k];
  }

  /** An appended record of a new group is that group's first record. */
  lemma FirstIndexOfNewGroup(p: seq<Record>, x: Record)
    requires x.group !in GroupSet(p)
    ensures x.group in GroupSet(p + [x]) && FirstIndex(p + [x], x.group) == |p|
  {
    GroupSetAppend(p, x);
    var dims := p + [x];
    assert forall j :: 0 <= j < |p| ==> dims[j] == p[j] && p[j].group in GroupSet(p);
  }

  /** The first-occurrence listing names every group exactly once, and lists
      the groups in the order of their first records. */
  lemma {:induction false} FirstOccurrenceCharacterised(dims: seq<Record>)
    ensures NoDup(FirstOccurrence(dims))
    ensures forall g :: g in FirstOccurrence(dims) <==> g in GroupSet(dims)
    ensures forall i, j :: 0 <= i < j < |FirstOccurrence(dims)| ==>
      FirstIndex(dims, FirstOccurrence(dims)[i]) < FirstIndex(dims, FirstOccurrence(dims)[j])
    decreases |dims|
  {
    if dims != [] {
      var p, x := dims[..|dims| - 1], dims[|dims| - 1];
      assert dims == p + [x];
      FirstOccurrenceCharacterised(p);
      GroupSetAppend(p, x);
      forall g | g in GroupSet(p) ensures FirstIndex(dims, g) == FirstIndex(p, g) {
        FirstIndexKept(p, x, g);
      }
      if x.group !in FirstOccurrence(p) {
        FirstIndexOfNewGroup(p, x);
      }
    }
  }

  /** The loop of `reorder_groups` that lists the groups in the order their
      first records appear. */
  method CurrentGroups(dims: seq<Record>) returns (current: seq<string>)
    ensures current == FirstOccurrence(dims)
    ensures NoDup(current)
    ensures forall g :: g in current <==> g in GroupSet(dims)
    ensures forall i, j :: 0 <= i < j < |current| ==>
      FirstIndex(dims, current[i]) < FirstIndex(dims, current[j])
  {
    current := [];
    for k := 0 to |dims|
      invariant current == FirstOccurrence(dims[..k])
    {
      assert dims[..k + 1][..k] == dims[..k];
      var group := dims[k].group;
      if group !in current {
        current := current + [group];
      }
    }
    assert dims[..|dims|] == dims;
    FirstOccurrenceCharacterised(dims);
  }

  /** `sorted(list(groups))`: the elements of a finite set of strings in
      ascending order. */
  method SortedList(groups: set<string>) returns (sorted: seq<string>)
    ensures StrictlyAscending(sorted)
    ensures forall g :: g in sorted <==> g in groups
  {
    sorted := [];
    var rest := groups;
    while rest != {}
      invariant forall g :: g in groups <==> g in sorted || g in rest
      invariant forall i :: 0 <= i < |sorted| ==> sorted[i] !in rest
      invariant StrictlyAscending(sorted)
      invariant forall i, g :: 0 <= i < |sorted| && g in rest ==> Less(sorted[i], g)
      decreases |rest|
    {
      LeastExists(rest);
      var least :| least in rest && forall g :: g in rest && g != least ==> Less(least, g);
      sorted := sorted + [least];
      rest := rest - {least};
    }
  }

  /** `get_groups`: the distinct groups of the records, in ascending order. */
  method GetGroups(dims: seq<Record>) returns (sorted: seq<string>)
    ensures StrictlyAscending(sorted)
    ensures forall g :: g in sorted <==> g in GroupSet(dims)
    ensures multiset(sorted) == multiset(FirstOccurrence(dims))
  {
    var groups: set<string> := {};
    for i := 0 to |dims|
      invariant groups == GroupSet(dims[..i])
    {
      assert GroupSet(dims[..i + 1]) == GroupSet(dims[..i]) + {dims[i].group} by {
        assert forall k :: 0 <= k < i ==> dims[..i + 1][k] == dims[..i][k];
      }
      groups := groups + {dims[i].group};
    }
    assert dims[..|dims|] == dims;
    sorted := SortedList(groups);
    AscendingNoDup(sorted);
    FirstOccurrenceCharacterised(dims);
    SameElementsRearranged(sorted, FirstOccurrence(dims));
  }

  /** The listing `get_groups` returns is the only strictly ascending list of
      the record groups. */
  lemma SortedGroupsUnique(dims: seq<Record>, a: seq<string>, b: seq<string>)
    requires StrictlyAscending(a) && forall g :: g in a <==> g in GroupSet(dims)
    requires StrictlyAscending(b) && forall g :: g in b <==> g in GroupSet(dims)
    ensures a == b
  {
    AscendingUnique(a, b);
  }
}
