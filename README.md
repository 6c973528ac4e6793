# Saved dimensions of the √2 scale calculator, in Dafny

The web app `scaleArt.py` multiplies a number by √2 and lets the user save
named results ("dimensions"). Each saved dimension is a record
`{name, value, group}`. The records live as one ordered list in a JSON file.
Every operation loads the whole list. An edit changes it in memory and
writes it back. `get_groups` writes nothing, and neither does a reorder that
is refused (scaleArt.py:84, 92, 118, 129, 133). Records are addressed by
position. Groups are not stored anywhere. They are read off the records in
two ways:

- by first occurrence. The page shows its group panels in this order
  (scaleArt.py:694-703). The drag-and-drop sends positions in that panel list
  (scaleArt.py:390-392), and `reorder_groups` reads them against the same
  order.
- sorted, which is what `get_groups` returns. That list only fills the
  group drop-downs (scaleArt.py:646, 743).

This project models the in-memory edit step of each operation. An operation
becomes a method from the loaded list (`seq<Record>`) to the list it writes.
When the source writes nothing, the method returns its input unchanged. When
the source answers with a success flag, the method returns it as `ok`.

- `dimensions.dfy` (module `Dimensions`): the record type and the positional
  edits `add_dimension`, `delete_dimension`, `rename_dimension` and
  `update_dimension_group`. Also `reorder_dimensions`, whose loop is proved
  against `Gathered`, the list read along the given positions.
- `groups.dfy` (module `Groups`): the first-occurrence group list that
  `reorder_groups` builds, and `get_groups` (a set turned into a sorted list).
- `regrouping.dfy` (module `Regrouping`): `reorder_groups`. Its nested loop is
  proved against `Regroup`. Lemmas cover stability within each group, the
  block order of the groups and keeping every record.
- `slugs.dfy` (module `Slugs`): the group slug
  `replace(' ', '-')`, remove `/` and `.`, `lower()`, and the
  "append the slug unless already present" update of the open-group list.
- `handlers.dfy` (module `Handlers`): what `save`, `delete`, `rename`,
  `update_group` and `add_group` decide. That is which record is written,
  with which group, and which slugs go into the open-group list of the
  redirect. Form fields are parameters. A field that was not sent is `None`.
- `sequences.dfy` and `string_order.dfy`: distinctness, index permutations
  and Python's code-point string order, used by the above.

Some of the source's behaviour is reproduced on purpose, though it looks
accidental:

- Both reorder operations accept repeated indices.
  `RepeatedPositionsLoseRecords` and `RepeatedGroupsLoseRecords` show an
  accepted order that duplicates some records and drops others.
- `save` appends the new group's slug without checking whether it is already
  open (scaleArt.py:829). The other handlers do check.
  `SaveCanRepeatOpenGroup` shows the duplicate this produces.

Two details of the code that the model keeps:

- Spaces in a slug become `-`; they are not removed (scaleArt.py:829, 855,
  901, 925).
- `reorder_dimensions` returns False, before anything is written, when an
  index is out of range (scaleArt.py:88-92).

An index permutation is stated as `multiset(order) == multiset([0, ..., n-1])`.

## Model

| member | source | states |
|---|---|---|
| `Dimensions.AddDimension` | scaleArt.py:57-64 | exactly one record with the given name, value and group is appended at the end; every earlier record is unchanged |
| `Dimensions.DeleteDimension` | scaleArt.py:67-71 | an out-of-range index leaves the list unchanged; an in-range index gives length n-1, the records before it unchanged, the records after it shifted down by one in order, and exactly one copy of the deleted record removed |
| `Dimensions.RenameDimension` | scaleArt.py:74-78 | only the name of the record at `index` changes; length, value, group and all other records are unchanged; an out-of-range index changes nothing |
| `Dimensions.UpdateDimensionGroup` | scaleArt.py:98-104 | returns true iff `0 <= index < len`; on true only that record's group changes; on false the list is unchanged |
| `Dimensions.ReorderDimensions` | scaleArt.py:81-95 | succeeds iff `new_order` has the list's length and every entry is a valid position; on success result[i] == dims[new_order[i]] for every i; on failure nothing is written |
| `Dimensions.ReorderByPermutationKeepsRecords` | scaleArt.py:81-95 | when `new_order` is a permutation of 0..n-1 it passes validation and the reordered list is a permutation of the records |
| `Dimensions.RepeatedPositionsLoseRecords` | scaleArt.py:87-92 | repeated positions are accepted: order [0, 0] on two records duplicates the first and loses the second |
| `Groups.FirstIndex` | scaleArt.py:122-125 | the position of the first record of a group: that record has the group, and no earlier record does |
| `Groups.FirstOccurrenceCharacterised` | scaleArt.py:121-125 | the first-occurrence group list has no duplicates, contains exactly the groups present in the records, and orders them by the position of their first record |
| `Groups.CurrentGroups` | scaleArt.py:121-125 | the `current_groups` loop computes the first-occurrence list: duplicate-free, exactly the record groups, ordered by first record |
| `Groups.SortedList` | scaleArt.py:112 | `sorted(list(groups))`: strictly ascending in Python's string order, with exactly the elements of the set |
| `Groups.GetGroups` | scaleArt.py:107-112 | strictly ascending (sorted, no duplicates); its elements are exactly the groups of the records; it is a rearrangement of the first-occurrence list used by `reorder_groups` |
| `Groups.SortedGroupsUnique` | scaleArt.py:107-112 | only one strictly ascending list has exactly the record groups, so the listing is fully determined |
| `StringOrder.Total` | scaleArt.py:112 | Python's string order is total: two different strings compare one way or the other |
| `StringOrder.Transitive` | scaleArt.py:112 | Python's string order is transitive |
| `StringOrder.LeastExists` | scaleArt.py:112 | every non-empty set of group names has a least element, which makes sorting well defined |
| `Regrouping.OfGroup` | scaleArt.py:143-145 | the records of one group: all carry that group, all come from the list, no more of them than records |
| `Regrouping.Regroup` | scaleArt.py:141-145 | every record of the regrouped list comes from the list and carries one of the chosen groups |
| `Regrouping.InRange` | scaleArt.py:131-133 | the validation loop accepts iff every entry of `new_order` is a position in the group list |
| `Regrouping.GroupsInOrder` | scaleArt.py:135-138 | `new_groups[i]` is `current_groups[new_order[i]]` for every i |
| `Regrouping.RegroupAll` | scaleArt.py:141-145 | the outer loop builds the records of each group of `new_groups` in turn, as `Regroup` specifies |
| `Regrouping.AppendGroup` | scaleArt.py:143-145 | the inner loop appends exactly the records of one group, in list order |
| `Regrouping.RegroupOfGroup` | scaleArt.py:141-145 | along distinct groups, each chosen group's records appear in their original relative order; records of unchosen groups are dropped |
| `Regrouping.RegroupPermutes` | scaleArt.py:141-145 | along distinct groups that cover every record's group, the result is a permutation of the records |
| `Regrouping.RegroupBlocks` | scaleArt.py:141-145 | along distinct groups, every record of an earlier-listed group comes before every record of a later-listed one |
| `Regrouping.ReorderGroups` | scaleArt.py:115-148 | fails (nothing written) iff the list is empty, `new_order` does not have one entry per distinct group, or an entry is out of range; on success the result concatenates, over `new_order`, the records of each selected group; with a permutation it keeps every record and each group's order |
| `Regrouping.PermutedGroups` | scaleArt.py:135-138 | `new_groups` built from a permutation names every group exactly once |
| `Regrouping.ReorderGroupsByPermutation` | scaleArt.py:115-148 | for a permutation `new_order`: same length, a permutation of the records, each group's internal order kept, and the groups in contiguous blocks in the new order |
| `Regrouping.RepeatedGroupsLoseRecords` | scaleArt.py:131-138 | repeated group indices are accepted: with groups G, H the order [0, 0] lists G's records twice and loses H's |
| `Slugs.ReplaceChar` | scaleArt.py:855 | `replace(' ', '-')`: same length, exactly the matching characters replaced |
| `Slugs.RemoveChar` | scaleArt.py:855 | `replace(c, '')`: `c` no longer occurs, every other character is kept, nothing else added |
| `Slugs.Lower` | scaleArt.py:855 | `lower()` on ASCII capitals: each character mapped to its lower-case form, one for one |
| `Slugs.Slug` | scaleArt.py:855 | the slug expression (also at lines 829, 901 and 925): the slug contains no space, `/`, `.` or ASCII capital, and is no longer than the group name |
| `Slugs.SlugIdempotent` | scaleArt.py:855 | slugging a slug changes nothing |
| `Slugs.AddOpen` | scaleArt.py:856-857 | append-if-absent: a slug already in the list leaves it unchanged, an absent one is appended at the end; the slug is then present and a duplicate-free list stays duplicate-free |
| `Handlers.IsSpace` | scaleArt.py:826 | the white-space set of Python's `strip()`: among ASCII exactly space, tab, line feed, vertical tab, form feed, carriage return and the separators 0x1C-0x1F; never a letter or digit |
| `Handlers.TrimStart` | scaleArt.py:826 | leading part of `strip()`: a suffix of the input, everything dropped is white space, and it does not start with white space |
| `Handlers.TrimEnd` | scaleArt.py:826 | trailing part of `strip()`: a prefix of the input, everything dropped is white space, and it does not end with white space |
| `Handlers.Strip` | scaleArt.py:826-827 | `strip()` is empty iff the input is all white space, and otherwise neither starts nor ends with white space |
| `Handlers.ChosenGroup` | scaleArt.py:818-831 | the selected group is the `group` field ("Default" if absent); the choice "new" becomes the stripped `new_group`, or "Default" when that is blank, so it is never empty and never padded with white space |
| `Handlers.Save` | scaleArt.py:814-834 | a record is appended iff a non-empty name and a value were sent, with the chosen group; a created group's slug is appended to the open groups unconditionally |
| `Handlers.SaveCanRepeatOpenGroup` | scaleArt.py:829 | `Save` creating group "team" while "team" is open returns the open groups ["team", "team"] |
| `Handlers.Delete` | scaleArt.py:843-857 | deletes as `delete_dimension` does; the deleted record's non-empty group is opened if not already open; a duplicate-free open list stays duplicate-free |
| `Handlers.Rename` | scaleArt.py:866-872 | renames the record at `index` iff a non-empty name was sent and the index is in range; the open groups pass through unchanged |
| `Handlers.UpdateGroup` | scaleArt.py:889-908 | the record at `index` gets the chosen group unless that is empty; a created group is opened only if not already open, so a duplicate-free open list stays duplicate-free |
| `Handlers.AddGroup` | scaleArt.py:917-927 | a non-empty group name's slug is opened if not already open; nothing is saved; a duplicate-free open list stays duplicate-free |

## Left out

- Loading and saving the JSON file (scaleArt.py:12-54) is not modelled. That
  covers the legacy name-to-value format, the `float()` coercion with its 0.0
  fallback, backfilling a missing group with "Default", and silent recovery
  from malformed JSON. The list is a parameter and the result is the list
  that would be written. Because of the backfill, `dim.get('group', 'Default')`
  is the record's `group` field.
- Dimensions.AddDimension: stores the value it is given. The
  `round(float(value), 2)` of scaleArt.py:61 is floating-point arithmetic and
  is not modelled. `value` is a `real` that no operation inspects.
- Handlers.Save: takes the value field already parsed, `None` when it is absent or empty. A value that `float()`
  cannot parse raises an error in the source, and that path is not modelled.
- Slugs.Lower: lowers the ASCII letters A-Z only, one character for one.
  Python's `str.lower()` also lowers other Unicode letters, and some of
  them become two code points: U+0130 becomes `i` followed by U+0307.
- Slugs.Slug: "lower case" is proved only as "no ASCII capital remains".
  The bound `|s| <= |group|` holds for the model's lowering only. Python's
  `lower()` can make a string longer (U+0130), so a real slug can be longer
  than its group name.
- The √2 computation of the index page (scaleArt.py:788-812) is left out. It
  is floating-point arithmetic plus template rendering.
- Flask routing, `request` access, `url_for`/`redirect` URL building and
  `jsonify` responses are left out. The handlers take their fields as
  parameters and return the written list and the open-group list. The
  `reorder` and `reorder_groups` routes (scaleArt.py:880-886, 935-941) are
  left out too: they answer `{'success': False}` without calling the
  operation when the request body is missing or has no `order`, and
  otherwise pass `order` to the operations modelled above.
- JSON `order` entries that are not integers are not modelled. `new_order`
  is a `seq<int>`.
- The HTML/CSS/JavaScript template (scaleArt.py:151-786) is left out. That
  includes the client-side drag-and-drop. It is presentation code that runs
  in the browser.
- Concurrent requests are not modelled. Two requests can each load the same
  list, and the later save silently wins. The source has no locking, and the
  model treats each operation as one step from the loaded list to the saved
  list.
