/** The part of the form handlers that decides what is saved and which group
    panels stay open: `save`, `delete`, `rename`, `update_group` and
    `add_group`. Form and query fields arrive as parameters (`None` for a
    field that was not sent); the redirect they answer with is not modelled,
    only the list of open-group slugs it carries. */
module Handlers {
  import opened Sequences
  import opened Dimensions
  import opened Slugs

  datatype Option<T> = None | Some(value: T)

  /** The characters Python's `str.isspace` accepts: among ASCII the tab,
      line feed, vertical tab, form feed, carriage return, the four
      separator controls and the space; no letter or digit. */
  predicate IsSpace(c: char)
    ensures c as int < 0x80 ==>
      (IsSpace(c) <==> c == ' ' || '\t' <= c <= '\r' || '\U{1C}' <= c <= '\U{1F}')
    ensures IsSpace(c) ==> !('0' <= c <= '9' || 'a' <= c <= 'z' || 'A' <= c <= 'Z')
  {
    ('\t' <= c <= '\r') || ('\U{1C}' <= c <= '\U{1F}') || c == ' ' ||
    c == '\U{85}' || c == '\U{A0}' || c == '\U{1680}' ||
    ('\U{2000}' <= c <= '\U{200A}') || c == '\U{2028}' || c == '\U{2029}' ||
    c == '\U{202F}' || c == '\U{205F}' || c == '\U{3000}'
  }

  /** `s.lstrip()`: drops the leading white space. */
  function TrimStart(s: string): (r: string)
    ensures |r| <= |s| && r == s[|s| - |r|..]
    ensures forall k :: 0 <= k < |s| - |r| ==> IsSpace(s[k])
    ensures r != [] ==> !IsSpace(r[0])
  {
    if s != [] && IsSpace(s[0]) then TrimStart(s[1..]) else s
  }

  /** `s.rstrip()`: drops the trailing white space. */
  function TrimEnd(s: string): (r: string)
    ensures |r| <= |s| && r == s[..|r|]
    ensures forall k :: |r| <= k < |s| ==> IsSpace(s[k])
    ensures r != [] ==> !IsSpace(r[|r| - 1])
  {
    if s != [] && IsSpace(s[|s| - 1]) then TrimEnd(s[..|s| - 1]) else s
  }

  /** `s.strip()`: empty exactly when `s` is all white space, and otherwise
      neither starting nor ending with white space. */
  function Strip(s: string): (r: string)
    ensures r != [] ==> !IsSpace(r[0]) && !IsSpace(r[|r| - 1])
    ensures r == [] <==> forall k :: 0 <= k < |s| ==> IsSpace(s[k])
  {
    TrimEnd(TrimStart(s))
  }

  /** `new_group and new_group.strip()`: the form names a new group. */
  predicate NamesNewGroup(newGroupField: Option<string>) {
    newGroupField.Some? && Strip(newGroupField.value) != []
  }

  /** The form asks for a new group and names one: that group is created and
      its panel opened. */
  predicate CreatesGroup(groupField: Option<string>, newGroupField: Option<string>) {
    groupField == Some("new") && NamesNewGroup(newGroupField)
  }

  /** The group a `save` or `update_group` form selects: its `group` field
      ("Default" when absent), except that the choice "new" stands for the
      stripped `new_group` field, or "Default" when that is blank. */
  function ChosenGroup(groupField: Option<string>, newGroupField: Option<string>): (g: string)
    ensures groupField.None? ==> g == DefaultGroup
    ensures groupField.Some? && groupField.value != "new" ==> g == groupField.value
    ensures groupField == Some("new") ==> g != [] && !IsSpace(g[0]) && !IsSpace(g[|g| - 1])
    ensures groupField == Some("new") && !NamesNewGroup(newGroupField) ==> g == DefaultGroup
    ensures CreatesGroup(groupField, newGroupField) ==> g == Strip(newGroupField.value)
  {
    var group := if groupField.Some? then groupField.value else DefaultGroup;
    if group != "new" then group
    else if NamesNewGroup(newGroupField) then Strip(newGroupField.value)
    else DefaultGroup
  }

  /** `save`: adds a record when both a name and a value were sent, in the
      group the form selects. A newly created group's slug is appended to the
      open groups without checking whether it is already there. */
  method Save(dims: seq<Record>, name: Option<string>, value: Option<real>,
              groupField: Option<string>, newGroupField: Option<string>, open: seq<string>)
    returns (r: seq<Record>, openOut: seq<string>)
    ensures name.Some? && name.value != [] && value.Some? ==>
      |r| == |dims| + 1 && r[..|dims|] == dims &&
      r[|dims|] == Record(name.value, value.value, ChosenGroup(groupField, newGroupField))
    ensures !(name.Some? && name.value != [] && value.Some?) ==> r == dims
    ensures CreatesGroup(groupField, newGroupField) ==>
      openOut == open + [Slug(Strip(newGroupField.value))]
    ensures !CreatesGroup(groupField, newGroupField) ==> openOut == open
  {
    var group := ChosenGroup(groupField, newGroupField);
    openOut := open;
    if CreatesGroup(groupField, newGroupField) {
      openOut := openOut + [Slug(group)];
    }
    r := dims;
    if name.Some? && name.value != [] && value.Some? {
      r := AddDimension(dims, name.value, value.value, group);
    }
  }

  /** `save` can list a group twice among the open groups: creating group
      "team" while "team" is already open appends it again. */
  method SaveCanRepeatOpenGroup() returns (openOut: seq<string>)
    ensures openOut == ["team", "team"] && !NoDup(openOut)
  {
    assert !IsSpace('t') && !IsSpace('m');
    assert TrimStart("team") == "team";
    assert TrimEnd("team") == "team";
    assert Strip("team") == "team";
    assert ReplaceChar("team", ' ', '-') == "team";
    assert Lower("team") == "team";
    var _, open := Save([], Some("x"), Some(1.0), Some("new"), Some("team"), ["team"]);
    openOut := open;
    assert openOut[0] == openOut[1];
  }

  /** `delete`: removes the record at `index` and, when there was one with a
      non-empty group, opens that group's panel unless it is already open. */
  method Delete(dims: seq<Record>, index: nat, open: seq<string>)
    returns (r: seq<Record>, openOut: seq<string>)
    ensures index < |dims| ==> |r| == |dims| - 1 && r == dims[..index] + dims[index + 1..]
    ensures index >= |dims| ==> r == dims
    ensures index < |dims| && dims[index].group != [] ==>
      openOut == AddOpen(open, Slug(dims[index].group))
    ensures !(index < |dims| && dims[index].group != []) ==> openOut == open
    ensures NoDup(open) ==> NoDup(openOut)
  {
    var group: Option<string> := None;
    if index < |dims| {
      group := Some(dims[index].group);
    }
    r := DeleteDimension(dims, index);
    assert index < |dims| ==> dims[..index] + dims[index + 1..] == r[..index] + r[index..];
    openOut := open;
    if group.Some? && group.value != [] {
      openOut := AddOpen(open, Slug(group.value));
    }
  }

  /** `rename`: renames the record at `index` when a non-empty name was sent;
      the open groups are passed through. */
  method Rename(dims: seq<Record>, index: nat, newName: Option<string>, open: seq<string>)
    returns (r: seq<Record>, openOut: seq<string>)
    ensures newName.Some? && newName.value != [] && index < |dims| ==>
      r == dims[index := Record(newName.value, dims[index].value, dims[index].group)]
    ensures !(newName.Some? && newName.value != [] && index < |dims|) ==> r == dims
    ensures openOut == open
  {
    r := dims;
    if newName.Some? && newName.value != [] {
      r := RenameDimension(dims, index, newName.value);
    }
    openOut := open;
  }

  /** `update_group`: moves the record at `index` to the group the form
      selects (unless that is empty); a newly created group's panel is opened
      unless it is already open. */
  method UpdateGroup(dims: seq<Record>, index: nat, groupField: Option<string>,
                     newGroupField: Option<string>, open: seq<string>)
    returns (r: seq<Record>, openOut: seq<string>)
    ensures var g := ChosenGroup(groupField, newGroupField);
      r == if g != [] && index < |dims| then dims[index := dims[index].(group := g)] else dims
    ensures CreatesGroup(groupField, newGroupField) ==>
      openOut == AddOpen(open, Slug(Strip(newGroupField.value)))
    ensures !CreatesGroup(groupField, newGroupField) ==> openOut == open
    ensures NoDup(open) ==> NoDup(openOut)
  {
    var group := ChosenGroup(groupField, newGroupField);
    openOut := open;
    if CreatesGroup(groupField, newGroupField) {
      openOut := AddOpen(open, Slug(group));
    }
    r := dims;
    if group != [] {
      var _, updated := UpdateDimensionGroup(dims, index, group);
      r := updated;
    }
  }

  /** `add_group`: opens the panel of the named group (when a non-empty name
      was sent) unless it is already open; nothing is saved. */
  method AddGroup(groupName: Option<string>, open: seq<string>) returns (openOut: seq<string>)
    ensures groupName.Some? && groupName.value != [] ==> openOut == AddOpen(open, Slug(groupName.value))
    ensures !(groupName.Some? && groupName.value != []) ==> openOut == open
    ensures NoDup(open) ==> NoDup(openOut)
  {
    openOut := open;
    if groupName.Some? && groupName.value != [] {
      openOut := AddOpen(open, Slug(groupName.value));
    }
  }
}
