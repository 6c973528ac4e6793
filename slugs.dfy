/** Group slugs (the identifiers that mark a group panel as open) and the
    list of open groups carried from one page to the next. */
module Slugs {
  import opened Sequences

  /** `s.replace(from, to)` for single characters. */
  function ReplaceChar(s: string, from: char, to: char): (r: string)
    ensures |r| == |s|
    ensures forall k :: 0 <= k < |s| ==> r[k] == if s[k] == from then to else s[k]
  {
    if s == [] then [] else [if s[0] == from then to else s[0]] + ReplaceChar(s[1..], from, to)
  }

  /** `s.replace(c, '')`: every `c` dropped, the other characters kept in order. */
  function RemoveChar(s: string, c: char): (r: string)
    ensures |r| <= |s| && c !in r
    ensures forall x :: x in r <==> x in s && x != c
    ensures c !in s ==> r == s
  {
    if s == [] then []
    else if s[0] == c then RemoveChar(s[1..], c)
    else [s[0]] + RemoveChar(s[1..], c)
  }

  predicate IsUpper(c: char) {
    'A' <= c <= 'Z'
  }

  function LowerChar(c: char): char {
    if IsUpper(c) then (c as int - 'A' as int + 'a' as int) as char else c
  }

  /** `s.lower()` on ASCII letters. */
  function Lower(s: string): (r: string)
    ensures |r| == |s|
    ensures forall k :: 0 <= k < |s| ==> r[k] == LowerChar(s[k])
  {
    if s == [] then [] else [LowerChar(s[0])] + Lower(s[1..])
  }

  /** `group.replace(' ', '-').replace('/', '').replace('.', '').lower()`:
      no space, slash, dot or ASCII capital remains, and the slug is no
      longer than the group name. */
  function Slug(group: string): (s: string)
    ensures |s| <= |group| && ' ' !in s && '/' !in s && '.' !in s
    ensures forall k :: 0 <= k < |s| ==> !IsUpper(s[k])
  {
    var spaced := ReplaceChar(group, ' ', '-');
    var removed := RemoveChar(RemoveChar(spaced, '/'), '.');
    assert ' ' !in spaced;
    assert forall k :: 0 <= k < |removed| ==> removed[k] in removed;
    Lower(removed)
  }

  /** Slugging a slug changes nothing. */
  lemma SlugIdempotent(group: string)
    ensures Slug(Slug(group)) == Slug(group)
  {
    var s := Slug(group);
    assert ReplaceChar(s, ' ', '-') == s;
    assert Lower(s) == s;
  }

  /** Appends `slug` to the open groups unless it is already there. */
  function AddOpen(open: seq<string>, slug: string): (r: seq<string>)
    ensures |open| <= |r| <= |open| + 1 && r[..|open|] == open
    ensures forall x :: x in r <==> x in open || x == slug
    ensures NoDup(open) ==> NoDup(r)
    ensures slug in open ==> r == open
    ensures slug !in open ==> r == open + [slug]
  {
    if slug in open then open else open + [slug]
  }
}
