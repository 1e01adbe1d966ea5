/** The blog editor's tag picker (src/components/admin/TagInput.tsx): a list
    of tags and the text being typed. Submitting the form adds the typed text,
    with all whitespace removed, unless it is already a tag; clicking a tag's
    cross removes it. */
module TagInput {
  import opened Str

  const InitialTags: seq<string> := ["Javascript", "ReactJs"]

  /** `s.replace(/\s+/g, '')`: every whitespace character removed. */
  function StripSpaces(s: string): (r: string)
    ensures |r| <= |s|
    ensures forall i :: 0 <= i < |r| ==> !IsSpace(r[i])
  {
    if s == [] then []
    else if IsSpace(s[0]) then StripSpaces(s[1..])
    else [s[0]] + StripSpaces(s[1..])
  }

  /** Removing whitespace keeps the other characters, in their order. */
  lemma {:induction false} StripSpacesSplit(a: string, b: string)
    ensures StripSpaces(a + b) == StripSpaces(a) + StripSpaces(b)
    decreases |a|
  {
    if a == [] {
      assert a + b == b;
    } else {
      assert (a + b)[1..] == a[1..] + b;
      StripSpacesSplit(a[1..], b);
    }
  }

  /** Text without whitespace is submitted as typed; blank text becomes `""`. */
  lemma {:induction false} StripSpacesIdentity(s: string)
    ensures (forall i :: 0 <= i < |s| ==> !IsSpace(s[i])) ==> StripSpaces(s) == s
    ensures IsBlank(s) ==> StripSpaces(s) == ""
    decreases |s|
  {
    if s != [] {
      StripSpacesIdentity(s[1..]);
    }
  }

  ghost predicate NoDuplicates(xs: seq<string>) {
    forall i, j :: 0 <= i < j < |xs| ==> xs[i] != xs[j]
  }

  /** The list after submitting `t`: unchanged if `t` is already there, else with `t` at the end. */
  function AddTag(tags: seq<string>, t: string): seq<string> {
    if t in tags then tags else tags + [t]
  }

  /** `tags.filter(tag => tag !== t)`. */
  function Without(tags: seq<string>, t: string): (r: seq<string>)
    ensures |r| <= |tags|
  {
    if tags == [] then []
    else if tags[0] == t then Without(tags[1..], t)
    else [tags[0]] + Without(tags[1..], t)
  }

  /** Adding keeps the old tags in order at the front, and the submitted tag
      is present afterwards, at the end when it was new. */
  lemma AddTagAppends(tags: seq<string>, t: string)
    ensures var r := AddTag(tags, t);
      && t in r
      && r[..|tags|] == tags
      && (t in tags ==> r == tags)
      && (t !in tags ==> |r| == |tags| + 1 && r[|tags|] == t)
  {
    var r := AddTag(tags, t);
    if t !in tags {
      assert r[..|tags|] == tags;
    }
  }

  lemma AddTagNoDuplicates(tags: seq<string>, t: string)
    requires NoDuplicates(tags)
    ensures NoDuplicates(AddTag(tags, t))
  {
  }

  /** After removal the tag is gone and every other tag is still there. */
  lemma {:induction false} WithoutMembers(tags: seq<string>, t: string)
    ensures forall x :: x in Without(tags, t) <==> x in tags && x != t
    decreases |tags|
  {
    if tags != [] {
      WithoutMembers(tags[1..], t);
    }
  }

  /** Removal preserves the order of the remaining tags. */
  lemma {:induction false} WithoutSplit(a: seq<string>, b: seq<string>, t: string)
    ensures Without(a + b, t) == Without(a, t) + Without(b, t)
    decreases |a|
  {
    if a == [] {
      assert a + b == b;
    } else {
      assert (a + b)[1..] == a[1..] + b;
      WithoutSplit(a[1..], b, t);
    }
  }

  /** Removing a tag that is not there changes nothing. */
  lemma {:induction false} WithoutAbsent(tags: seq<string>, t: string)
    requires t !in tags
    ensures Without(tags, t) == tags
    decreases |tags|
  {
    if tags != [] {
      assert t !in tags[1..];
      WithoutAbsent(tags[1..], t);
      assert tags == [tags[0]] + tags[1..];
    }
  }

  lemma {:induction false} WithoutNoDuplicates(tags: seq<string>, t: string)
    requires NoDuplicates(tags)
    ensures NoDuplicates(Without(tags, t))
    decreases |tags|
  {
    if tags != [] {
      WithoutNoDuplicates(tags[1..], t);
      WithoutMembers(tags[1..], t);
      assert forall k :: 0 <= k < |tags[1..]| ==> tags[1..][k] == tags[k + 1] != tags[0];
      var rest := Without(tags[1..], t);
      if tags[0] != t {
        assert tags[0] !in rest;
        assert Without(tags, t) == [tags[0]] + rest;
      }
    }
  }

  /** The component's state. */
  class TagInput {
    var tags: seq<string>
    var inputValue: string

    /** The list never holds the same tag twice. */
    ghost predicate Valid()
      reads this
    {
      NoDuplicates(tags)
    }

    constructor ()
      ensures Valid() && tags == InitialTags && inputValue == ""
    {
      tags := InitialTags;
      inputValue := "";
    }

    /** The input's `onChange`. */
    method SetInputValue(v: string)
      modifies this
      ensures inputValue == v && tags == old(tags)
    {
      inputValue := v;
    }

    /** `onEnterInput` (TagInput.tsx:15-23): the input is cleared whether or not a tag was added. */
    method OnEnterInput()
      requires Valid()
      modifies this
      ensures Valid()
      ensures tags == AddTag(old(tags), StripSpaces(old(inputValue)))
      ensures inputValue == ""
    {
      var newTag := StripSpaces(inputValue);
      if newTag !in tags {
        tags := tags + [newTag];
      }
      AddTagNoDuplicates(old(tags), newTag);
      inputValue := "";
    }

    /** `removeTag` (TagInput.tsx:25-27). */
    method RemoveTag(tagToRemove: string)
      requires Valid()
      modifies this
      ensures Valid()
      ensures tags == Without(old(tags), tagToRemove)
      ensures inputValue == old(inputValue)
    {
      WithoutNoDuplicates(tags, tagToRemove);
      tags := Without(tags, tagToRemove);
    }
  }
}
