/** The cards of the home page's latest blogs (src/components/layout/LatestBlogs.tsx):
    the excerpt made from a blog's HTML content, and the author found for it. */
module LatestBlogs {
  import opened Str

  /** The position of the first `>` at or after `i`, or `|s|` if there is none. */
  function NextGt(s: string, i: nat): (k: nat)
    requires i <= |s|
    ensures i <= k <= |s|
    ensures k < |s| ==> s[k] == '>'
    ensures forall j :: i <= j < k ==> s[j] != '>'
    decreases |s| - i
  {
    if i == |s| || s[i] == '>' then i else NextGt(s, i + 1)
  }

  /** `replace(/<\/?[^>]+(>|$)/g, "")`. At a `<` followed by a character
      other than `>`, the pattern takes everything up to and including the
      next `>`, or up to the end of the text when there is none (whether or
      not the optional `/` is taken, it ends at the same place). Elsewhere
      the character is kept and the search moves on by one. */
  function StripTags(s: string): string
    decreases |s|
  {
    if s == [] then []
    else if s[0] == '<' && |s| > 1 && s[1] != '>' then
      var k := NextGt(s, 1);
      if k < |s| then StripTags(s[k + 1..]) else []
    else [s[0]] + StripTags(s[1..])
  }

  /** A text that does not start with `<` keeps its first character. */
  lemma StripTagsHead(s: string)
    requires s != [] && s[0] != '<'
    ensures StripTags(s) != [] && StripTags(s)[0] == s[0]
  {
  }

  /** Every `<` ends the text or stands right before a `>`, so none can
      start a span the pattern removes. */
  ghost predicate NoTagStart(r: string) {
    forall i :: 0 <= i < |r| && r[i] == '<' ==> i + 1 == |r| || r[i + 1] == '>'
  }

  /** No tag is left after stripping. */
  lemma {:induction false} StripTagsNoTags(s: string)
    ensures NoTagStart(StripTags(s))
    decreases |s|
  {
    if s != [] {
      if s[0] == '<' && |s| > 1 && s[1] != '>' {
        var k := NextGt(s, 1);
        if k < |s| {
          StripTagsNoTags(s[k + 1..]);
          assert StripTags(s) == StripTags(s[k + 1..]);
        }
      } else {
        StripTagsNoTags(s[1..]);
        var rest := StripTags(s[1..]);
        assert StripTags(s) == [s[0]] + rest;
        if s[0] == '<' && |s| > 1 {
          StripTagsHead(s[1..]);
        }
        ConsNoTag(s[0], rest);
      }
    }
  }

  /** A `<` in front of a text without tags starting is harmless when it ends
      the text or the text starts with `>`. */
  lemma ConsNoTag(c: char, rest: string)
    requires NoTagStart(rest)
    requires c == '<' ==> rest == [] || rest[0] == '>'
    ensures NoTagStart([c] + rest)
  {
    var r := [c] + rest;
    assert forall i :: 1 <= i < |r| ==> r[i] == rest[i - 1];
  }

  /** Text with no `<` is left alone. */
  lemma {:induction false} StripTagsPlain(s: string)
    requires forall i :: 0 <= i < |s| ==> s[i] != '<'
    ensures StripTags(s) == s
    decreases |s|
  {
    if s != [] {
      StripTagsPlain(s[1..]);
      assert s == [s[0]] + s[1..];
    }
  }

  /** `replace(/\s+/g, " ")`: each run of whitespace becomes one space. */
  function CollapseSpaces(s: string): string
    decreases |s|
  {
    if s == [] then []
    else if IsSpace(s[0]) then [' '] + CollapseSpaces(s[LeadLen(s)..])
    else [s[0]] + CollapseSpaces(s[1..])
  }

  ghost predicate NoDoubleSpace(s: string) {
    forall i :: 0 <= i < |s| - 1 ==> !(IsSpace(s[i]) && IsSpace(s[i + 1]))
  }

  lemma CollapseHead(s: string)
    requires s != [] && !IsSpace(s[0])
    ensures CollapseSpaces(s) != [] && CollapseSpaces(s)[0] == s[0]
  {
  }

  /** After collapsing, no two whitespace characters are adjacent. */
  lemma {:induction false} CollapseNoDouble(s: string)
    ensures NoDoubleSpace(CollapseSpaces(s))
    decreases |s|
  {
    if s != [] {
      var t := if IsSpace(s[0]) then s[LeadLen(s)..] else s[1..];
      CollapseNoDouble(t);
      var rest := CollapseSpaces(t);
      var c := if IsSpace(s[0]) then ' ' else s[0];
      assert CollapseSpaces(s) == [c] + rest;
      if IsSpace(s[0]) && t != [] {
        CollapseHead(t);
      }
      ConsNoDouble(c, rest);
    }
  }

  /** A character in front of a text without double whitespace keeps it so,
      unless both it and the text's first character are whitespace. */
  lemma ConsNoDouble(c: char, rest: string)
    requires NoDoubleSpace(rest)
    requires rest != [] && IsSpace(c) ==> !IsSpace(rest[0])
    ensures NoDoubleSpace([c] + rest)
  {
    var r := [c] + rest;
    assert forall i :: 1 <= i < |r| ==> r[i] == rest[i - 1];
  }

  /** Text without whitespace is not changed by collapsing. */
  lemma {:induction false} CollapsePlain(s: string)
    requires forall i :: 0 <= i < |s| ==> !IsSpace(s[i])
    ensures CollapseSpaces(s) == s
    decreases |s|
  {
    if s != [] {
      CollapsePlain(s[1..]);
      assert s == [s[0]] + s[1..];
    }
  }

  lemma SliceNoDouble(s: string, a: nat, b: nat)
    requires a <= b <= |s| && NoDoubleSpace(s)
    ensures NoDoubleSpace(s[a..b])
  {
    assert forall i :: 0 <= i < b - a ==> s[a..b][i] == s[a + i];
  }

  /** `slice(0, 100)`. */
  function Take100(s: string): string {
    if |s| <= 100 then s else s[..100]
  }

  /** The text of the excerpt before the dots. */
  function ExcerptText(content: string): string {
    Trim(Take100(CollapseSpaces(Trim(StripTags(content)))))
  }

  /** The excerpt under a card's title (LatestBlogs.tsx:70). */
  function Excerpt(content: string): string {
    ExcerptText(content) + "...."
  }

  /** The excerpt is at most 100 characters of text, without whitespace at
      either end and without two whitespace characters in a row, followed by
      four dots. */
  lemma ExcerptSpec(content: string)
    ensures var t := ExcerptText(content);
      && Excerpt(content) == t + "...."
      && |Excerpt(content)| >= 4 && Excerpt(content)[|Excerpt(content)| - 4..] == "...."
      && |t| <= 100
      && (t != [] ==> !IsSpace(t[0]) && !IsSpace(t[|t| - 1]))
      && NoDoubleSpace(t)
  {
    var c := CollapseSpaces(Trim(StripTags(content)));
    CollapseNoDouble(Trim(StripTags(content)));
    var p := Take100(c);
    SliceNoDouble(c, 0, |p|);
    assert p == c[0..|p|];
    var t := Trim(p);
    SliceNoDouble(p, LeadLen(p), LeadLen(p) + |t|);
    var e := Excerpt(content);
    assert e[|e| - 4..] == "....";
  }

  /** The excerpt of plain prose that fits: short text without tags and with
      single spaces between words only gains the four dots. */
  lemma ExcerptOfPlainText(content: string)
    requires |content| <= 100
    requires forall i :: 0 <= i < |content| ==> content[i] != '<' && (IsSpace(content[i]) ==> content[i] == ' ')
    requires content == [] || (!IsSpace(content[0]) && !IsSpace(content[|content| - 1]))
    requires NoDoubleSpace(content)
    ensures Excerpt(content) == content + "...."
  {
    StripTagsPlain(content);
    assert Trim(content) == content by {
      if content != [] {
        assert LeadLen(content) == 0;
        assert content[..|content| - 0] == content;
      }
    }
    CollapseSingle(content);
    assert Trim(content) == content;
  }

  /** Single spaces between non-space characters survive collapsing. */
  lemma {:induction false} CollapseSingle(s: string)
    requires forall i :: 0 <= i < |s| ==> IsSpace(s[i]) ==> s[i] == ' '
    requires NoDoubleSpace(s)
    ensures CollapseSpaces(s) == s
    decreases |s|
  {
    if s != [] {
      assert forall i :: 0 <= i < |s[1..]| ==> s[1..][i] == s[i + 1];
      CollapseSingle(s[1..]);
      if IsSpace(s[0]) {
        assert LeadLen(s) == 1 by {
          if |s| > 1 {
            assert !IsSpace(s[1]);
          }
        }
      }
      assert s == [s[0]] + s[1..];
    }
  }

  datatype Author = Author(id: string, avatarUrl: Option<string>, username: Option<string>)

  /** `authorsData.find(user => user.id === element.author_id)`. */
  function FindAuthor(authors: seq<Author>, id: string): Option<Author> {
    if authors == [] then None
    else if authors[0].id == id then Some(authors[0])
    else FindAuthor(authors[1..], id)
  }

  /** The author shown is the first admin with the blog's author id, and
      there is none exactly when no admin has that id. `k` is its position. */
  lemma {:induction false} FindAuthorSound(authors: seq<Author>, id: string) returns (k: nat)
    requires FindAuthor(authors, id).Some?
    ensures k < |authors| && authors[k] == FindAuthor(authors, id).value && authors[k].id == id
    ensures forall j :: 0 <= j < k ==> authors[j].id != id
    decreases |authors|
  {
    if authors[0].id == id {
      k := 0;
    } else {
      var k0 := FindAuthorSound(authors[1..], id);
      k := k0 + 1;
    }
  }

  lemma {:induction false} FindAuthorNone(authors: seq<Author>, id: string)
    ensures FindAuthor(authors, id).None? <==> forall j :: 0 <= j < |authors| ==> authors[j].id != id
    decreases |authors|
  {
    if authors != [] {
      FindAuthorNone(authors[1..], id);
      assert forall j :: 1 <= j < |authors| ==> authors[j] == authors[1..][j - 1];
    }
  }
}
