/** The content-block splitter of the admin preview (`parseAndRenderContent` in
    src/components/admin/PreviewBox.tsx). It scans the author's raw content left
    to right for `<Code language="...">...</Code>` tags with the global,
    case-insensitive expression

      <Code\s+language=["']([^"']+)["'][^>]*>([\s\S]*?)<\/Code>

    and emits raw-HTML slices between the matches and one code block per match.

    The expression is modelled as an explicit matcher. Under JavaScript's
    backtracking every part except the lazy body is forced: `\s+` must stop
    where `language=` begins, `[^"']+` must stop at the first quote and
    `[^>]*` at the first `>`; so a match at an index is unique, and the body
    ends at the first `</Code>` after the `>`. Case folding is ASCII folding:
    without the `u` flag JavaScript never folds a non-ASCII character onto an
    ASCII one, so this is exact for this pattern. */
module ContentParser {
  import opened Str

  /** What the splitter emits: a slice injected as raw HTML, or a code block
      handed to the highlighter. */
  datatype Block = Html(html: string) | Code(language: string, code: string)

  /** One match: the span [start, end) it covers, and the two captures. */
  datatype Match = Match(start: nat, end: nat, language: string, body: string)

  /** The literal parts of the pattern, lower-cased. */
  const OpenTag: string := "<code"
  const Attr: string := "language="
  const CloseTag: string := "</code>"

  predicate IsQuote(c: char) {
    c == '"' || c == '\''
  }

  /** `pat` (lower-case) occurs at index `i` of `s`, ignoring ASCII case. */
  predicate HasAtCI(s: string, i: nat, pat: string) {
    i + |pat| <= |s| && forall k :: 0 <= k < |pat| ==> Lower(s[i + k]) == pat[k]
  }

  /** Where the matcher stands inside the pattern: in the whitespace after
      `<Code`; in the language, whose `language=` starts at `w`; in the
      attributes after the closing quote at `r`; in the body after the `>`
      at `g`. */
  datatype Phase = Spaces | Language(w: nat) | Attrs(w: nat, r: nat) | Body(w: nat, r: nat, g: nat)

  /** The indices a phase records lie before the current position `j`. */
  predicate PhaseOk(j: nat, ph: Phase) {
    match ph
    case Spaces => true
    case Language(w) => w + |Attr| + 1 <= j
    case Attrs(w, r) => w + |Attr| + 1 <= r < j
    case Body(w, r, g) => w + |Attr| + 1 <= r < g < j
  }

  /** The matcher for an attempt at `i`, one character at a time from
      position `j`. Each phase either consumes `s[j]` and stays, moves on to
      the next phase, or fails; no choice is ever revisited, which is what
      backtracking amounts to for this pattern. */
  function Run(s: string, i: nat, j: nat, ph: Phase): (r: Option<Match>)
    requires j <= |s| && PhaseOk(j, ph)
    ensures r.Some? ==> r.value.start == i && j < r.value.end <= |s|
    decreases |s| - j
  {
    match ph
    case Spaces =>
      if j < |s| && IsSpace(s[j]) then Run(s, i, j + 1, Spaces)
      else if i + |OpenTag| < j && HasAtCI(s, j, Attr) && j + |Attr| < |s| && IsQuote(s[j + |Attr|])
      then Run(s, i, j + |Attr| + 1, Language(j))
      else None
    case Language(w) =>
      if j == |s| then None
      else if !IsQuote(s[j]) then Run(s, i, j + 1, ph)
      else if w + |Attr| + 1 < j then Run(s, i, j + 1, Attrs(w, j))
      else None
    case Attrs(w, r) =>
      if j == |s| then None
      else if s[j] != '>' then Run(s, i, j + 1, ph)
      else Run(s, i, j + 1, Body(w, r, j))
    case Body(w, r, g) =>
      if HasAtCI(s, j, CloseTag) then Some(Match(i, j + |CloseTag|, s[w + |Attr| + 1..r], s[g + 1..j]))
      else if j == |s| then None
      else Run(s, i, j + 1, ph)
  }

  // The declarative reading of the pattern, part by part. `i` is where
  // `<Code` starts, `w` where `language=` starts, `r` the closing quote of
  // the language, `g` the `>` that ends the opening tag and `c` where the
  // first `</Code>` after it starts.

  /** `<Code`, at least one whitespace character, then `language=` at `w`. */
  predicate OpensAt(s: string, i: nat, w: nat) {
    && HasAtCI(s, i, OpenTag) && i + |OpenTag| < w && HasAtCI(s, w, Attr)
    && forall k :: i + |OpenTag| <= k < w ==> IsSpace(s[k])
  }

  /** A quote, a non-empty run of non-quotes, and the quote at `r`. */
  predicate QuotedAt(s: string, w: nat, r: nat) {
    && w + |Attr| + 1 < r < |s| && IsQuote(s[w + |Attr|]) && IsQuote(s[r])
    && forall k :: w + |Attr| + 1 <= k < r ==> !IsQuote(s[k])
  }

  /** The `>` at `g` is the first one after the quote at `r`. */
  predicate TagEndsAt(s: string, r: nat, g: nat) {
    && r < g < |s| && s[g] == '>'
    && forall k :: r < k < g ==> s[k] != '>'
  }

  /** The `</Code>` at `c` is the first one after the `>` at `g`. */
  predicate ClosesAt(s: string, g: nat, c: nat) {
    && g < c && HasAtCI(s, c, CloseTag)
    && forall k :: g < k < c ==> !HasAtCI(s, k, CloseTag)
  }

  /** The match these indices describe: its span and its two captures. */
  function MatchFor(s: string, i: nat, w: nat, r: nat, g: nat, c: nat): Match
    requires w + |Attr| + 1 <= r <= |s| && g < c <= |s|
  {
    Match(i, c + |CloseTag|, s[w + |Attr| + 1..r], s[g + 1..c])
  }

  /** `m` is the match at `m.start`, split at the witness indices. */
  predicate Shape(s: string, m: Match, w: nat, r: nat, g: nat, c: nat) {
    && OpensAt(s, m.start, w) && QuotedAt(s, w, r) && TagEndsAt(s, r, g) && ClosesAt(s, g, c)
    && m == MatchFor(s, m.start, w, r, g, c)
  }

  ghost predicate IsMatch(s: string, m: Match) {
    exists w: nat, r: nat, g: nat, c: nat :: Shape(s, m, w, r, g, c)
  }

  /** The match of the pattern starting exactly at index `i`, if any. */
  function MatchAt(s: string, i: nat): (r: Option<Match>)
    requires i <= |s|
    ensures r.Some? ==> r.value.start == i && i < r.value.end <= |s|
  {
    if HasAtCI(s, i, OpenTag) then Run(s, i, i + |OpenTag|, Spaces) else None
  }

  // What the matcher has seen when it stands at `j` in each phase of an
  // attempt at `i`: the prefix of the pattern that phase implies.

  predicate ReachedSpaces(s: string, i: nat, j: nat) {
    && HasAtCI(s, i, OpenTag) && i + |OpenTag| <= j <= |s|
    && forall k :: i + |OpenTag| <= k < j ==> IsSpace(s[k])
  }

  predicate ReachedLanguage(s: string, i: nat, w: nat, j: nat) {
    && OpensAt(s, i, w) && w + |Attr| + 1 <= j <= |s| && IsQuote(s[w + |Attr|])
    && forall k :: w + |Attr| + 1 <= k < j ==> !IsQuote(s[k])
  }

  predicate ReachedAttrs(s: string, i: nat, w: nat, r: nat, j: nat) {
    && OpensAt(s, i, w) && QuotedAt(s, w, r) && r < j <= |s|
    && forall k :: r < k < j ==> s[k] != '>'
  }

  predicate ReachedBody(s: string, i: nat, w: nat, r: nat, g: nat, j: nat) {
    && OpensAt(s, i, w) && QuotedAt(s, w, r) && TagEndsAt(s, r, g) && g < j <= |s|
    && forall k :: g < k < j ==> !HasAtCI(s, k, CloseTag)
  }

  lemma {:induction false} BodySound(s: string, i: nat, w: nat, r: nat, g: nat, j: nat) returns (c: nat)
    requires ReachedBody(s, i, w, r, g, j) && Run(s, i, j, Body(w, r, g)).Some?
    ensures Shape(s, Run(s, i, j, Body(w, r, g)).value, w, r, g, c)
    decreases |s| - j
  {
    if HasAtCI(s, j, CloseTag) {
      c := j;
    } else {
      c := BodySound(s, i, w, r, g, j + 1);
    }
  }

  lemma {:induction false} AttrsSound(s: string, i: nat, w: nat, r: nat, j: nat) returns (g: nat, c: nat)
    requires ReachedAttrs(s, i, w, r, j) && Run(s, i, j, Attrs(w, r)).Some?
    ensures Shape(s, Run(s, i, j, Attrs(w, r)).value, w, r, g, c)
    decreases |s| - j
  {
    if s[j] != '>' {
      g, c := AttrsSound(s, i, w, r, j + 1);
    } else {
      g := j;
      c := BodySound(s, i, w, r, j, j + 1);
    }
  }

  lemma {:induction false} LanguageSound(s: string, i: nat, w: nat, j: nat) returns (r: nat, g: nat, c: nat)
    requires ReachedLanguage(s, i, w, j) && Run(s, i, j, Language(w)).Some?
    ensures Shape(s, Run(s, i, j, Language(w)).value, w, r, g, c)
    decreases |s| - j
  {
    if !IsQuote(s[j]) {
      r, g, c := LanguageSound(s, i, w, j + 1);
    } else {
      r := j;
      g, c := AttrsSound(s, i, w, j, j + 1);
    }
  }

  lemma {:induction false} SpacesSound(s: string, i: nat, j: nat) returns (w: nat, r: nat, g: nat, c: nat)
    requires ReachedSpaces(s, i, j) && Run(s, i, j, Spaces).Some?
    ensures Shape(s, Run(s, i, j, Spaces).value, w, r, g, c)
    decreases |s| - j
  {
    if j < |s| && IsSpace(s[j]) {
      w, r, g, c := SpacesSound(s, i, j + 1);
    } else {
      w := j;
      r, g, c := LanguageSound(s, i, j, j + |Attr| + 1);
    }
  }

  /** Every match MatchAt reports has the declared shape, at the returned
      witness indices. */
  lemma MatchAtSound(s: string, i: nat) returns (w: nat, r: nat, g: nat, c: nat)
    requires i <= |s| && MatchAt(s, i).Some?
    ensures Shape(s, MatchAt(s, i).value, w, r, g, c)
  {
    w, r, g, c := SpacesSound(s, i, i + |OpenTag|);
  }

  // Along the split a shape describes, the matcher reaches that match from
  // every position on the way; each lemma needs only the parts still ahead.

  lemma {:induction false} BodyComplete(s: string, i: nat, w: nat, r: nat, g: nat, c: nat, j: nat)
    requires w + |Attr| + 1 <= r < g < j <= c && ClosesAt(s, g, c)
    ensures Run(s, i, j, Body(w, r, g)) == Some(MatchFor(s, i, w, r, g, c))
    decreases c - j
  {
    if j < c {
      BodyComplete(s, i, w, r, g, c, j + 1);
    }
  }

  lemma {:induction false} AttrsComplete(s: string, i: nat, w: nat, r: nat, g: nat, c: nat, j: nat)
    requires w + |Attr| + 1 <= r < j <= g && TagEndsAt(s, r, g) && ClosesAt(s, g, c)
    ensures Run(s, i, j, Attrs(w, r)) == Some(MatchFor(s, i, w, r, g, c))
    decreases g - j
  {
    if j < g {
      AttrsComplete(s, i, w, r, g, c, j + 1);
    } else {
      BodyComplete(s, i, w, r, g, c, j + 1);
    }
  }

  lemma {:induction false} LanguageComplete(s: string, i: nat, w: nat, r: nat, g: nat, c: nat, j: nat)
    requires w + |Attr| + 1 <= j <= r && QuotedAt(s, w, r) && TagEndsAt(s, r, g) && ClosesAt(s, g, c)
    ensures Run(s, i, j, Language(w)) == Some(MatchFor(s, i, w, r, g, c))
    decreases r - j
  {
    if j < r {
      LanguageComplete(s, i, w, r, g, c, j + 1);
    } else {
      AttrsComplete(s, i, w, r, g, c, j + 1);
    }
  }

  lemma {:induction false} SpacesComplete(s: string, i: nat, w: nat, r: nat, g: nat, c: nat, j: nat)
    requires i + |OpenTag| <= j <= w && OpensAt(s, i, w) && QuotedAt(s, w, r)
    requires TagEndsAt(s, r, g) && ClosesAt(s, g, c)
    ensures Run(s, i, j, Spaces) == Some(MatchFor(s, i, w, r, g, c))
    decreases w - j
  {
    if j < w {
      SpacesComplete(s, i, w, r, g, c, j + 1);
    } else {
      assert !IsSpace(s[j]) by {
        assert Lower(s[w + 0]) == Attr[0];
      }
      LanguageComplete(s, i, w, r, g, c, j + |Attr| + 1);
    }
  }

  /** Conversely every split of the declared shape is what MatchAt finds:
      the witnesses are forced, and so the match at an index is unique. */
  lemma MatchAtComplete(s: string, m: Match, w: nat, r: nat, g: nat, c: nat)
    requires Shape(s, m, w, r, g, c)
    ensures m.start <= |s| && MatchAt(s, m.start) == Some(m)
  {
    SpacesComplete(s, m.start, w, r, g, c, m.start + |OpenTag|);
  }

  /** A match never starts at an index that does not hold a `<`. */
  lemma MatchNeedsAngle(s: string, i: nat)
    requires i <= |s| && MatchAt(s, i).Some?
    ensures i < |s| && s[i] == '<'
  {
    assert Lower(s[i + 0]) == OpenTag[0];
  }

  /** The captures of a split: a non-empty quote-free language, and the
      verbatim text between the `>` and the first `</Code>` after it. */
  lemma {:induction false} ShapeFields(s: string, m: Match, w: nat, r: nat, g: nat, c: nat)
    requires Shape(s, m, w, r, g, c)
    ensures |m.language| > 0
    ensures forall k :: 0 <= k < |m.language| ==> !IsQuote(m.language[k])
    ensures m.end == c + |CloseTag| && |m.body| < c && s[c - |m.body| - 1] == '>'
    ensures m.body == s[c - |m.body|..c] && HasAtCI(s, c, CloseTag)
    ensures forall k :: c - |m.body| <= k < c ==> !HasAtCI(s, k, CloseTag)
  {
    assert forall k :: 0 <= k < |m.language| ==> m.language[k] == s[w + |Attr| + 1 + k];
  }

  /** MatchAt is exactly the declarative reading: it reports `m` at
      `m.start` if and only if `m` has the declared shape. */
  lemma MatchAtIff(s: string, m: Match)
    requires m.start <= |s|
    ensures MatchAt(s, m.start) == Some(m) <==> IsMatch(s, m)
  {
    if MatchAt(s, m.start) == Some(m) {
      var w, r, g, c := MatchAtSound(s, m.start);
    }
    if IsMatch(s, m) {
      var w: nat, r: nat, g: nat, c: nat :| Shape(s, m, w, r, g, c);
      MatchAtComplete(s, m, w, r, g, c);
    }
  }

  /** A code block's language is non-empty and quote-free; its body is the
      verbatim text between the `>` and the first `</Code>` after it, and
      that closing tag ends the match. */
  lemma MatchFields(s: string, i: nat, m: Match)
    requires i <= |s| && MatchAt(s, i) == Some(m)
    ensures |m.language| > 0
    ensures forall k :: 0 <= k < |m.language| ==> !IsQuote(m.language[k])
    ensures m.end - |CloseTag| > |m.body| && s[m.end - |CloseTag| - |m.body| - 1] == '>'
    ensures m.body == s[m.end - |CloseTag| - |m.body|..m.end - |CloseTag|]
    ensures HasAtCI(s, m.end - |CloseTag|, CloseTag)
    ensures forall k :: m.end - |CloseTag| - |m.body| <= k < m.end - |CloseTag| ==> !HasAtCI(s, k, CloseTag)
  {
    var w, r, g, c := MatchAtSound(s, i);
    ShapeFields(s, m, w, r, g, c);
  }

  /** What `regex.exec` returns when `lastIndex` is `from`: the leftmost
      match at or after `from`. */
  function FindFrom(s: string, from: nat): (r: Option<Match>)
    requires from <= |s|
    ensures r.Some? ==> from <= r.value.start <= |s| && MatchAt(s, r.value.start) == r
    ensures r.Some? ==> forall k :: from <= k < r.value.start ==> MatchAt(s, k).None?
    ensures r.None? ==> forall k :: from <= k <= |s| ==> MatchAt(s, k).None?
    decreases |s| - from
  {
    match MatchAt(s, from)
    case Some(m) => Some(m)
    case None => if from == |s| then None else FindFrom(s, from + 1)
  }

  /** A piece of the scan: a gap [lo, hi) between matches, or a match. */
  datatype Piece = Gap(lo: nat, hi: nat) | Tag(m: Match)

  function Lo(p: Piece): nat {
    if p.Gap? then p.lo else p.m.start
  }

  function Hi(p: Piece): nat {
    if p.Gap? then p.hi else p.m.end
  }

  ghost predicate Bounded(s: string, ps: seq<Piece>) {
    forall i :: 0 <= i < |ps| ==> Lo(ps[i]) <= Hi(ps[i]) <= |s|
  }

  /** The pieces tile [from, |s|) without overlap, left to right: each one
      starts where the previous one ended and the last one ends the input. */
  ghost predicate Tiles(s: string, ps: seq<Piece>, from: nat)
    decreases |ps|
  {
    && |ps| > 0
    && Lo(ps[0]) == from <= Hi(ps[0]) <= |s|
    && if |ps| == 1 then Hi(ps[0]) == |s| else Tiles(s, ps[1..], Hi(ps[0]))
  }

  /** The loop of the source as a recursion: the gap up to the next match,
      the match, and the scan resumed exactly where the match ended. */
  function Scan(s: string, from: nat): (ps: seq<Piece>)
    requires from <= |s|
    ensures Bounded(s, ps) && Tiles(s, ps, from)
    decreases |s| - from
  {
    match FindFrom(s, from)
    case None => [Gap(from, |s|)]
    case Some(m) => [Gap(from, m.start), Tag(m)] + Scan(s, m.end)
  }

  /** The text of the pieces, concatenated in order: a gap's slice and a
      match's whole span. */
  function Text(s: string, ps: seq<Piece>): string
    requires Bounded(s, ps)
  {
    if ps == [] then "" else s[Lo(ps[0])..Hi(ps[0])] + Text(s, ps[1..])
  }

  lemma {:induction false} TilesCover(s: string, ps: seq<Piece>, from: nat)
    requires Bounded(s, ps) && Tiles(s, ps, from)
    ensures from <= |s| && Text(s, ps) == s[from..]
    decreases |ps|
  {
    var h := Hi(ps[0]);
    if |ps| == 1 {
      assert ps[1..] == [];
      assert s[from..h] == s[from..];
    } else {
      TilesCover(s, ps[1..], h);
      assert s[from..h] + s[h..] == s[from..];
    }
  }

  /** Coverage: the gaps, kept or dropped, and the matched spans rebuild the
      input exactly, in order. */
  lemma Coverage(s: string)
    ensures Text(s, Scan(s, 0)) == s
  {
    TilesCover(s, Scan(s, 0), 0);
  }

  /** Gaps and matches alternate, starting and ending with a gap. */
  ghost predicate Alternates(ps: seq<Piece>) {
    |ps| % 2 == 1 && forall k :: 0 <= k < |ps| ==> (ps[k].Gap? <==> k % 2 == 0)
  }

  /** Every match piece is the match at its own start. */
  ghost predicate TagsMatch(s: string, ps: seq<Piece>) {
    forall k :: 0 <= k < |ps| && ps[k].Tag? ==> ps[k].m.start <= |s| && MatchAt(s, ps[k].m.start) == Some(ps[k].m)
  }

  /** No match starts inside a gap. */
  ghost predicate GapsClear(s: string, ps: seq<Piece>) {
    forall k, j :: 0 <= k < |ps| && ps[k].Gap? && ps[k].lo <= j < ps[k].hi && j <= |s| ==> MatchAt(s, j).None?
  }

  // Together: the scan alternates gap, match, gap, ..., gap; every match is
  // the match at its own start and none starts inside a gap, so each match
  // is the leftmost one after the previous match's end.

  lemma {:induction false} ScanAlternates(s: string, from: nat)
    requires from <= |s|
    ensures Alternates(Scan(s, from))
    decreases |s| - from
  {
    var ps := Scan(s, from);
    if FindFrom(s, from).Some? {
      var m := FindFrom(s, from).value;
      var rest := Scan(s, m.end);
      ScanAlternates(s, m.end);
      assert ps == [Gap(from, m.start), Tag(m)] + rest;
      forall k | 2 <= k < |ps|
        ensures ps[k].Gap? <==> k % 2 == 0
      {
        assert ps[k] == rest[k - 2];
      }
    }
  }

  lemma {:induction false} ScanTagsMatch(s: string, from: nat)
    requires from <= |s|
    ensures TagsMatch(s, Scan(s, from))
    decreases |s| - from
  {
    var ps := Scan(s, from);
    if FindFrom(s, from).Some? {
      var m := FindFrom(s, from).value;
      var rest := Scan(s, m.end);
      ScanTagsMatch(s, m.end);
      assert ps == [Gap(from, m.start), Tag(m)] + rest;
      forall k | 2 <= k < |ps| && ps[k].Tag?
        ensures ps[k].m.start <= |s| && MatchAt(s, ps[k].m.start) == Some(ps[k].m)
      {
        assert ps[k] == rest[k - 2];
      }
    }
  }

  lemma {:induction false} ScanGapsClear(s: string, from: nat)
    requires from <= |s|
    ensures GapsClear(s, Scan(s, from))
    decreases |s| - from
  {
    var ps := Scan(s, from);
    if FindFrom(s, from).Some? {
      var m := FindFrom(s, from).value;
      var rest := Scan(s, m.end);
      ScanGapsClear(s, m.end);
      assert ps == [Gap(from, m.start), Tag(m)] + rest;
      forall k, j | 2 <= k < |ps| && ps[k].Gap? && ps[k].lo <= j < ps[k].hi && j <= |s|
        ensures MatchAt(s, j).None?
      {
        assert ps[k] == rest[k - 2];
      }
    }
  }

  /** What a gap contributes: nothing when it is empty or whitespace only
      (`htmlContent.trim()` is falsy), otherwise the slice as raw HTML. */
  function KeepHtml(h: string): (r: seq<Block>)
    ensures r == [] <==> IsBlank(h)
    ensures r != [] ==> r == [Html(h)]
  {
    if Trim(h) == "" then [] else [Html(h)]
  }

  /** The blocks one piece contributes. */
  function EmitPiece(s: string, p: Piece): seq<Block>
    requires Lo(p) <= Hi(p) <= |s|
  {
    match p
    case Gap(lo, hi) => KeepHtml(s[lo..hi])
    case Tag(m) => [Code(m.language, m.body)]
  }

  function Emit(s: string, ps: seq<Piece>): seq<Block>
    requires Bounded(s, ps)
  {
    if ps == [] then [] else EmitPiece(s, ps[0]) + Emit(s, ps[1..])
  }

  /** The specification of parseAndRenderContent: nothing for empty input,
      otherwise the emitted blocks, or the whole input as one HTML block when
      nothing was emitted. */
  function Render(s: string): (r: seq<Block>)
    ensures r == [] <==> s == ""
  {
    if s == "" then []
    else
      var b := Emit(s, Scan(s, 0));
      if b == [] then [Html(s)] else b
  }

  /** One turn of the loop: the gap before the next match, its code block,
      and the blocks of the scan resumed at the end of the match. */
  lemma EmitScanStep(s: string, from: nat)
    requires from <= |s| && FindFrom(s, from).Some?
    ensures var m := FindFrom(s, from).value;
      && from <= m.start < m.end <= |s|
      && Emit(s, Scan(s, from))
         == KeepHtml(s[from..m.start]) + [Code(m.language, m.body)] + Emit(s, Scan(s, m.end))
  {
    var m := FindFrom(s, from).value;
    var rest := Scan(s, m.end);
    var ps := Scan(s, from);
    assert ps == [Gap(from, m.start), Tag(m)] + rest;
    assert ps[1..] == [Tag(m)] + rest;
    assert ps[1..][1..] == rest;
  }

  /** After the last match, the remainder is the only piece left. */
  lemma EmitScanLast(s: string, from: nat)
    requires from <= |s| && FindFrom(s, from).None?
    ensures Emit(s, Scan(s, from)) == KeepHtml(s[from..])
  {
    var ps := Scan(s, from);
    assert ps == [Gap(from, |s|)];
    assert ps[1..] == [];
    assert s[from..|s|] == s[from..];
  }

  /** Non-empty input with no match anywhere becomes one HTML block holding
      the whole input, whether or not it is blank. */
  lemma RenderNoMatch(s: string)
    requires s != "" && FindFrom(s, 0).None?
    ensures Render(s) == [Html(s)]
  {
    EmitScanLast(s, 0);
    assert s[0..] == s;
  }

  /** Input without a `<` has no match. */
  lemma NoAngleNoMatch(s: string)
    requires forall k :: 0 <= k < |s| ==> s[k] != '<'
    ensures FindFrom(s, 0).None?
  {
    if FindFrom(s, 0).Some? {
      MatchNeedsAngle(s, FindFrom(s, 0).value.start);
    }
  }

  /** Plain text without tags is rendered as itself. */
  lemma RenderPlainText(s: string)
    requires s != "" && forall k :: 0 <= k < |s| ==> s[k] != '<'
    ensures Render(s) == [Html(s)]
  {
    NoAngleNoMatch(s);
    RenderNoMatch(s);
  }

  /** Whitespace-only input emits nothing in the loop, and the fallback then
      returns it whole: non-empty input never renders to nothing. */
  lemma RenderBlank(s: string)
    requires s != "" && IsBlank(s)
    ensures Render(s) == [Html(s)]
  {
    NoAngleNoMatch(s);
    RenderNoMatch(s);
  }

  lemma Regroup(a: seq<Block>, b: seq<Block>, c: seq<Block>, d: seq<Block>)
    ensures a + b + c + d == a + (b + c + d)
  {
  }

  /** parseAndRenderContent (PreviewBox.tsx:11-61): the `while` loop over
      `regex.exec`, the gap slices, the remainder and the fallback. */
  method ParseAndRenderContent(content: string) returns (parts: seq<Block>)
    ensures parts == Render(content)
  {
    if content == "" {
      return [];
    }
    parts := [];
    var lastIndex: nat := 0;
    var found := FindFrom(content, 0);
    while found.Some?
      invariant lastIndex <= |content|
      invariant found == FindFrom(content, lastIndex)
      invariant parts + Emit(content, Scan(content, lastIndex)) == Emit(content, Scan(content, 0))
      decreases |content| - lastIndex
    {
      var m := found.value;
      EmitScanStep(content, lastIndex);
      ghost var before := parts;
      if m.start > lastIndex {
        var htmlContent := content[lastIndex..m.start];
        if Trim(htmlContent) != "" {
          parts := parts + [Html(htmlContent)];
        }
      }
      ghost var gap := KeepHtml(content[lastIndex..m.start]);
      ghost var rest := Emit(content, Scan(content, m.end));
      assert parts == before + gap;
      parts := parts + [Code(m.language, m.body)];
      Regroup(before, gap, [Code(m.language, m.body)], rest);
      lastIndex := m.end;
      found := FindFrom(content, lastIndex);
    }
    EmitScanLast(content, lastIndex);
    ghost var before := parts;
    if lastIndex < |content| {
      var remainingContent := content[lastIndex..];
      if Trim(remainingContent) != "" {
        parts := parts + [Html(remainingContent)];
      }
    }
    assert parts == before + KeepHtml(content[lastIndex..]);
    if parts == [] {
      return [Html(content)];
    }
  }
}
