/** The code-block renderer of the AI chat (src/components/admin/ChatMessage.tsx).
    Markdown hands each `code` element to it with the element's class name;
    `/language-(\w+)/` picks the language out of that name, and a block with
    one is shown highlighted, without the newline that ends it. */
module ChatMessage {
  import opened Str

  const LanguagePrefix: string := "language-"

  /** `language-` at `k`, followed by at least one word character. */
  predicate LanguageAt(s: string, k: nat) {
    HasAt(s, k, LanguagePrefix) && k + 9 < |s| && IsWordChar(s[k + 9])
  }

  /** The length of the run of word characters starting at `i`: what the
      greedy `\w+` takes. */
  function WordRun(s: string, i: nat): (n: nat)
    requires i <= |s|
    ensures i + n <= |s|
    ensures forall k :: i <= k < i + n ==> IsWordChar(s[k])
    ensures i + n == |s| || !IsWordChar(s[i + n])
    decreases |s| - i
  {
    if i == |s| || !IsWordChar(s[i]) then 0 else 1 + WordRun(s, i + 1)
  }

  /** Where the regular expression's search, starting from `from`, succeeds:
      the leftmost position at which the pattern matches. */
  function FindLanguage(s: string, from: nat): (r: Option<nat>)
    requires from <= |s|
    ensures r.Some? ==> from <= r.value < |s| && LanguageAt(s, r.value)
    ensures r.Some? ==> forall k :: from <= k < r.value ==> !LanguageAt(s, k)
    ensures r.None? ==> forall k :: from <= k <= |s| ==> !LanguageAt(s, k)
    decreases |s| - from
  {
    if from == |s| then None
    else if LanguageAt(s, from) then Some(from)
    else FindLanguage(s, from + 1)
  }

  /** `match?.[1]`: the captured language name, if the pattern matches. */
  function LanguageMatch(className: string): Option<string> {
    match FindLanguage(className, 0)
    case None => None
    case Some(k) => Some(className[k + 9..k + 9 + WordRun(className, k + 9)])
  }

  /** A captured name is a whole word that directly follows the leftmost
      `language-` that is followed by a word at all. The position `k`
      returned is where that `language-` stands. */
  lemma LanguageMatchSound(className: string) returns (k: nat)
    requires LanguageMatch(className).Some?
    ensures var l := LanguageMatch(className).value;
      && l != ""
      && (forall i :: 0 <= i < |l| ==> IsWordChar(l[i]))
      && HasAt(className, k, LanguagePrefix + l)
      && (k + 9 + |l| == |className| || !IsWordChar(className[k + 9 + |l|]))
      && forall j :: 0 <= j < k ==> !LanguageAt(className, j)
  {
    k := FindLanguage(className, 0).value;
    var n := WordRun(className, k + 9);
    var l := className[k + 9..k + 9 + n];
    assert className[k..k + 9 + n] == className[k..k + 9] + l;
  }

  /** The pattern matches exactly when some `language-` is followed by a word character. */
  lemma LanguageMatchIff(className: string)
    ensures LanguageMatch(className).Some? <==> exists k: nat :: LanguageAt(className, k)
  {
    if k: nat :| LanguageAt(className, k) {
      assert k <= |className|;
    }
  }

  /** `.replace(/\n$/, '')`: without the multiline flag `$` only matches at
      the very end, so at most one final newline goes. */
  function StripFinalNewline(s: string): string {
    if s != [] && s[|s| - 1] == '\n' then s[..|s| - 1] else s
  }

  /** The code shown is the text with its one final newline, if any, removed;
      everything before it, including earlier newlines, is kept. */
  lemma StripFinalNewlineSpec(s: string)
    ensures var r := StripFinalNewline(s);
      && (s != [] && s[|s| - 1] == '\n' ==> r + "\n" == s)
      && (s == [] || s[|s| - 1] != '\n' ==> r == s)
      && StripFinalNewline(r + "\n") == r
  {
    var r := StripFinalNewline(s);
    assert (r + "\n")[..|r|] == r;
  }

  /** What the `code` renderer returns. */
  datatype CodeView = Highlighted(language: string, code: string) | InlineCode(children: string)

  /** The `code` renderer (ChatMessage.tsx:27-44). `inline` is false when
      Markdown does not pass it, and a missing class name reads as `''`. */
  function RenderCode(inline: bool, className: Option<string>, children: string): CodeView {
    var m := LanguageMatch(OrEmpty(className));
    if !inline && m.Some? then Highlighted(m.value, StripFinalNewline(children))
    else InlineCode(children)
  }

  /** A block is highlighted exactly when it is not inline and its class
      names a language; the highlighter then gets that language and the
      block's text less its final newline, and otherwise the text is shown as it is. */
  lemma RenderCodeChoice(inline: bool, className: Option<string>, children: string)
    ensures var v := RenderCode(inline, className, children);
      && (v.Highlighted? <==> !inline && Truthy(className) && exists k: nat :: LanguageAt(className.value, k))
      && (v.Highlighted? ==> Some(v.language) == LanguageMatch(className.value) && v.language != ""
                             && v.code == StripFinalNewline(children))
      && (v.InlineCode? ==> v.children == children)
  {
    LanguageMatchIff(OrEmpty(className));
    if !inline && LanguageMatch(OrEmpty(className)).Some? {
      var _ := LanguageMatchSound(OrEmpty(className));
    }
  }

  datatype Sender = User | Ai

  /** How a message is shown: a user's text as a plain paragraph, an AI
      answer as Markdown source, whose code elements go to `RenderCode`. */
  datatype MessageView = Paragraph(text: string) | MarkdownSource(text: string)

  /** The message component (ChatMessage.tsx:20-25). */
  function RenderMessage(sender: Sender, text: string): MessageView {
    if sender == User then Paragraph(text) else MarkdownSource(text)
  }

  /** Only AI messages are interpreted as Markdown; either way the text is passed on unchanged. */
  lemma RenderMessagePlainForUser(sender: Sender, text: string)
    ensures RenderMessage(sender, text).Paragraph? <==> sender == User
    ensures RenderMessage(sender, text).text == text
  {
  }
}
