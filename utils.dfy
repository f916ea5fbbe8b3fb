/**
 * The helpers of server/src/utils.py used by ingestion and rendering: the
 * path lookup `safe_deep_find` over a parsed tree, and the pure string
 * transforms `form_to_key`, `wrap_code_in_html`, `code_md_to_html` and
 * `replace_and_append_options`.
 */
module Utils {
  import opened Wrappers
  import opened Strings
  import opened XmlTree
  import opened Patterns

  // ---------------------------------------------------------------- safe_deep_find

  /**
   * The element reached by looking up each name in turn as the first
   * descendant of the previous one; `default` as soon as a lookup finds
   * nothing.
   */
  function DeepFind(element: Node, names: seq<string>, default: Option<Node>): Option<Node>
    decreases |names|
  {
    if names == [] then Some(element)
    else
      match Find(element, names[0])
      case None => default
      case Some(next) => DeepFind(next, names[1..], default)
  }

  /** `safe_deep_find(element, names, default)`, which walks the path in a loop. */
  method SafeDeepFind(element: Node, names: seq<string>, default: Option<Node>) returns (r: Option<Node>)
    ensures r == DeepFind(element, names, default)
  {
    var current := element;
    for i := 0 to |names|
      invariant DeepFind(current, names[i..], default) == DeepFind(element, names, default)
    {
      assert names[i..][1..] == names[i + 1..];
      var next := Find(current, names[i]);
      if next.None? {
        return default;
      }
      current := next.value;
    }
    return Some(current);
  }

  /** Looking up a path in two parts is looking up the second part from where the first one ends. */
  lemma {:induction false} DeepFindAppend(element: Node, a: seq<string>, b: seq<string>, default: Option<Node>)
    ensures DeepFind(element, a + b, default) ==
      match DeepFind(element, a, None)
      case None => default
      case Some(mid) => DeepFind(mid, b, default)
    decreases |a|
  {
    if a == [] {
      assert a + b == b;
    } else {
      assert (a + b)[1..] == a[1..] + b;
      match Find(element, a[0])
      case None =>
      case Some(next) => DeepFindAppend(next, a[1..], b, default);
    }
  }

  /** A successful lookup of a non-empty path ends on an element named by the path's last name. */
  lemma {:induction false} DeepFindLastName(element: Node, names: seq<string>)
    requires names != [] && DeepFind(element, names, None).Some?
    ensures DeepFind(element, names, None).value.Elem?
    ensures DeepFind(element, names, None).value.name == names[|names| - 1]
    decreases |names|
  {
    var next := Find(element, names[0]).value;
    if |names| > 1 {
      DeepFindLastName(next, names[1..]);
    }
  }

  // ---------------------------------------------------------------- form_to_key

  /** No backslash is directly followed by the letter `n`. */
  predicate NoEscapedNewline(s: string) {
    forall i :: 0 <= i < |s| - 1 ==> !(s[i] == '\\' && s[i + 1] == 'n')
  }

  lemma EscapedNewlineContained(s: string)
    ensures Contains(s, "\\n") <==> !NoEscapedNewline(s)
  {
    if !NoEscapedNewline(s) {
      var i :| 0 <= i < |s| - 1 && s[i] == '\\' && s[i + 1] == 'n';
      assert s[i..][..2] == "\\n";
      assert OccursAt(s, "\\n", i);
    }
    if Contains(s, "\\n") {
      var i :| 0 <= i <= |s| && OccursAt(s, "\\n", i);
      assert 2 <= |s[i..]| && s[i..][..2] == "\\n";
      assert s[i] == s[i..][..2][0] == '\\' && s[i + 1] == s[i..][..2][1] == 'n';
    }
  }

  /** `form_to_key(text)`: every backslash-`n` pair becomes a newline. */
  function FormToKey(text: string): string {
    ReplaceAll(text, "\\n", "\n")
  }

  lemma NoEscapedNewlineJoin(a: string, b: string)
    requires NoEscapedNewline(a) && NoEscapedNewline(b)
    ensures NoEscapedNewline(a + "\n" + b)
  {
    var s := a + "\n" + b;
    forall i | 0 <= i < |s| - 1
      ensures !(s[i] == '\\' && s[i + 1] == 'n')
    {
      if i > |a| {
        assert s[i] == b[i - |a| - 1] && s[i + 1] == b[i - |a|];
      }
    }
  }

  /** The result of `form_to_key` holds no backslash-`n` pair. */
  lemma {:induction false} FormToKeyClean(text: string)
    ensures NoEscapedNewline(FormToKey(text))
    decreases |text|
  {
    match IndexOf(text, "\\n")
    case None =>
      IndexOfFirst(text, "\\n");
      EscapedNewlineContained(text);
    case Some(k) =>
      var rest := text[k + 2..];
      FormToKeyClean(rest);
      PrefixBeforeFirst(text, "\\n", k);
      EscapedNewlineContained(text[..k]);
      NoEscapedNewlineJoin(text[..k], FormToKey(rest));
      assert FormToKey(text) == text[..k] + "\n" + FormToKey(rest);
  }

  /** Applying `form_to_key` twice is applying it once. */
  lemma FormToKeyIdempotent(text: string)
    ensures FormToKey(FormToKey(text)) == FormToKey(text)
  {
    FormToKeyClean(text);
    EscapedNewlineContained(FormToKey(text));
    ReplaceAllAbsent(FormToKey(text), "\\n", "\n");
  }

  // ---------------------------------------------------------------- wrap_code_in_html

  const CodeOpen := "<pre><code class='language-python'>\n"
  const CodeClose := "\n</code></pre>"

  /** `wrap_code_in_html(text)`. */
  function WrapCodeInHtml(text: string): (r: string)
    ensures StartsWith(r, CodeOpen) && EndsWith(r, CodeClose)
    ensures |r| == |CodeOpen| + |text| + |CodeClose|
  {
    CodeOpen + text + CodeClose
  }

  /** The code inside a wrapper, or `None` for text that is not one. */
  function UnwrapCode(html: string): Option<string> {
    if |html| >= |CodeOpen| + |CodeClose| && StartsWith(html, CodeOpen) && EndsWith(html, CodeClose)
    then Some(html[|CodeOpen|..|html| - |CodeClose|])
    else None
  }

  /** The wrapper keeps the code recoverable. */
  lemma UnwrapWrapped(text: string)
    ensures UnwrapCode(WrapCodeInHtml(text)) == Some(text)
  {
    var h := WrapCodeInHtml(text);
    assert h[|CodeOpen|..|h| - |CodeClose|] == text;
  }

  // ---------------------------------------------------------------- code_md_to_html

  /** What replaces one ```` ```lang:WORD;;body``` ```` block. */
  function CodeBlockHtml(body: string): string {
    WrapCodeInHtml(Strip(body))
  }

  /** `code_md_to_html(text)`. */
  function CodeMdToHtml(text: string): string {
    Sub(MatcherOf(CodeBlock), text, CodeBlockHtml)
  }

  /** A text holding a code block does not come back unchanged. */
  lemma CodeMdToHtmlChanges(text: string)
    requires Search(MatcherOf(CodeBlock), text).Some?
    ensures CodeMdToHtml(text) != text
  {
    var f := Search(MatcherOf(CodeBlock), text).value;
    CodeBlockOpensWithFence(text);
    CodeFirstReplaced(text);
    assert CodeMdToHtml(text)[f.at] == CodeBlockHtml(f.m.group)[0] == '<';
  }

  /** The text comes back unchanged exactly when it holds no code block. */
  lemma CodeMdToHtmlUnchanged(text: string)
    ensures CodeMdToHtml(text) == text <==> forall j :: 0 <= j <= |text| ==> MatchFrom(MatcherOf(CodeBlock), text, j).None?
  {
    SearchLeftmost(MatcherOf(CodeBlock), text);
    if Search(MatcherOf(CodeBlock), text).Some? {
      CodeMdToHtmlChanges(text);
    }
  }

  /**
   * The leftmost block is replaced by the wrapper around its stripped body,
   * a body that holds no closing fence; the text before the block is kept
   * and the text after it is converted in turn.
   */
  lemma CodeMdToHtmlFirstBlock(text: string)
    requires Search(MatcherOf(CodeBlock), text).Some?
    ensures var f := Search(MatcherOf(CodeBlock), text).value;
      && CodeMdToHtml(text) == text[..f.at] + WrapCodeInHtml(Strip(f.m.group)) + CodeMdToHtml(text[f.at + f.m.len..])
      && !Contains(f.m.group, "```")
  {
    CodeFirstReplaced(text);
    CodeBlockOpensWithFence(text);
  }

  /** Converting replaces the leftmost block and goes on with the rest. */
  lemma CodeFirstReplaced(text: string)
    requires Search(MatcherOf(CodeBlock), text).Some?
    ensures var f := Search(MatcherOf(CodeBlock), text).value;
      CodeMdToHtml(text) == text[..f.at] + CodeBlockHtml(f.m.group) + CodeMdToHtml(text[f.at + f.m.len..])
  {
    SubFirst(MatcherOf(CodeBlock), text, CodeBlockHtml);
  }

  /** The leftmost block starts with a backtick and its body holds no closing fence. */
  lemma CodeBlockOpensWithFence(text: string)
    requires Search(MatcherOf(CodeBlock), text).Some?
    ensures var f := Search(MatcherOf(CodeBlock), text).value;
      text[f.at] == '`' && !Contains(f.m.group, "```")
  {
    var f := Search(MatcherOf(CodeBlock), text).value;
    SearchMatchAt(CodeBlock, text);
    MatchAtOffset(CodeBlock, text, f.at, f.m);
  }

  // ---------------------------------------------------------------- replace_and_append_options

  /** The length of the run of characters satisfying `c` at the start of `s`: a greedy `c*`. */
  function Run(s: string, c: char -> bool): (n: nat)
    ensures n <= |s|
  {
    if s != [] && c(s[0]) then 1 + Run(s[1..], c) else 0
  }

  /** The run is the longest prefix whose characters all satisfy `c`. */
  lemma {:induction false} RunGreedy(s: string, c: char -> bool)
    ensures forall i :: 0 <= i < Run(s, c) ==> c(s[i])
    ensures Run(s, c) == |s| || !c(s[Run(s, c)])
  {
    if s != [] && c(s[0]) {
      RunGreedy(s[1..], c);
    }
  }

  /** On a prefix `p` of `s`, the run is the run of `s`, cut off at the end of `p`. */
  lemma {:induction false} RunPrefix(s: string, p: string, c: char -> bool)
    requires p <= s
    ensures Run(p, c) == if Run(s, c) < |p| then Run(s, c) else |p|
  {
    if p != [] && c(p[0]) {
      assert p[1..] <= s[1..];
      RunPrefix(s[1..], p[1..], c);
    }
  }

  /** The length of `\[-?\d+\]?~` matched at the start of `t`, if it matches there. */
  function TagAt(t: string): (r: Option<nat>)
    ensures r.Some? ==> 2 < r.value <= |t| && t[0] == '[' && t[r.value - 1] == '~'
  {
    if t == [] || t[0] != '[' then None
    else
      var sign := if |t| > 1 && t[1] == '-' then 2 else 1;
      var d := Run(t[sign..], IsDigit);
      if d == 0 then None
      else
        var close := if sign + d < |t| && t[sign + d] == ']' then sign + d + 1 else sign + d;
        if close < |t| && t[close] == '~' then Some(close + 1) else None
  }

  /**
   * The tag reads no further than its own `~`: it matches on a prefix `u` of
   * `t` exactly when it matches on `t` and fits in `u`.
   */
  lemma TagPrefix(t: string, u: string)
    requires u <= t
    ensures TagAt(u).Some? ==> TagAt(t) == TagAt(u)
    ensures TagAt(t).Some? && TagAt(t).value <= |u| ==> TagAt(u) == TagAt(t)
  {
    if u != [] && u[0] == '[' {
      var sign := if |t| > 1 && t[1] == '-' then 2 else 1;
      if |u| > sign {
        assert |u| > 1 ==> u[1] == t[1];
        assert u[sign..] <= t[sign..];
        RunPrefix(t[sign..], u[sign..], IsDigit);
      }
    }
  }

  /**
   * The length of the option separator `\s*\[-?\d+\]?~\s*` matched at the
   * start of `s`, if it matches there: leading whitespace, the tag, and
   * trailing whitespace, each taken greedily.
   */
  function SeparatorAt(s: string): (r: Option<nat>)
    ensures r.Some? ==> 0 < r.value <= |s|
  {
    var ws := Run(s, IsWhitespace);
    match TagAt(s[ws..])
    case None => None
    case Some(n) => Some(ws + n + Run(s[ws + n..], IsWhitespace))
  }

  /** A separator always contains an opening bracket. */
  lemma SeparatorHasBracket(s: string)
    requires SeparatorAt(s).Some?
    ensures '[' in s
  {
    var ws := Run(s, IsWhitespace);
    assert s[ws] == '[';
  }

  /** The separator as a matcher: the text it covers and its length. */
  function SeparatorMatch(t: string): (r: Option<Match>)
    ensures r.Some? ==> 0 < r.value.len <= |t|
  {
    match SeparatorAt(t)
    case None => None
    case Some(n) => Some(Match(t[..n], n))
  }

  /** The option separator `\s*\[-?\d+\]?~\s*` as a matcher. */
  const Separator: Matcher := SeparatorMatch

  /**
   * A separator that matches at the start of a prefix of `s` also matches at
   * the start of `s`: every part of the pattern but the trailing `\s*` ends
   * before a character that the pattern checks.
   */
  lemma SeparatorExtends(s: string, p: string)
    requires p <= s && SeparatorAt(p).Some?
    ensures SeparatorAt(s).Some?
  {
    var ws := Run(p, IsWhitespace);
    RunPrefix(s, p, IsWhitespace);
    assert p[ws..] <= s[ws..];
    TagPrefix(s[ws..], p[ws..]);
  }

  /** The text a separator matches is, on its own, a separator of the same length. */
  lemma SeparatorWhole(s: string)
    requires SeparatorAt(s).Some?
    ensures SeparatorAt(s[..SeparatorAt(s).value]) == Some(SeparatorAt(s).value)
  {
    var q := s[..SeparatorAt(s).value];
    var ws := Run(s, IsWhitespace);
    var n := TagAt(s[ws..]).value;
    var tr := Run(s[ws + n..], IsWhitespace);
    assert |q| == ws + n + tr;
    RunPrefix(s, q, IsWhitespace);
    assert Run(q, IsWhitespace) == ws;
    assert q[ws..] <= s[ws..];
    TagPrefix(s[ws..], q[ws..]);
    assert TagAt(q[ws..]) == Some(n);
    assert q[ws + n..] <= s[ws + n..];
    RunPrefix(s[ws + n..], q[ws + n..], IsWhitespace);
    SeparatorParts(s, ws, n, tr);
    SeparatorParts(q, ws, n, tr);
  }

  /** A separator is its leading whitespace, its tag and its trailing whitespace. */
  lemma SeparatorParts(s: string, ws: nat, n: nat, tr: nat)
    requires Run(s, IsWhitespace) == ws && TagAt(s[ws..]) == Some(n)
    requires Run(s[ws + n..], IsWhitespace) == tr
    ensures SeparatorAt(s) == Some(ws + n + tr)
  {
  }

  /**
   * The separator decides before the end of the text, and the text it covers
   * is, on its own, a whole separator.
   */
  lemma SeparatorClosed()
    ensures PrefixClosed(Separator) && CoverClosed(Separator)
  {
    forall t, n: nat | n <= |t| && Separator(t[..n]).Some?
      ensures Separator(t).Some?
    {
      SeparatorExtends(t, t[..n]);
    }
    forall t | Separator(t).Some?
      ensures WholeMatch(Separator, t[..Separator(t).value.len])
    {
      SeparatorWhole(t);
    }
  }

  /** `re.split` on the option separator: the pieces between leftmost, non-overlapping separators. */
  function SplitOptions(s: string): (r: seq<string>)
    ensures |r| >= 1
  {
    Split(Separator, s)
  }

  /** The options, with the separators that were matched put back between them, rebuild the text. */
  lemma SplitOptionsRebuild(s: string)
    ensures |SplitOptions(s)| == |SplitMatches(Separator, s)| + 1
    ensures Interleave(SplitOptions(s), SplitMatches(Separator, s)) == s
  {
    SplitRebuild(Separator, s);
  }

  /**
   * No option holds a separator at any offset, so the split leaves none
   * behind, and each text removed is a whole separator.
   */
  lemma SplitOptionsClean(s: string)
    ensures forall i :: 0 <= i < |SplitOptions(s)| ==> NoMatchIn(Separator, SplitOptions(s)[i])
    ensures forall i :: 0 <= i < |SplitMatches(Separator, s)| ==> WholeMatch(Separator, SplitMatches(Separator, s)[i])
  {
    SeparatorClosed();
    SplitClean(Separator, s);
  }

  /** Text without an opening bracket is never split: a bare `~` does not separate options. */
  lemma SplitWithoutBracket(s: string)
    requires '[' !in s
    ensures SplitOptions(s) == [s]
  {
    forall j | 0 <= j <= |s|
      ensures MatchFrom(Separator, s, j).None?
    {
      if SeparatorAt(s[j..]).Some? {
        SeparatorHasBracket(s[j..]);
        assert false;
      }
    }
    SearchLeftmost(Separator, s);
    SplitNone(Separator, s);
  }

  const Placeholder := "<Выберите вариант>"

  /** The block appended after the text, listing the options. */
  function OptionsBlock(options: seq<string>): string {
    "\n" + "<pre>" + "Варианты ответа:" + "\n  - " + Join(options, "\n  - ") + "</pre>" + "\n"
  }

  /**
   * `replace_and_append_options(text)`: every occurrence of the first
   * `{:MCS:=...}` block is replaced by the placeholder and its options are
   * listed after the text.
   */
  function ReplaceAndAppendOptions(text: string): string {
    match Search(MatcherOf(McsBlock), text)
    case None => text
    case Some(x) => ReplaceBlock(text, x, SplitOptions(x.m.group))
  }

  /** Every occurrence of the block `x` covers replaced by the placeholder, then `options` listed after. */
  function ReplaceBlock(text: string, x: Found, options: seq<string>): (r: string)
    requires 0 < x.m.len && x.at + x.m.len <= |text|
    ensures EndsWith(r, OptionsBlock(options))
  {
    var replaced := ReplaceAll(text, text[x.at..x.at + x.m.len], Placeholder);
    AppendedSuffix(replaced, OptionsBlock(options));
    replaced + OptionsBlock(options)
  }

  /** A string ends with whatever is appended to it. */
  lemma AppendedSuffix(a: string, b: string)
    ensures EndsWith(a + b, b)
  {
    assert (a + b)[|a|..] == b;
  }

  /** With a block, the result ends with the listing of the options split from the leftmost block's body. */
  lemma ReplaceAndAppendOptionsListing(text: string)
    requires Search(MatcherOf(McsBlock), text).Some?
    ensures EndsWith(ReplaceAndAppendOptions(text), OptionsBlock(SplitOptions(Search(MatcherOf(McsBlock), text).value.m.group)))
  {
  }

  /** Without a `{:MCS:=...}` block anywhere the text comes back unchanged. */
  lemma ReplaceAndAppendOptionsNoBlock(text: string)
    requires forall j :: 0 <= j <= |text| ==> MatchFrom(MatcherOf(McsBlock), text, j).None?
    ensures ReplaceAndAppendOptions(text) == text
  {
    SearchLeftmost(MatcherOf(McsBlock), text);
  }

  /** The body of the leftmost `{:MCS:=...}` block holds no `}` and no newline. */
  lemma FirstMcsBlockBody(text: string)
    requires Search(MatcherOf(McsBlock), text).Some?
    ensures var f := Search(MatcherOf(McsBlock), text).value;
      !Contains(f.m.group, "}") && '\n' !in f.m.group
  {
    var f := Search(MatcherOf(McsBlock), text).value;
    SearchMatchAt(McsBlock, text);
    MatchAtOffset(McsBlock, text, f.at, f.m);
  }

  /** The leftmost `{:MCS:=...}` block is `{:MCS:=`, its body and `}`. */
  lemma FirstMcsBlockText(text: string)
    requires Search(MatcherOf(McsBlock), text).Some?
    ensures var f := Search(MatcherOf(McsBlock), text).value;
      text[f.at..f.at + f.m.len] == "{:MCS:=" + f.m.group + "}"
  {
    var f := Search(MatcherOf(McsBlock), text).value;
    SearchMatchAt(McsBlock, text);
    MatchAtOffsetDelimited(McsBlock, text, f.at, f.m);
    McsDelimiters(f.m.group);
  }

  /** The delimiters of `McsBlock` around a body, spelt out. */
  lemma McsDelimiters(g: string)
    ensures Opener(McsBlock) + g + Closer(McsBlock) == "{:MCS:=" + g + "}"
  {
  }
}
