/**
 * The three regular expressions of the service that capture a delimited body
 * with a lazy `(.*?)`, and Python's `re.search` and `re.sub` over them.
 *
 *   CodeBlock   ```lang:\w+;;(.*?)```     with re.DOTALL  (server/src/utils.py)
 *   ThinkBlock  <think>(.*?)</think>     with re.DOTALL  (server/src/schemas.py)
 *   McsBlock    {:MCS:=(.*?)}            without DOTALL  (server/src/utils.py)
 *
 * A lazy body ends at the first occurrence of the closing delimiter; without
 * DOTALL the body may not contain a newline, so a newline before the first
 * closing delimiter means there is no match at that position.
 */
module Patterns {
  import opened Wrappers
  import opened Strings

  datatype Pattern = CodeBlock | ThinkBlock | McsBlock

  /** One match: `group(1)` and the length of `group(0)`. */
  datatype Match = Match(group: string, len: nat)

  /** The literal text that opens a match. */
  function Opener(p: Pattern): string {
    match p
    case CodeBlock => "```lang:"
    case ThinkBlock => "<think>"
    case McsBlock => "{:MCS:="
  }

  /** The literal text that closes a match. */
  function Closer(p: Pattern): string {
    match p
    case CodeBlock => "```"
    case ThinkBlock => "</think>"
    case McsBlock => "}"
  }

  /** `\w`, read as ASCII letters, digits and the underscore. */
  predicate IsWordChar(c: char) {
    ('a' <= c <= 'z') || ('A' <= c <= 'Z') || IsDigit(c) || c == '_'
  }

  /** The length of the longest prefix of word characters. */
  function WordRun(s: string): (n: nat)
    ensures n <= |s|
    ensures forall i :: 0 <= i < n ==> IsWordChar(s[i])
    ensures n == |s| || !IsWordChar(s[n])
  {
    if s != [] && IsWordChar(s[0]) then 1 + WordRun(s[1..]) else 0
  }

  /**
   * The body from offset `start` up to the first `closer`, as a match of
   * total length `start + |body| + |closer|`.
   */
  function LazyBody(s: string, start: nat, closer: string): (r: Option<Match>)
    requires start <= |s|
    ensures r.Some? ==> start + |r.value.group| + |closer| == r.value.len <= |s|
  {
    match IndexOf(s[start..], closer)
    case None => None
    case Some(k) => Some(Match(s[start..start + k], start + k + |closer|))
  }

  /** A lazy body is followed by the closer and holds no closer of its own: it is the shortest one. */
  lemma {:induction false} LazyBodyShortest(s: string, start: nat, closer: string)
    requires start <= |s| && closer != [] && LazyBody(s, start, closer).Some?
    ensures var m := LazyBody(s, start, closer).value;
      && m.group == s[start..start + |m.group|]
      && s[start + |m.group|..m.len] == closer
      && !Contains(m.group, closer)
  {
    match IndexOf(s[start..], closer)
    case Some(k) =>
      var m := LazyBody(s, start, closer).value;
      assert m.group == s[start..start + k] && |m.group| == k;
      assert m.len == start + k + |closer|;
      assert s[start..][..k] == s[start..start + k];
      PrefixBeforeFirst(s[start..], closer, k);
      CloserAt(s, start, closer, k);
  }

  /** The first closer after `start`, found at `k`, sits at `start + k` of `s`. */
  lemma {:induction false} CloserAt(s: string, start: nat, closer: string, k: nat)
    requires start <= |s| && IndexOf(s[start..], closer) == Some(k)
    ensures start + k + |closer| <= |s| && s[start + k..start + k + |closer|] == closer
  {
    assert OccursAt(s[start..], closer, k);
    assert s[start..][k..] == s[start + k..];
    assert s[start + k..][..|closer|] == s[start + k..start + k + |closer|];
  }

  /** Where the match of `p` at the start of `s` has its body, or 0 when the opener is not there. */
  function BodyStart(p: Pattern, s: string): (start: nat)
    ensures start <= |s|
    ensures start > 0 ==> StartsWith(s, Opener(p)) && |Opener(p)| <= start
  {
    if !StartsWith(s, Opener(p)) then 0
    else if p.CodeBlock? then
      var w := WordRun(s[8..]);
      if w > 0 && StartsWith(s[8 + w..], ";;") then 8 + w + 2 else 0
    else |Opener(p)|
  }

  /** The match of `p` that starts exactly at the beginning of `s`, if any. */
  function MatchAt(p: Pattern, s: string): (r: Option<Match>)
    ensures r.Some? ==> 0 < r.value.len <= |s|
  {
    var start := BodyStart(p, s);
    if start == 0 then None
    else
      match LazyBody(s, start, Closer(p))
      case None => None
      case Some(m) => if p.McsBlock? && '\n' in m.group then None else Some(m)
  }

  /**
   * A match opens with the opener, ends with its body followed by the closer,
   * and its body holds no closer (and, for `McsBlock`, no newline).
   */
  lemma MatchAtShape(p: Pattern, s: string)
    requires MatchAt(p, s).Some?
    ensures var m := MatchAt(p, s).value;
      && StartsWith(s, Opener(p))
      && s[m.len - |Closer(p)| - |m.group|..m.len] == m.group + Closer(p)
      && !Contains(m.group, Closer(p))
      && (p.McsBlock? ==> '\n' !in m.group)
  {
    var m := MatchAt(p, s).value;
    var start := BodyStart(p, s);
    assert LazyBody(s, start, Closer(p)) == Some(m);
    BodyThenCloser(s, start, Closer(p));
  }

  /** A lazy body and its closer sit side by side at the end of the match. */
  lemma BodyThenCloser(s: string, start: nat, c: string)
    requires start <= |s| && c != [] && LazyBody(s, start, c).Some?
    ensures var m := LazyBody(s, start, c).value;
      && s[m.len - |c| - |m.group|..m.len] == m.group + c
      && !Contains(m.group, c)
  {
    var m := LazyBody(s, start, c).value;
    var g := |m.group|;
    LazyBodyShortest(s, start, c);
    SliceSplit(s, start, start + g, m.len);
  }

  /** Apart from code blocks, a match is exactly the opener, the body and the closer. */
  lemma MatchAtDelimited(p: Pattern, s: string)
    requires !p.CodeBlock? && MatchAt(p, s).Some?
    ensures var m := MatchAt(p, s).value;
      s[..m.len] == Opener(p) + m.group + Closer(p)
  {
    var m := MatchAt(p, s).value;
    var start := BodyStart(p, s);
    assert start == |Opener(p)|;
    assert LazyBody(s, start, Closer(p)) == Some(m);
    BodyThenCloser(s, start, Closer(p));
    assert s[0..start] == Opener(p);
    SliceSplit(s, 0, start, m.len);
    assert s[..m.len] == s[0..m.len];
  }

  /**
   * A matcher: the match starting exactly at the beginning of a string, if
   * any. A match is never empty, so the search after it always advances.
   */
  type Matcher = f: string -> Option<Match> | forall t :: f(t).Some? ==> 0 < f(t).value.len <= |t|
    witness NeverMatches

  function NeverMatches(t: string): Option<Match> {
    None
  }

  /** The matcher of one of the patterns. */
  function MatcherOf(p: Pattern): Matcher {
    t => MatchAt(p, t)
  }

  /** The match starting at offset `j` of `s`, if any. */
  function MatchFrom(f: Matcher, s: string, j: nat): Option<Match>
    requires j <= |s|
  {
    f(s[j..])
  }

  /** Where a match was found, and the match. */
  datatype Found = Found(at: nat, m: Match)

  /** The leftmost match in `s` at offset `i` or later. */
  function SearchFrom(f: Matcher, s: string, i: nat): (r: Option<Found>)
    requires i <= |s|
    ensures r.Some? ==> i <= r.value.at && 0 < r.value.m.len && r.value.at + r.value.m.len <= |s|
    ensures r.Some? ==> MatchFrom(f, s, r.value.at) == Some(r.value.m)
    decreases |s| - i
  {
    match MatchFrom(f, s, i)
    case Some(m) => Some(Found(i, m))
    case None => if i == |s| then None else SearchFrom(f, s, i + 1)
  }

  /** `re.search`: the leftmost match, with its offset. */
  function Search(f: Matcher, s: string): (r: Option<Found>)
    ensures r.Some? ==> 0 < r.value.m.len && r.value.at + r.value.m.len <= |s|
    ensures r.Some? ==> MatchFrom(f, s, r.value.at) == Some(r.value.m)
  {
    SearchFrom(f, s, 0)
  }

  /** Nothing matches between `i` and the match `SearchFrom` reports, and nothing at all when it reports none. */
  lemma {:induction false} SearchFromLeftmost(f: Matcher, s: string, i: nat)
    requires i <= |s|
    ensures SearchFrom(f, s, i).Some? ==> forall j :: i <= j < SearchFrom(f, s, i).value.at ==> MatchFrom(f, s, j).None?
    ensures SearchFrom(f, s, i).None? <==> forall j :: i <= j <= |s| ==> MatchFrom(f, s, j).None?
    decreases |s| - i
  {
    if MatchFrom(f, s, i).None? && i < |s| {
      SearchFromLeftmost(f, s, i + 1);
    }
  }

  /** `Search` reports the leftmost match, and finds one whenever one exists. */
  lemma SearchLeftmost(f: Matcher, s: string)
    ensures Search(f, s).Some? ==> forall j :: 0 <= j < Search(f, s).value.at ==> MatchFrom(f, s, j).None?
    ensures Search(f, s).None? <==> forall j :: 0 <= j <= |s| ==> MatchFrom(f, s, j).None?
  {
    SearchFromLeftmost(f, s, 0);
  }

  /** A match with no match before it is the one `re.search` reports. */
  lemma SearchFindsLeftmost(f: Matcher, s: string, k: nat)
    requires k <= |s| && MatchFrom(f, s, k).Some?
    requires forall j :: 0 <= j < k ==> MatchFrom(f, s, j).None?
    ensures Search(f, s) == Some(Found(k, MatchFrom(f, s, k).value))
  {
    SearchLeftmost(f, s);
  }

  /**
   * `re.sub`: the leftmost match is replaced by `repl` of its body and the
   * search resumes after it, so replaced matches never overlap.
   */
  function Sub(f: Matcher, s: string, repl: string -> string): string
    decreases |s|
  {
    match Search(f, s)
    case None => s
    case Some(Found(k, m)) => s[..k] + repl(m.group) + Sub(f, s[k + m.len..], repl)
  }

  /**
   * A match of `p` at offset `k` of `s` opens with the opener, its body holds
   * no closer (and, for `McsBlock`, no newline), and apart from code blocks
   * it is exactly the opener, the body and the closer.
   */
  lemma {:induction false} MatchAtOffset(p: Pattern, s: string, k: nat, m: Match)
    requires k <= |s| && MatchAt(p, s[k..]) == Some(m)
    ensures k < |s| && s[k] == Opener(p)[0]
    ensures !Contains(m.group, Closer(p))
    ensures p.McsBlock? ==> '\n' !in m.group
    ensures !p.CodeBlock? ==> s[k..k + m.len] == Opener(p) + m.group + Closer(p)
  {
    var t := s[k..];
    MatchAtShape(p, t);
    if !p.CodeBlock? {
      MatchAtDelimited(p, t);
      assert s[k..k + m.len] == t[..m.len];
    }
  }

  /** What `re.search` reports is a match of the pattern at the offset it reports. */
  lemma SearchMatchAt(p: Pattern, s: string)
    requires Search(MatcherOf(p), s).Some?
    ensures var x := Search(MatcherOf(p), s).value;
      MatchAt(p, s[x.at..]) == Some(x.m)
  {
    var x := Search(MatcherOf(p), s).value;
    assert MatchFrom(MatcherOf(p), s, x.at) == Some(x.m);
  }

  /** Apart from code blocks, a match at offset `k` is the opener, the body and the closer. */
  lemma MatchAtOffsetDelimited(p: Pattern, s: string, k: nat, m: Match)
    requires !p.CodeBlock? && k <= |s| && MatchAt(p, s[k..]) == Some(m)
    ensures k + m.len <= |s| && s[k..k + m.len] == Opener(p) + m.group + Closer(p)
  {
    MatchAtDelimited(p, s[k..]);
    SuffixPrefix(s, k, m.len);
  }

  /** The first `n` characters from offset `k`. */
  lemma SuffixPrefix(s: string, k: nat, n: nat)
    requires k + n <= |s|
    ensures s[k..][..n] == s[k..k + n]
  {
  }

  /** `re.sub` replaces the leftmost match, keeps what precedes it and goes on after it. */
  lemma SubFirst(f: Matcher, s: string, repl: string -> string)
    requires Search(f, s).Some?
    ensures var x := Search(f, s).value;
      Sub(f, s, repl) == s[..x.at] + repl(x.m.group) + Sub(f, s[x.at + x.m.len..], repl)
  {
  }

  /** Where nothing matches, `re.sub` returns the string unchanged. */
  lemma SubNoMatch(f: Matcher, s: string, repl: string -> string)
    requires forall j :: 0 <= j <= |s| ==> MatchFrom(f, s, j).None?
    ensures Sub(f, s, repl) == s
  {
    SearchLeftmost(f, s);
  }

  /** The replacement that deletes a match. */
  function Erase(body: string): string {
    ""
  }

  /** Erasing the matches keeps the text before the leftmost one and goes on after it. */
  lemma EraseFirst(f: Matcher, s: string)
    requires Search(f, s).Some?
    ensures var x := Search(f, s).value;
      Sub(f, s, Erase) == s[..x.at] + Sub(f, s[x.at + x.m.len..], Erase)
  {
    var x := Search(f, s).value;
    SubFirst(f, s, Erase);
    assert Erase(x.m.group) == [];
    assert s[..x.at] + [] == s[..x.at];
  }

  /** Deleting the matches shortens exactly the strings that have one. */
  lemma {:induction false} SubEraseShortens(f: Matcher, s: string)
    ensures |Sub(f, s, Erase)| <= |s|
    ensures Search(f, s).Some? <==> |Sub(f, s, Erase)| < |s|
    decreases |s|
  {
    match Search(f, s)
    case None =>
    case Some(Found(k, m)) =>
      var rest := s[k + m.len..];
      SubEraseShortens(f, rest);
      assert Sub(f, s, Erase) == s[..k] + Erase(m.group) + Sub(f, rest, Erase);
      assert |Sub(f, s, Erase)| == k + |Sub(f, rest, Erase)|;
  }

  // ---------------------------------------------------------------- re.split

  /**
   * `re.split` with a pattern without groups: the pieces between the
   * leftmost, non-overlapping matches, found as `re.search` finds them.
   */
  function Split(f: Matcher, s: string): (r: seq<string>)
    ensures |r| >= 1
    decreases |s|
  {
    match Search(f, s)
    case None => [s]
    case Some(Found(k, m)) => [s[..k]] + Split(f, s[k + m.len..])
  }

  /** The text of each match `re.split` removes, in order. */
  function SplitMatches(f: Matcher, s: string): seq<string>
    decreases |s|
  {
    match Search(f, s)
    case None => []
    case Some(Found(k, m)) => [s[k..k + m.len]] + SplitMatches(f, s[k + m.len..])
  }

  /** With a match, the first piece ends where it starts and the split goes on after it. */
  lemma SplitStep(f: Matcher, s: string)
    requires Search(f, s).Some?
    ensures var x := Search(f, s).value;
      && Split(f, s) == [s[..x.at]] + Split(f, s[x.at + x.m.len..])
      && SplitMatches(f, s) == [s[x.at..x.at + x.m.len]] + SplitMatches(f, s[x.at + x.m.len..])
  {
  }

  /** Without a match, the text is the only piece. */
  lemma SplitNone(f: Matcher, s: string)
    requires Search(f, s).None?
    ensures Split(f, s) == [s] && SplitMatches(f, s) == []
  {
  }

  /** The pieces with the removed matches put back between them. */
  function Interleave(pieces: seq<string>, seps: seq<string>): string
    requires |pieces| == |seps| + 1
    decreases |seps|
  {
    if seps == [] then pieces[0] else pieces[0] + seps[0] + Interleave(pieces[1..], seps[1..])
  }

  /**
   * There is one piece more than there are matches, and the pieces with the
   * matches put back between them rebuild the text.
   */
  lemma {:induction false} SplitRebuild(f: Matcher, s: string)
    ensures |Split(f, s)| == |SplitMatches(f, s)| + 1
    ensures Interleave(Split(f, s), SplitMatches(f, s)) == s
    decreases |s|
  {
    if Search(f, s).Some? {
      var x := Search(f, s).value;
      var rest := s[x.at + x.m.len..];
      SplitStep(f, s);
      SplitRebuild(f, rest);
      InterleaveCons(s[..x.at], s[x.at..x.at + x.m.len], Split(f, rest), SplitMatches(f, rest));
      SliceThree(s, x.at, x.at + x.m.len);
    } else {
      SplitNone(f, s);
    }
  }

  /** Putting one more piece and match in front puts them in front of the rebuilt text. */
  lemma InterleaveCons(p: string, sep: string, pieces: seq<string>, seps: seq<string>)
    requires |pieces| == |seps| + 1
    ensures Interleave([p] + pieces, [sep] + seps) == p + sep + Interleave(pieces, seps)
  {
    assert ([p] + pieces)[1..] == pieces;
    assert ([sep] + seps)[1..] == seps;
  }

  /** A text is its three slices at `a` and `b`, joined. */
  lemma SliceThree(s: string, a: nat, b: nat)
    requires a <= b <= |s|
    ensures s == s[..a] + s[a..b] + s[b..]
  {
  }

  /** No match starts anywhere in `t`. */
  ghost predicate NoMatchIn(f: Matcher, t: string) {
    forall j :: 0 <= j <= |t| ==> MatchFrom(f, t, j).None?
  }

  /** `t`, on its own, is one whole match. */
  ghost predicate WholeMatch(f: Matcher, t: string) {
    f(t).Some? && f(t).value.len == |t|
  }

  /** A match on a prefix is a match on the whole: the pattern decides before the end of the text. */
  ghost predicate PrefixClosed(f: Matcher) {
    forall t, n: nat :: n <= |t| && f(t[..n]).Some? ==> f(t).Some?
  }

  /** The text a match covers is, on its own, a whole match. */
  ghost predicate CoverClosed(f: Matcher) {
    forall t :: f(t).Some? ==> WholeMatch(f, t[..f(t).value.len])
  }

  /** For a pattern closed under prefixes, the text before the leftmost match holds no match. */
  lemma BeforeLeftmost(f: Matcher, s: string)
    requires PrefixClosed(f) && Search(f, s).Some?
    ensures NoMatchIn(f, s[..Search(f, s).value.at])
  {
    var k := Search(f, s).value.at;
    SearchLeftmost(f, s);
    forall j | 0 <= j <= k
      ensures MatchFrom(f, s[..k], j).None?
    {
      var p := s[..k][j..];
      assert p == s[j..][..k - j];
      if j < k {
        assert MatchFrom(f, s, j).None?;
      }
    }
  }

  /**
   * For a pattern closed under prefixes and covers, no piece of a split holds
   * a match anywhere, and every text removed is, on its own, a whole match.
   */
  lemma {:induction false} SplitClean(f: Matcher, s: string)
    requires PrefixClosed(f) && CoverClosed(f)
    ensures forall i :: 0 <= i < |Split(f, s)| ==> NoMatchIn(f, Split(f, s)[i])
    ensures forall i :: 0 <= i < |SplitMatches(f, s)| ==> WholeMatch(f, SplitMatches(f, s)[i])
    decreases |s|
  {
    if Search(f, s).Some? {
      var x := Search(f, s).value;
      var rest := s[x.at + x.m.len..];
      SplitStep(f, s);
      BeforeLeftmost(f, s);
      assert s[x.at..][..x.m.len] == s[x.at..x.at + x.m.len];
      SplitClean(f, rest);
      forall i | 0 <= i < |Split(f, s)|
        ensures NoMatchIn(f, Split(f, s)[i])
      {
        if i > 0 {
          assert Split(f, s)[i] == Split(f, rest)[i - 1];
        }
      }
      forall i | 0 <= i < |SplitMatches(f, s)|
        ensures WholeMatch(f, SplitMatches(f, s)[i])
      {
        if i > 0 {
          assert SplitMatches(f, s)[i] == SplitMatches(f, rest)[i - 1];
        }
      }
    } else {
      SplitNone(f, s);
      SearchLeftmost(f, s);
    }
  }
}
