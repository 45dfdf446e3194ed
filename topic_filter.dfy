/** The Solace topic-filter helpers of the web client:
    `convertSolaceTopicFilterToRegex`, which rewrites a filter into a
    JavaScript regular expression, and `topicMatchesTopicFilter`, which tests
    a topic against that expression with an extra guard on `/`-segment counts.

    The regular expressions produced here only ever contain literal characters
    and the run `.*`. They are read as a sequence of `Token`s, and matching is
    defined on tokens. For filters that satisfy `ValidFilter`, no character
    other than the rewritten wildcards has a meaning in a JavaScript regular
    expression, so the token reading is the regex's own meaning. */
module TopicFilter {

  // ---------------------------------------------------------------------------
  // String helpers with JavaScript's meaning

  /** `s.replace(/c/g, r)`: every `c` becomes `r`, everything else is copied. */
  function ReplaceAll(s: string, c: char, r: string): string {
    if s == [] then [] else (if s[0] == c then r else [s[0]]) + ReplaceAll(s[1..], c, r)
  }

  /** Replacing distributes over concatenation. */
  lemma {:induction false} ReplaceAllAppend(a: string, b: string, c: char, r: string)
    ensures ReplaceAll(a + b, c, r) == ReplaceAll(a, c, r) + ReplaceAll(b, c, r)
  {
    if a == [] {
      assert a + b == b;
    } else {
      assert (a + b)[0] == a[0];
      assert (a + b)[1..] == a[1..] + b;
      ReplaceAllAppend(a[1..], b, c, r);
    }
  }

  /** `s.lastIndexOf(c)` for a one-character needle: the last index holding
      `c`, or -1 when there is none. */
  function LastIndexOf(s: string, c: char): (r: int)
    ensures -1 <= r < |s|
    ensures r == -1 <==> c !in s
    ensures r >= 0 ==> s[r] == c && forall j | r < j < |s| :: s[j] != c
  {
    if s == [] then -1
    else if s[|s| - 1] == c then |s| - 1
    else
      assert s == s[..|s| - 1] + [s[|s| - 1]];
      LastIndexOf(s[..|s| - 1], c)
  }

  /** The number of UTF-16 code units JavaScript stores for a character: two
      for a character outside the Basic Multilingual Plane, one otherwise. */
  function Utf16Units(ch: char): nat {
    if ch as int >= 0x1_0000 then 2 else 1
  }

  /** `s.length`, which counts UTF-16 code units. */
  function JsLength(s: string): (n: nat)
    ensures |s| <= n <= 2 * |s|
  {
    if s == [] then 0 else Utf16Units(s[0]) + JsLength(s[1..])
  }

  lemma {:induction false} JsLengthAppend(a: string, b: string)
    ensures JsLength(a + b) == JsLength(a) + JsLength(b)
  {
    if a == [] {
      assert a + b == b;
    } else {
      assert (a + b)[0] == a[0];
      assert (a + b)[1..] == a[1..] + b;
      JsLengthAppend(a[1..], b);
    }
  }

  /** JavaScript's length is the number of characters exactly when every
      character lies in the Basic Multilingual Plane. */
  lemma {:induction false} JsLengthBmp(s: string)
    ensures JsLength(s) == |s| <==> forall k | 0 <= k < |s| :: s[k] as int < 0x1_0000
  {
    if s != [] {
      JsLengthBmp(s[1..]);
      if forall k | 0 <= k < |s| :: s[k] as int < 0x1_0000 {
        assert forall k | 0 <= k < |s[1..]| :: s[1..][k] as int < 0x1_0000 by {
          forall k | 0 <= k < |s[1..]| ensures s[1..][k] as int < 0x1_0000 {
            assert s[1..][k] == s[k + 1];
          }
        }
      }
      if s[0] as int < 0x1_0000 && forall k | 0 <= k < |s[1..]| :: s[1..][k] as int < 0x1_0000 {
        forall k | 0 <= k < |s| ensures s[k] as int < 0x1_0000 {
          if k > 0 {
            assert s[k] == s[1..][k - 1];
          }
        }
      }
    }
  }

  /** Splitting around one character splits the length. */
  lemma JsLengthSplit(s: string, i: int)
    requires 0 <= i < |s|
    ensures JsLength(s) == JsLength(s[..i]) + Utf16Units(s[i]) + JsLength(s[i + 1..])
  {
    var pre, mid, post := s[..i], [s[i]], s[i + 1..];
    assert s == pre + (mid + post);
    JsLengthAppend(pre, mid + post);
    JsLengthAppend(mid, post);
    assert JsLength(mid) == Utf16Units(s[i]) by {
      assert mid[0] == s[i] && mid[1..] == [];
    }
  }

  /** `s.lastIndexOf(c)` in JavaScript's units: the number of UTF-16 code
      units before the last `c`, or -1 when there is none. */
  function JsLastIndexOf(s: string, c: char): (r: int)
    ensures -1 <= r < JsLength(s)
    ensures r == -1 <==> c !in s
    ensures r >= 0 ==> r == JsLength(s[..LastIndexOf(s, c)])
  {
    var i := LastIndexOf(s, c);
    if i < 0 then -1
    else
      assert s == s[..i] + s[i..];
      JsLengthAppend(s[..i], s[i..]);
      JsLength(s[..i])
  }

  /** `s.substring(start, end)`: both bounds are clamped into [0, |s|] and
      swapped when out of order. */
  function JsSubstring(s: string, start: int, end: int): string {
    var a := if start < 0 then 0 else if start > |s| then |s| else start;
    var b := if end < 0 then 0 else if end > |s| then |s| else end;
    if a <= b then s[a..b] else s[b..a]
  }

  /** The number of pieces `s.split(sep)` returns for a one-character
      separator: one more than the number of separators. */
  function SplitLength(s: string, sep: char): (n: nat)
    ensures n == multiset(s)[sep] + 1
    ensures n == 1 <==> sep !in s
  {
    if s == [] then 1
    else
      assert s == [s[0]] + s[1..];
      assert multiset(s) == multiset([s[0]]) + multiset(s[1..]);
      SplitLength(s[1..], sep) + (if s[0] == sep then 1 else 0)
  }

  /** `s.split("/").length` */
  function SegmentCount(s: string): nat {
    SplitLength(s, '/')
  }

  // ---------------------------------------------------------------------------
  // convertSolaceTopicFilterToRegex

  /** The filter characters that a rewrite turns into "any run of characters". */
  predicate IsWildcard(ch: char) {
    ch == '*' || ch == '#'
  }

  /** What the two `replace` calls make of one character. */
  function ExpandChar(ch: char): string {
    if IsWildcard(ch) then ".*" else [ch]
  }

  /** The character-by-character reading of the two `replace` calls. */
  function Expanded(s: string): string {
    if s == [] then [] else ExpandChar(s[0]) + Expanded(s[1..])
  }

  lemma {:induction false} ExpandedAppend(a: string, b: string)
    ensures Expanded(a + b) == Expanded(a) + Expanded(b)
  {
    if a == [] {
      assert a + b == b;
    } else {
      assert (a + b)[0] == a[0];
      assert (a + b)[1..] == a[1..] + b;
      ExpandedAppend(a[1..], b);
    }
  }

  /** Replacing `*` and then `#` by `.*` rewrites every `*` and every `#` into
      `.*` and copies every other character in order: the second replacement
      never meets a `*` or a `.` it would have to treat specially. */
  lemma {:induction false} ReplaceWildcards(s: string)
    ensures ReplaceAll(ReplaceAll(s, '*', ".*"), '#', ".*") == Expanded(s)
  {
    if s != [] {
      var head := if s[0] == '*' then ".*" else [s[0]];
      assert ReplaceAll(s, '*', ".*") == head + ReplaceAll(s[1..], '*', ".*");
      ReplaceAllAppend(head, ReplaceAll(s[1..], '*', ".*"), '#', ".*");
      if s[0] == '*' {
        assert ReplaceAll(".*", '#', ".*") == ".*" by {
          assert ".*"[1..] == "*";
          assert "*"[1..] == "";
        }
      } else {
        assert ReplaceAll([s[0]], '#', ".*") == ExpandChar(s[0]) by {
          assert [s[0]][1..] == [];
        }
      }
      ReplaceWildcards(s[1..]);
    }
  }

  /** `convertSolaceTopicFilterToRegex` as written: both replacements, then,
      when `lastIndexOf(">")` equals `length - 1` (both in UTF-16 units), the
      last character of the rewritten string is cut off and `.*` appended. */
  function ToRegex(filter: string): string {
    var rewritten := ReplaceAll(ReplaceAll(filter, '*', ".*"), '#', ".*");
    if JsLastIndexOf(filter, '>') == JsLength(filter) - 1 then
      JsSubstring(rewritten, 0, |rewritten| - 1) + ".*"
    else
      rewritten
  }

  /** The test on `>` holds exactly when the filter is empty or ends in `>`,
      whatever characters come before: a `>` is a single code unit, so it is
      at `length - 1` only when it is the last character. */
  lemma TrailingGtUnits(filter: string)
    ensures JsLastIndexOf(filter, '>') == JsLength(filter) - 1
            <==> filter == [] || filter[|filter| - 1] == '>'
  {
    var i := LastIndexOf(filter, '>');
    if i >= 0 {
      JsLengthSplit(filter, i);
      assert JsLength(filter[i + 1..]) == 0 <==> i == |filter| - 1;
    }
  }

  /** The empty filter becomes `.*`: there `lastIndexOf` and `length - 1` are
      both -1, and the substring of the empty string is empty. */
  lemma ToRegexEmpty()
    ensures ToRegex("") == ".*"
  {
    TrailingGtUnits("");
  }

  /** A trailing `>` becomes `.*`, after the rest has been rewritten. */
  lemma ToRegexTrailingGt(filter: string)
    requires |filter| > 0 && filter[|filter| - 1] == '>'
    ensures ToRegex(filter) == Expanded(filter[..|filter| - 1]) + ".*"
  {
    var init := filter[..|filter| - 1];
    assert filter == init + ">";
    TrailingGtUnits(filter);
    ReplaceWildcards(filter);
    ExpandedAppend(init, ">");
    assert Expanded(">") == ">" by {
      assert ">"[1..] == [];
    }
    var rewritten := ReplaceAll(ReplaceAll(filter, '*', ".*"), '#', ".*");
    assert rewritten == Expanded(init) + ">";
    assert JsSubstring(rewritten, 0, |rewritten| - 1) == Expanded(init);
  }

  /** A filter not ending in `>` is only rewritten; in particular a `>`
      anywhere else is kept. */
  lemma ToRegexNoTrailingGt(filter: string)
    requires |filter| > 0 && filter[|filter| - 1] != '>'
    ensures ToRegex(filter) == Expanded(filter)
  {
    TrailingGtUnits(filter);
    ReplaceWildcards(filter);
  }

  /** The rewrite of a string with a `>` in it is the rewrite of the part
      before, the `>` itself, and the rewrite of the part after. */
  lemma ExpandedAroundGt(pre: string, post: string)
    ensures Expanded(pre + ">" + post) == Expanded(pre) + ">" + Expanded(post)
  {
    ExpandedAppend(pre, ">" + post);
    assert (">" + post)[0] == '>';
    assert (">" + post)[1..] == post;
    assert pre + ">" + post == pre + (">" + post);
  }

  /** A `>` before the last position shows up verbatim in the regex, right
      after the rewrite of the characters before it. */
  lemma InnerGtKept(filter: string, i: int)
    requires 0 <= i < |filter| - 1 && filter[i] == '>'
    ensures |Expanded(filter[..i])| < |ToRegex(filter)|
    ensures ToRegex(filter)[|Expanded(filter[..i])|] == '>'
  {
    var n := |filter|;
    var pre := filter[..i];
    var rest: string;
    if filter[n - 1] == '>' {
      var mid := filter[i + 1..n - 1];
      assert filter[..n - 1] == pre + ">" + mid;
      ExpandedAroundGt(pre, mid);
      ToRegexTrailingGt(filter);
      rest := Expanded(mid) + ".*";
    } else {
      var post := filter[i + 1..];
      assert filter == pre + ">" + post;
      ExpandedAroundGt(pre, post);
      ToRegexNoTrailingGt(filter);
      rest := Expanded(post);
    }
    assert ToRegex(filter) == Expanded(pre) + ">" + rest;
  }

  // ---------------------------------------------------------------------------
  // Reading the regex as tokens

  /** A literal character, or `.*`: any run of characters other than line
      terminators. */
  datatype Token = Lit(c: char) | AnyRun

  /** The characters a `.` in a JavaScript regex does not match. */
  predicate LineTerminator(ch: char) {
    ch == '\n' || ch == '\r' || ch == '\U{2028}' || ch == '\U{2029}'
  }

  function TokenOf(ch: char): Token {
    if IsWildcard(ch) then AnyRun else Lit(ch)
  }

  function TokensOf(s: string): (ts: seq<Token>)
    ensures |ts| == |s|
  {
    seq(|s|, k requires 0 <= k < |s| => TokenOf(s[k]))
  }

  /** The tokens of `ToRegex(filter)`, read from the filter. */
  function Pattern(filter: string): seq<Token> {
    if filter == [] then [AnyRun]
    else if filter[|filter| - 1] == '>' then TokensOf(filter[..|filter| - 1]) + [AnyRun]
    else TokensOf(filter)
  }

  /** The regex text of a token sequence. */
  function Render(ts: seq<Token>): string {
    if ts == [] then []
    else (if ts[0].AnyRun? then ".*" else [ts[0].c]) + Render(ts[1..])
  }

  lemma {:induction false} RenderAppend(a: seq<Token>, b: seq<Token>)
    ensures Render(a + b) == Render(a) + Render(b)
  {
    if a == [] {
      assert a + b == b;
    } else {
      assert (a + b)[0] == a[0];
      assert (a + b)[1..] == a[1..] + b;
      RenderAppend(a[1..], b);
    }
  }

  lemma {:induction false} RenderTokensOf(s: string)
    ensures Render(TokensOf(s)) == Expanded(s)
  {
    if s != [] {
      assert TokensOf(s)[1..] == TokensOf(s[1..]);
      RenderTokensOf(s[1..]);
    }
  }

  /** The tokens are a reading of exactly the string the conversion builds. */
  lemma RenderPattern(filter: string)
    ensures Render(Pattern(filter)) == ToRegex(filter)
  {
    if filter == [] {
      ToRegexEmpty();
      assert Render([AnyRun]) == ".*";
    } else if filter[|filter| - 1] == '>' {
      var init := filter[..|filter| - 1];
      RenderAppend(TokensOf(init), [AnyRun]);
      assert Render([AnyRun]) == ".*";
      RenderTokensOf(init);
      ToRegexTrailingGt(filter);
    } else {
      RenderTokensOf(filter);
      ToRegexNoTrailingGt(filter);
    }
  }

  /** The characters with a meaning in a JavaScript regular expression. */
  const RegexMeta: set<char> := {'\\', '^', '$', '.', '|', '?', '*', '+', '(', ')', '[', ']', '{', '}'}

  /** A filter whose only regex metacharacter is the `*` wildcard. */
  predicate ValidFilter(filter: string) {
    forall i | 0 <= i < |filter| :: filter[i] == '*' || filter[i] !in RegexMeta
  }

  /** For a valid filter no literal token is a metacharacter, so the regex
      means exactly what its tokens say. */
  lemma PatternLiteralsPlain(filter: string)
    requires ValidFilter(filter)
    ensures forall k | 0 <= k < |Pattern(filter)| :: Pattern(filter)[k].Lit? ==> Pattern(filter)[k].c !in RegexMeta
  {
    forall k | 0 <= k < |Pattern(filter)| && Pattern(filter)[k].Lit?
      ensures Pattern(filter)[k].c !in RegexMeta
    {
      assert Pattern(filter)[k] == TokenOf(filter[k]);
    }
  }

  // ---------------------------------------------------------------------------
  // Matching

  predicate NoLineTerminator(s: string) {
    forall k | 0 <= k < |s| :: !LineTerminator(s[k])
  }

  /** The tokens match all of `s`. */
  predicate Matches(ts: seq<Token>, s: string)
    decreases |ts|
  {
    if ts == [] then s == []
    else if ts[0].Lit? then |s| > 0 && s[0] == ts[0].c && Matches(ts[1..], s[1..])
    else exists j | 0 <= j <= |s| :: NoLineTerminator(s[..j]) && Matches(ts[1..], s[j..])
  }

  /** The tokens match some prefix of `s`: the regex finds a match starting
      at index 0. */
  predicate MatchesPrefix(ts: seq<Token>, s: string)
    decreases |ts|
  {
    if ts == [] then true
    else if ts[0].Lit? then |s| > 0 && s[0] == ts[0].c && MatchesPrefix(ts[1..], s[1..])
    else exists j | 0 <= j <= |s| :: NoLineTerminator(s[..j]) && MatchesPrefix(ts[1..], s[j..])
  }

  /** Matching a prefix is matching all of some prefix. */
  lemma {:induction false} MatchesPrefixIff(ts: seq<Token>, s: string)
    ensures MatchesPrefix(ts, s) <==> exists k | 0 <= k <= |s| :: Matches(ts, s[..k])
    decreases |ts|, 1
  {
    if ts == [] {
      assert Matches(ts, s[..0]);
    } else if ts[0].Lit? {
      LitPrefixToMatch(ts, s);
      LitMatchToPrefix(ts, s);
    } else {
      AnyPrefixToMatch(ts, s);
      AnyMatchToPrefix(ts, s);
    }
  }

  lemma LitPrefixToMatch(ts: seq<Token>, s: string)
    requires ts != [] && ts[0].Lit?
    ensures MatchesPrefix(ts, s) ==> exists k | 0 <= k <= |s| :: Matches(ts, s[..k])
    decreases |ts|, 0
  {
    if MatchesPrefix(ts, s) {
      MatchesPrefixIff(ts[1..], s[1..]);
      var k :| 0 <= k <= |s[1..]| && Matches(ts[1..], s[1..][..k]);
      assert s[..k + 1][1..] == s[1..][..k];
      assert Matches(ts, s[..k + 1]);
    }
  }

  lemma LitMatchToPrefix(ts: seq<Token>, s: string)
    requires ts != [] && ts[0].Lit?
    ensures (exists k | 0 <= k <= |s| :: Matches(ts, s[..k])) ==> MatchesPrefix(ts, s)
    decreases |ts|, 0
  {
    if exists k | 0 <= k <= |s| :: Matches(ts, s[..k]) {
      var k :| 0 <= k <= |s| && Matches(ts, s[..k]);
      assert s[..k][1..] == s[1..][..k - 1];
      MatchesPrefixIff(ts[1..], s[1..]);
    }
  }

  lemma AnyPrefixToMatch(ts: seq<Token>, s: string)
    requires ts != [] && ts[0].AnyRun?
    ensures MatchesPrefix(ts, s) ==> exists k | 0 <= k <= |s| :: Matches(ts, s[..k])
    decreases |ts|, 0
  {
    if MatchesPrefix(ts, s) {
      var j :| 0 <= j <= |s| && NoLineTerminator(s[..j]) && MatchesPrefix(ts[1..], s[j..]);
      MatchesPrefixIff(ts[1..], s[j..]);
      var k :| 0 <= k <= |s[j..]| && Matches(ts[1..], s[j..][..k]);
      assert s[..j + k][..j] == s[..j];
      assert s[..j + k][j..] == s[j..][..k];
      assert Matches(ts, s[..j + k]);
    }
  }

  lemma AnyMatchToPrefix(ts: seq<Token>, s: string)
    requires ts != [] && ts[0].AnyRun?
    ensures (exists k | 0 <= k <= |s| :: Matches(ts, s[..k])) ==> MatchesPrefix(ts, s)
    decreases |ts|, 0
  {
    if exists k | 0 <= k <= |s| :: Matches(ts, s[..k]) {
      var k :| 0 <= k <= |s| && Matches(ts, s[..k]);
      var j :| 0 <= j <= k && NoLineTerminator(s[..k][..j]) && Matches(ts[1..], s[..k][j..]);
      assert s[..k][..j] == s[..j];
      assert s[..k][j..] == s[j..][..k - j];
      MatchesPrefixIff(ts[1..], s[j..]);
      assert MatchesPrefix(ts[1..], s[j..]);
    }
  }

  // ---------------------------------------------------------------------------
  // topicMatchesTopicFilter

  /** `topicMatchesTopicFilter(filter, topic)`: the regex must match at index
      0; and when the regex's last `*` sits at index `topic.length - 1` (both
      in UTF-16 units), the `/`-segment counts of regex and topic must also
      agree. */
  function TopicMatches(filter: string, topic: string): bool {
    var regex := ToRegex(filter);
    if MatchesPrefix(Pattern(filter), topic) then
      if JsLastIndexOf(regex, '*') == JsLength(topic) - 1 && SegmentCount(regex) != SegmentCount(topic) then false
      else true
    else false
  }

  /** A topic matches exactly when the pattern matches some prefix of it
      (the match is not anchored at the end) and the segment guard does not
      fire. */
  lemma TopicMatchesIff(filter: string, topic: string)
    ensures TopicMatches(filter, topic)
            <==> (exists k | 0 <= k <= |topic| :: Matches(Pattern(filter), topic[..k]))
                 && !(JsLastIndexOf(ToRegex(filter), '*') == JsLength(topic) - 1
                      && SegmentCount(ToRegex(filter)) != SegmentCount(topic))
  {
    MatchesPrefixIff(Pattern(filter), topic);
  }

  /** A filter with no wildcard at all. */
  predicate Literal(filter: string) {
    |filter| > 0 && filter[|filter| - 1] != '>' && forall i | 0 <= i < |filter| :: !IsWildcard(filter[i])
  }

  lemma {:induction false} LiteralTokensPrefix(s: string, topic: string)
    requires forall i | 0 <= i < |s| :: !IsWildcard(s[i])
    ensures MatchesPrefix(TokensOf(s), topic) <==> s <= topic
  {
    if s != [] {
      assert TokensOf(s)[0] == Lit(s[0]);
      assert TokensOf(s)[1..] == TokensOf(s[1..]);
      if |topic| > 0 {
        LiteralTokensPrefix(s[1..], topic[1..]);
        assert s <= topic <==> s[0] == topic[0] && s[1..] <= topic[1..];
      }
    }
  }

  lemma {:induction false} LiteralExpanded(s: string)
    requires forall i | 0 <= i < |s| :: !IsWildcard(s[i])
    ensures Expanded(s) == s
  {
    if s != [] {
      LiteralExpanded(s[1..]);
    }
  }

  /** A filter without wildcards matches exactly the topics it is a prefix
      of: `prices` matches `prices/AAPL`. */
  lemma LiteralFilterPrefix(filter: string, topic: string)
    requires Literal(filter) && ValidFilter(filter)
    ensures TopicMatches(filter, topic) <==> filter <= topic
  {
    LiteralTokensPrefix(filter, topic);
    ToRegexNoTrailingGt(filter);
    LiteralExpanded(filter);
    assert '*' !in ToRegex(filter) by {
      forall i | 0 <= i < |filter| ensures filter[i] != '*' {
        assert !IsWildcard(filter[i]);
      }
    }
  }

  /** The filter `a/` + `*` becomes the regex `a/.*`. */
  lemma SlashStarText()
    ensures ToRegex("a/*") == "a/.*"
  {
    ToRegexNoTrailingGt("a/*");
    assert Expanded("a/*") == "a/.*" by {
      assert "a/*"[1..] == "/*";
      assert "/*"[1..] == "*";
      assert "*"[1..] == "";
      assert Expanded("*") == ".*";
      assert Expanded("/*") == "/.*";
    }
  }

  /** It is read as the tokens `a`, `/`, `.*`. */
  lemma SlashStarTokens()
    ensures Pattern("a/*") == [Lit('a'), Lit('/'), AnyRun]
  {
    var ts := [Lit('a'), Lit('/'), AnyRun];
    assert TokensOf("a/*") == ts by {
      forall k | 0 <= k < 3 ensures TokensOf("a/*")[k] == ts[k] {
        assert TokensOf("a/*")[k] == TokenOf("a/*"[k]);
      }
    }
  }

  /** The regex `a/.*` has its last `*` at index 3 and two segments. */
  lemma SlashStarShape()
    ensures LastIndexOf("a/.*", '*') == 3
    ensures SegmentCount("a/.*") == 2
  {
    assert SegmentCount("a/.*") == 2 by {
      assert "a/.*"[1..] == "/.*";
      assert "/.*"[1..] == ".*";
      assert ".*"[1..] == "*";
      assert "*"[1..] == "";
    }
  }

  /** In UTF-16 units too, the last `*` of `a/.*` is at index 3. */
  lemma SlashStarUnits()
    ensures JsLastIndexOf("a/.*", '*') == 3
  {
    SlashStarShape();
    assert "a/.*"[..3] == "a/.";
    assert JsLength("a/.") == 3 by {
      assert "a/."[1..] == "/.";
      assert "/."[1..] == ".";
      assert "."[1..] == "";
    }
  }

  /** The regex `a/.*` matches at index 0 exactly the topics that begin
      with `a/`, whatever follows. */
  lemma SlashStarMatchesPrefix(topic: string)
    ensures MatchesPrefix(Pattern("a/*"), topic) <==> |topic| >= 2 && topic[..2] == "a/"
  {
    SlashStarTokens();
    var p := [Lit('a'), Lit('/'), AnyRun];
    assert p[1..] == [Lit('/'), AnyRun] && p[1..][1..] == [AnyRun] && [AnyRun][1..] == [];
    if |topic| >= 2 {
      var rest := topic[2..];
      assert topic[1..][1..] == rest;
      assert MatchesPrefix([AnyRun], rest) by {
        assert NoLineTerminator(rest[..0]);
        assert MatchesPrefix([AnyRun][1..], rest[0..]);
      }
      assert topic[..2] == "a/" <==> topic[0] == 'a' && topic[1] == '/';
    }
  }

  /** The segment guard rejects `a//b` for the filter `a/` + `*`: the regex
      `a/.*` matches it, its last `*` sits at index 3 = `topic.length - 1`,
      and the regex has two segments where the topic has three. */
  lemma GuardRejects()
    ensures !TopicMatches("a/*", "a//b")
  {
    SlashStarText();
    SlashStarShape();
    SlashStarUnits();
    assert JsLength("a//b") == 4 by {
      assert "a//b"[1..] == "//b";
      assert "//b"[1..] == "/b";
      assert "/b"[1..] == "b";
      assert "b"[1..] == "";
    }
    assert SegmentCount("a//b") == 3 by {
      assert "a//b"[1..] == "//b";
      assert "//b"[1..] == "/b";
      assert "/b"[1..] == "b";
      assert "b"[1..] == "";
    }
  }

  /** When the lengths do not line up the guard does not fire, and the
      single-level wildcard of `a/` + `*` also matches the two levels of
      `a/b/c`. */
  lemma WildcardSpansLevels()
    ensures TopicMatches("a/*", "a/b/c")
  {
    SlashStarText();
    SlashStarUnits();
    SlashStarMatchesPrefix("a/b/c");
    assert "a/b/c"[..2] == "a/";
  }

  /** The empty filter matches every topic, except that the guard rejects
      the topics of JavaScript length 2 that contain a `/`: the regex `.*` has
      its `*` at index 1 and a single segment. */
  lemma EmptyFilterMatches(topic: string)
    ensures TopicMatches("", topic) <==> !(JsLength(topic) == 2 && '/' in topic)
  {
    ToRegexEmpty();
    assert Pattern("") == [AnyRun];
    assert MatchesPrefix([AnyRun], topic) by {
      assert NoLineTerminator(topic[..0]);
      assert MatchesPrefix([AnyRun][1..], topic[0..]);
    }
    assert LastIndexOf(".*", '*') == 1;
    assert JsLength(".") == 1 by {
      assert ".*"[..1] == ".";
      assert "."[1..] == "";
    }
    assert SegmentCount(".*") == 1;
  }

  /** A character outside the Basic Multilingual Plane counts twice in the
      guard: the topic `a/` + U+1F600 + `/` has JavaScript length 5, so the
      last `*` of `a/.*` (index 3) is not at `length - 1` and the regex match
      stands, although the topic has one segment more than the regex. */
  lemma AstralTopicMatches()
    ensures JsLength("a/\U{1F600}/") == 5
    ensures TopicMatches("a/*", "a/\U{1F600}/")
  {
    AstralUnits();
    SlashStarText();
    SlashStarUnits();
    SlashStarMatchesPrefix("a/\U{1F600}/");
    assert "a/\U{1F600}/"[..2] == "a/";
  }

  lemma AstralUnits()
    ensures JsLength("a/\U{1F600}/") == 5
  {
    var t: string := "a/\U{1F600}/";
    assert t[1..] == "/\U{1F600}/";
    assert t[1..][1..] == "\U{1F600}/";
    assert t[1..][1..][1..] == "/";
    assert "/"[1..] == "";
  }
}
