/**
 * Text primitives the normaliser takes from JavaScript: `split('\n')`,
 * out-of-range-safe indexing, the regular-expression classes `\s` and `\b`,
 * the `for\s*\(` pre-check, the whole-word search `new RegExp('\\b' + name + '\\b')`
 * and the comma-space column adjustment.
 */
module HostText {
  import opened Wrappers

  // ---------------------------------------------------------------------------
  // Lines of the host document
  // ---------------------------------------------------------------------------

  /** `s.split('\n')`: the pieces between newline characters, always at least one. */
  function SplitLines(s: string): (lines: seq<string>)
    ensures |lines| >= 1
    ensures forall k :: 0 <= k < |lines| ==> '\n' !in lines[k]
    decreases |s|
  {
    if |s| == 0 then [""]
    else
      var rest := SplitLines(s[1..]);
      if s[0] == '\n' then [""] + rest
      else [[s[0]] + rest[0]] + rest[1..]
  }

  /** `lines.join('\n')`, the inverse of `SplitLines`. */
  function JoinLines(lines: seq<string>): string
    requires |lines| >= 1
  {
    if |lines| == 1 then lines[0] else lines[0] + "\n" + JoinLines(lines[1..])
  }

  /** Splitting loses nothing: joining the lines back gives the document. */
  lemma {:induction false} JoinSplitLines(s: string)
    ensures JoinLines(SplitLines(s)) == s
    decreases |s|
  {
    if |s| > 0 {
      var rest := SplitLines(s[1..]);
      JoinSplitLines(s[1..]);
      if s[0] == '\n' {
        assert SplitLines(s) == [""] + rest;
        assert ([""] + rest)[1..] == rest;
      } else {
        var lines := [[s[0]] + rest[0]] + rest[1..];
        assert SplitLines(s) == lines;
        if |rest| == 1 {
          assert JoinLines(lines) == [s[0]] + rest[0];
        } else {
          assert lines[1..] == rest[1..];
          assert JoinLines(rest) == rest[0] + "\n" + JoinLines(rest[1..]);
          assert JoinLines(lines) == [s[0]] + rest[0] + "\n" + JoinLines(rest[1..]);
        }
        assert s == [s[0]] + s[1..];
      }
    }
  }

  /** A prefix without a newline is glued to the first line of what follows. */
  lemma {:induction false} SplitLinesPrefix(a: string, b: string)
    requires '\n' !in a
    ensures SplitLines(a + b) == [a + SplitLines(b)[0]] + SplitLines(b)[1..]
    decreases |a|
  {
    if |a| == 0 {
      assert a + b == b;
      assert a + SplitLines(b)[0] == SplitLines(b)[0];
      assert SplitLines(b) == [SplitLines(b)[0]] + SplitLines(b)[1..];
    } else {
      assert (a + b)[0] == a[0];
      assert (a + b)[1..] == a[1..] + b;
      assert '\n' !in a[1..] by {
        forall k | 0 <= k < |a[1..]| ensures a[1..][k] != '\n' {
          assert a[1..][k] == a[k + 1];
        }
      }
      SplitLinesPrefix(a[1..], b);
      assert [a[0]] + (a[1..] + SplitLines(b)[0]) == a + SplitLines(b)[0];
    }
  }

  /** Lines without newlines survive a join and a split unchanged. */
  lemma {:induction false} SplitJoinLines(lines: seq<string>)
    requires |lines| >= 1
    requires forall k :: 0 <= k < |lines| ==> '\n' !in lines[k]
    ensures SplitLines(JoinLines(lines)) == lines
    decreases |lines|
  {
    SplitLinesPrefix(lines[0], if |lines| == 1 then "" else "\n" + JoinLines(lines[1..]));
    if |lines| == 1 {
      assert lines[0] + "" == lines[0];
      assert SplitLines("") == [""];
    } else {
      SplitJoinLines(lines[1..]);
      var rest := JoinLines(lines[1..]);
      assert ("\n" + rest)[0] == '\n';
      assert ("\n" + rest)[1..] == rest;
      assert SplitLines("\n" + rest) == [""] + lines[1..];
      assert JoinLines(lines) == lines[0] + ("\n" + rest);
      assert lines[0] + "" == lines[0];
      assert lines == [lines[0]] + lines[1..];
    }
  }

  /** `lines[index] || ''`: the line at a 0-based index, or the empty string when out of range. */
  function LineAt(lines: seq<string>, index: int): string {
    if 0 <= index < |lines| then lines[index] else ""
  }

  /** `text[k]`: the character at `k`, or `undefined` when out of range. */
  function CharAt(text: string, k: int): Option<char> {
    if 0 <= k < |text| then Some(text[k]) else None
  }

  // ---------------------------------------------------------------------------
  // Character classes of JavaScript regular expressions (no `u` flag)
  // ---------------------------------------------------------------------------

  /** `/\s/`: the JavaScript white-space and line-terminator characters. */
  predicate IsJsWhitespace(c: char) {
    var n := c as int;
    n == 0x09 || n == 0x0A || n == 0x0B || n == 0x0C || n == 0x0D || n == 0x20 ||
    n == 0xA0 || n == 0x1680 || (0x2000 <= n <= 0x200A) || n == 0x2028 || n == 0x2029 ||
    n == 0x202F || n == 0x205F || n == 0x3000 || n == 0xFEFF
  }

  /** `\w`: the ASCII word characters `[A-Za-z0-9_]`. */
  predicate IsWordChar(c: char) {
    ('a' <= c <= 'z') || ('A' <= c <= 'Z') || ('0' <= c <= '9') || c == '_'
  }

  /** A word character stands at `p` (positions outside the text are not word characters). */
  predicate WordAt(text: string, p: int) {
    0 <= p < |text| && IsWordChar(text[p])
  }

  /** `\b` holds at `p`: exactly one of the characters around `p` is a word character. */
  predicate IsBoundary(text: string, p: int) {
    WordAt(text, p - 1) != WordAt(text, p)
  }

  // ---------------------------------------------------------------------------
  // The `for\s*\(` pre-check
  // ---------------------------------------------------------------------------

  /** `\s*\(` matches at `j`: white space up to an opening parenthesis. */
  predicate ParenAfterSpaces(text: string, j: nat)
    decreases |text| - j
  {
    j < |text| && (text[j] == '(' || (IsJsWhitespace(text[j]) && ParenAfterSpaces(text, j + 1)))
  }

  /** `/for\s*\(/` matches at `k`. */
  predicate ForParenAt(text: string, k: nat) {
    k + 3 <= |text| && text[k..k + 3] == "for" && ParenAfterSpaces(text, k + 3)
  }

  /** `/for\s*\(/.test(text)`: the text contains `for`, optional white space and `(`. */
  predicate HasForParen(text: string) {
    exists k: nat | k < |text| :: ForParenAt(text, k)
  }

  /** `ParenAfterSpaces` is the regular expression `\s*\(` anchored at `j`: some `(` follows only white space. */
  lemma {:induction false} ParenAfterSpacesMeaning(text: string, j: nat)
    ensures ParenAfterSpaces(text, j) <==>
      exists p :: j <= p < |text| && text[p] == '(' && forall m :: j <= m < p ==> IsJsWhitespace(text[m])
    decreases |text| - j
  {
    if j < |text| && text[j] != '(' {
      ParenAfterSpacesMeaning(text, j + 1);
      if ParenAfterSpaces(text, j) {
        var p :| j + 1 <= p < |text| && text[p] == '(' && forall m :: j + 1 <= m < p ==> IsJsWhitespace(text[m]);
        assert forall m :: j <= m < p ==> IsJsWhitespace(text[m]);
      }
      if exists p :: j <= p < |text| && text[p] == '(' && forall m :: j <= m < p ==> IsJsWhitespace(text[m]) {
        var p :| j <= p < |text| && text[p] == '(' && forall m :: j <= m < p ==> IsJsWhitespace(text[m]);
        assert p != j && IsJsWhitespace(text[j]);
        assert forall m :: j + 1 <= m < p ==> IsJsWhitespace(text[m]);
      }
    }
  }

  // ---------------------------------------------------------------------------
  // The whole-word search `new RegExp('\\b' + name + '\\b').exec(text)`
  // ---------------------------------------------------------------------------

  /**
   * Matches the pattern text `pattern` at position `p`, returning the end of the
   * match. The name is pasted into the regular expression unescaped; among the
   * characters a TypeScript identifier can hold only `$` is special: it asserts
   * the end of the input and consumes nothing. Every other character matches itself.
   */
  function MatchFrom(text: string, pattern: string, p: nat): (end: Option<nat>)
    ensures end.Some? ==> p <= end.value <= p + |pattern|
    ensures end.Some? && p <= |text| ==> end.value <= |text|
    decreases |pattern|
  {
    if |pattern| == 0 then Some(p)
    else if pattern[0] == '$' then
      if p == |text| then MatchFrom(text, pattern[1..], p) else None
    else if p < |text| && text[p] == pattern[0] then MatchFrom(text, pattern[1..], p + 1)
    else None
  }

  /** `\b<name>\b` matches starting at `k`. */
  predicate WholeWordAt(text: string, name: string, k: nat) {
    IsBoundary(text, k) && MatchFrom(text, name, k).Some? && IsBoundary(text, MatchFrom(text, name, k).value)
  }

  /** `exec` from position `k` on: the leftmost start at or after `k` where the pattern matches. */
  function WholeWordIndexFrom(text: string, name: string, k: nat): (r: Option<nat>)
    ensures r.Some? ==> k <= r.value <= |text| && WholeWordAt(text, name, r.value)
    ensures r.Some? ==> forall j: nat :: k <= j < r.value ==> !WholeWordAt(text, name, j)
    ensures r.None? ==> forall j: nat :: k <= j <= |text| ==> !WholeWordAt(text, name, j)
    decreases |text| + 1 - k
  {
    if k > |text| then None
    else if WholeWordAt(text, name, k) then Some(k)
    else WholeWordIndexFrom(text, name, k + 1)
  }

  /** `match.index` of `new RegExp('\\b' + name + '\\b').exec(text)`, or `None` for no match. */
  function WholeWordIndex(text: string, name: string): (r: Option<nat>)
    ensures r.Some? ==> r.value <= |text| && WholeWordAt(text, name, r.value)
  {
    WholeWordIndexFrom(text, name, 0)
  }

  /** Without `$`, the pattern is the literal name: it matches exactly the characters of `name`. */
  lemma {:induction false} MatchFromLiteral(text: string, pattern: string, p: nat)
    requires '$' !in pattern
    requires p <= |text|
    ensures MatchFrom(text, pattern, p) ==
      if p + |pattern| <= |text| && text[p..p + |pattern|] == pattern then Some(p + |pattern|) else None
    decreases |pattern|
  {
    if |pattern| > 0 {
      assert '$' !in pattern[1..] by {
        forall i | 0 <= i < |pattern[1..]| ensures pattern[1..][i] != '$' {
          assert pattern[1..][i] == pattern[i + 1];
        }
      }
      assert pattern[0] != '$';
      if p < |text| && text[p] == pattern[0] {
        MatchFromLiteral(text, pattern[1..], p + 1);
        if p + |pattern| <= |text| {
          var whole := text[p..p + |pattern|];
          assert whole[1..] == text[p + 1..p + 1 + |pattern[1..]|];
          if whole == pattern {
            assert whole[1..] == pattern[1..];
          }
          if text[p + 1..p + 1 + |pattern[1..]|] == pattern[1..] {
            assert whole == [whole[0]] + whole[1..];
            assert pattern == [pattern[0]] + pattern[1..];
          }
        }
      } else if p + |pattern| <= |text| {
        assert text[p..p + |pattern|][0] == text[p];
      }
    }
  }

  /**
   * For a name without `$` (every plain identifier), the search finds the leftmost
   * occurrence of the name delimited by word boundaries on both sides.
   */
  lemma WholeWordIndexLiteral(text: string, name: string)
    requires '$' !in name
    ensures forall k: nat :: WholeWordAt(text, name, k) <==>
      (k + |name| <= |text| && text[k..k + |name|] == name && IsBoundary(text, k) && IsBoundary(text, k + |name|))
    ensures WholeWordIndex(text, name).Some? ==>
      var k := WholeWordIndex(text, name).value;
      k + |name| <= |text| && text[k..k + |name|] == name && IsBoundary(text, k) && IsBoundary(text, k + |name|)
  {
    forall k: nat | k <= |text| ensures MatchFrom(text, name, k) ==
      if k + |name| <= |text| && text[k..k + |name|] == name then Some(k + |name|) else None
    {
      MatchFromLiteral(text, name, k);
    }
  }

  /**
   * A name that starts with `$` followed by an ordinary character (a Svelte store
   * reference such as `$items`) never matches: the `$` demands the end of the line
   * and the next character then has nothing left to match.
   */
  lemma DollarNameNeverMatches(text: string, name: string)
    requires |name| >= 2 && name[0] == '$' && name[1] != '$'
    ensures WholeWordIndex(text, name).None?
  {
    forall k: nat | k <= |text| ensures !WholeWordAt(text, name, k) {
      assert MatchFrom(text, name, k).None? by {
        if k == |text| {
          assert name[1..][0] == name[1];
        }
      }
    }
  }

  // ---------------------------------------------------------------------------
  // Snippet column to host column, with the comma-space adjustment
  // ---------------------------------------------------------------------------

  /**
   * The host column of a snippet column: the stripped indentation is added back,
   * and a column that lands on the space of a `", "` separator is moved back one
   * onto the comma.
   */
  function HostColumn(text: string, snippetCol: int, indent: int): (col: int)
    ensures var shifted := snippetCol + indent;
      col == shifted || (col == shifted - 1 && CharAt(text, col) == Some(',') && CharAt(text, shifted) == Some(' '))
    ensures var shifted := snippetCol + indent;
      col == shifted ==> !(shifted > 0 && CharAt(text, shifted - 1) == Some(',') && CharAt(text, shifted) == Some(' '))
  {
    var shifted := snippetCol + indent;
    if shifted > 0 && CharAt(text, shifted - 1) == Some(',') && CharAt(text, shifted) == Some(' ') then shifted - 1 else shifted
  }

  /** In `foo(a, b)` a position on the space after the comma (column 6) is reported at the comma (column 5). */
  lemma HostColumnSeparatorExample()
    ensures HostColumn("foo(a, b)", 6, 0) == 5
    ensures HostColumn("foo(a, b)", 7, 0) == 7
  {
  }
}
