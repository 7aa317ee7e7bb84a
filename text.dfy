/** The few Python `str` operations the converter relies on, on `seq<char>`. */
module Text {

  /** `c.isspace()` for the characters Python counts as whitespace. */
  predicate IsSpace(c: char) {
    || ('\t' <= c <= '\r') || ('\U{1C}' <= c <= ' ') || c == '\U{85}' || c == '\U{A0}'
    || c == '\U{1680}' || ('\U{2000}' <= c <= '\U{200A}') || c == '\U{2028}' || c == '\U{2029}'
    || c == '\U{202F}' || c == '\U{205F}' || c == '\U{3000}'
  }

  /** The characters at which `str.splitlines` breaks a line. */
  predicate IsLineBreak(c: char) {
    ('\n' <= c <= '\r') || ('\U{1C}' <= c <= '\U{1E}') || c == '\U{85}' || c == '\U{2028}' || c == '\U{2029}'
  }

  predicate AllSpace(s: string) {
    forall i :: 0 <= i < |s| ==> IsSpace(s[i])
  }

  predicate NoLineBreak(s: string) {
    forall i :: 0 <= i < |s| ==> !IsLineBreak(s[i])
  }

  predicate IsDigit(c: char) {
    '0' <= c <= '9'
  }

  predicate AllDigits(s: string) {
    forall i :: 0 <= i < |s| ==> IsDigit(s[i])
  }

  function StartsWith(s: string, prefix: string): bool {
    |prefix| <= |s| && s[..|prefix|] == prefix
  }

  function EndsWith(s: string, suffix: string): bool {
    |suffix| <= |s| && s[|s| - |suffix|..] == suffix
  }

  // ---------------------------------------------------------------------------
  // strip()

  /** Number of whitespace characters at the front of `s`. */
  function LeadingSpace(s: string): (n: nat)
    ensures n <= |s| && AllSpace(s[..n])
    ensures n < |s| ==> !IsSpace(s[n])
  {
    if s == [] || !IsSpace(s[0]) then 0 else 1 + LeadingSpace(s[1..])
  }

  /** Number of whitespace characters at the back of `s`. */
  function TrailingSpace(s: string): (n: nat)
    ensures n <= |s| && AllSpace(s[|s| - n..])
    ensures n < |s| ==> !IsSpace(s[|s| - n - 1])
  {
    if s == [] || !IsSpace(s[|s| - 1]) then 0 else 1 + TrailingSpace(s[..|s| - 1])
  }

  /** `s.strip()`: `s` without its leading and trailing whitespace. */
  function Strip(s: string): (r: string)
    ensures r == [] <==> AllSpace(s)
    ensures r != [] ==> r == s[LeadingSpace(s)..|s| - TrailingSpace(s)]
    ensures r != [] ==> !IsSpace(r[0]) && !IsSpace(r[|r| - 1])
  {
    var i := LeadingSpace(s);
    var j := TrailingSpace(s);
    if i == |s| then [] else s[i..|s| - j]
  }

  /** Stripping is idempotent: a stripped string has nothing left to strip. */
  lemma StripIdempotent(s: string)
    ensures Strip(Strip(s)) == Strip(s)
  {
    var r := Strip(s);
    if r != [] {
      assert LeadingSpace(r) == 0;
      assert TrailingSpace(r) == 0;
    }
  }

  // ---------------------------------------------------------------------------
  // splitlines()

  /** Index of the first line break of `s`, or `|s|` when there is none. */
  function BreakAt(s: string): (i: nat)
    ensures i <= |s| && NoLineBreak(s[..i])
    ensures i < |s| ==> IsLineBreak(s[i])
  {
    if s == [] || IsLineBreak(s[0]) then 0 else 1 + BreakAt(s[1..])
  }

  /** `s.splitlines()`: the lines of `s` without their line breaks; `\r\n`
      is one break, and a break at the very end opens no further line. */
  function SplitLines(s: string): (lines: seq<string>)
    ensures lines == [] <==> s == []
    ensures forall k :: 0 <= k < |lines| ==> NoLineBreak(lines[k])
    decreases |s|
  {
    if s == [] then []
    else
      var i := BreakAt(s);
      if i == |s| then [s]
      else
        var next := if s[i] == '\r' && i + 1 < |s| && s[i + 1] == '\n' then i + 2 else i + 1;
        [s[..i]] + SplitLines(s[next..])
  }

  /** The inverse direction: lines joined with `\n`. */
  function JoinLines(lines: seq<string>): string {
    if lines == [] then []
    else if |lines| == 1 then lines[0]
    else lines[0] + "\n" + JoinLines(lines[1..])
  }

  /** Number of occurrences of `c` in `s`. */
  function Count(s: string, c: char): nat {
    if s == [] then 0 else (if s[0] == c then 1 else 0) + Count(s[1..], c)
  }

  lemma {:induction false} CountAppend(a: string, b: string, c: char)
    ensures Count(a + b, c) == Count(a, c) + Count(b, c)
  {
    if a == [] {
      assert a + b == b;
    } else {
      assert (a + b)[1..] == a[1..] + b;
      CountAppend(a[1..], b, c);
    }
  }

  /** Lines joined with `\n` split back into the same lines, provided no line
      holds a break and the last one is not empty (a trailing `\n` opens no line). */
  lemma {:induction false} SplitJoin(lines: seq<string>)
    requires lines != [] && lines[|lines| - 1] != []
    requires forall k :: 0 <= k < |lines| ==> NoLineBreak(lines[k])
    ensures SplitLines(JoinLines(lines)) == lines
  {
    var first := lines[0];
    if |lines| == 1 {
      assert BreakAt(first) == |first|;
    } else {
      var tail := lines[1..];
      assert tail[|tail| - 1] == lines[|lines| - 1];
      assert forall k :: 0 <= k < |tail| ==> tail[k] == lines[k + 1];
      SplitJoin(tail);
      SplitLinesStep(first, JoinLines(tail));
      assert lines == [first] + tail;
    }
  }

  /** A line without breaks, then `\n`: the line is split off. */
  lemma SplitLinesStep(first: string, rest: string)
    requires NoLineBreak(first)
    ensures SplitLines(first + "\n" + rest) == [first] + SplitLines(rest)
  {
    var s := first + "\n" + rest;
    assert s == first + ("\n" + rest);
    BreakAtPrefix(first, "\n" + rest);
    assert s[|first|] == '\n';
    assert s[..|first|] == first;
    assert s[|first| + 1..] == rest;
  }

  /** `s` breaks lines only at `\n`. */
  predicate OnlyNewlineBreaks(s: string) {
    forall i :: 0 <= i < |s| && IsLineBreak(s[i]) ==> s[i] == '\n'
  }

  /** Text whose only line breaks are `\n` and which does not end in one
      joins back from its lines, and has one more line than it has `\n`s. */
  lemma {:induction false} JoinSplit(s: string)
    requires s != [] && s[|s| - 1] != '\n' && OnlyNewlineBreaks(s)
    ensures JoinLines(SplitLines(s)) == s
    ensures |SplitLines(s)| == Count(s, '\n') + 1
    decreases |s|
  {
    var i := BreakAt(s);
    var line := s[..i];
    NoBreakNoNewline(line);
    if i == |s| {
      assert line == s;
    } else {
      assert s[i] == '\n';
      var rest := s[i + 1..];
      assert rest != [];
      assert OnlyNewlineBreaks(rest) by {
        forall k | 0 <= k < |rest| && IsLineBreak(rest[k]) ensures rest[k] == '\n' {
          assert rest[k] == s[i + 1 + k];
        }
      }
      assert rest[|rest| - 1] == s[|s| - 1];
      assert SplitLines(s) == [line] + SplitLines(rest);
      JoinSplit(rest);
      var lines := SplitLines(rest);
      var all := [line] + lines;
      assert |all| >= 2 && all[0] == line && all[1..] == lines;
      assert JoinLines(all) == line + "\n" + JoinLines(lines);
      CountAround(s, i);
    }
  }

  /** Cutting `s` around one `\n`: the pieces, and how the count of `\n`s adds up. */
  lemma {:induction false} CountAround(s: string, i: nat)
    requires i < |s| && s[i] == '\n'
    ensures s == s[..i] + "\n" + s[i + 1..]
    ensures Count(s, '\n') == Count(s[..i], '\n') + 1 + Count(s[i + 1..], '\n')
  {
    assert s == s[..i] + ("\n" + s[i + 1..]);
    CountAppend(s[..i], "\n" + s[i + 1..], '\n');
    CountAppend("\n", s[i + 1..], '\n');
  }

  lemma {:induction false} NoBreakNoNewline(s: string)
    requires NoLineBreak(s)
    ensures Count(s, '\n') == 0
  {
    if s != [] {
      assert IsLineBreak('\n');
      NoBreakNoNewline(s[1..]);
    }
  }

  lemma {:induction false} BreakAtPrefix(a: string, b: string)
    requires NoLineBreak(a) && b != [] && IsLineBreak(b[0])
    ensures BreakAt(a + b) == |a|
  {
    if a != [] {
      assert (a + b)[1..] == a[1..] + b;
      BreakAtPrefix(a[1..], b);
    } else {
      assert a + b == b;
    }
  }

  /** `max(map(len, lines))`: the length of the longest line. */
  function MaxLen(lines: seq<string>): (m: nat)
    requires lines != []
    ensures forall k :: 0 <= k < |lines| ==> |lines[k]| <= m
    ensures exists k :: 0 <= k < |lines| && |lines[k]| == m
  {
    if |lines| == 1 then |lines[0]|
    else
      var m := MaxLen(lines[1..]);
      assert forall k :: 1 <= k < |lines| ==> lines[k] == lines[1..][k - 1];
      if |lines[0]| >= m then |lines[0]| else m
  }

  // ---------------------------------------------------------------------------
  // lower()

  function LowerChar(c: char): (d: char)
    ensures 'A' <= c <= 'Z' ==> 'a' <= d <= 'z' && d as int - c as int == 32
    ensures !('A' <= c <= 'Z') ==> d == c
  {
    if 'A' <= c <= 'Z' then (c as int + 32) as char else c
  }

  /** `s.lower()` on ASCII letters; every other character is kept. */
  function Lower(s: string): (r: string)
    ensures |r| == |s|
    ensures forall i :: 0 <= i < |s| ==> r[i] == LowerChar(s[i])
  {
    if s == [] then [] else [LowerChar(s[0])] + Lower(s[1..])
  }

  // ---------------------------------------------------------------------------
  // replace()

  /** `s.replace(pat, rep)`: every occurrence of `pat`, scanning left to right
      without overlap, is replaced by `rep`. */
  function Replace(s: string, pat: string, rep: string): string
    requires pat != []
    decreases |s|
  {
    if s == [] then []
    else if StartsWith(s, pat) then rep + Replace(s[|pat|..], pat, rep)
    else [s[0]] + Replace(s[1..], pat, rep)
  }

  /** Indents every line after the first by four spaces. */
  function Indent(s: string): string {
    Replace(s, "\n", "\n    ")
  }

  /** Removes four spaces of indentation after every newline. */
  function Dedent(s: string): string {
    Replace(s, "\n    ", "\n")
  }

  /** Dedenting undoes indenting. */
  lemma {:induction false} DedentIndent(s: string)
    ensures Dedent(Indent(s)) == s
    decreases |s|
  {
    if s != [] {
      DedentIndent(s[1..]);
      var tail := Indent(s[1..]);
      if s[0] == '\n' {
        assert StartsWith(s, "\n");
        assert Indent(s) == "\n    " + tail;
        var t := "\n    " + tail;
        assert StartsWith(t, "\n    ");
        assert t[5..] == tail;
      } else {
        assert !StartsWith(s, "\n");
        assert Indent(s) == [s[0]] + tail;
        var t := [s[0]] + tail;
        assert !StartsWith(t, "\n    ");
        assert t[1..] == tail;
      }
    }
  }

  // ---------------------------------------------------------------------------
  // Decimal numerals: `"%s" % n` and `int(digits)`

  function DigitChar(d: nat): (c: char)
    requires d < 10
    ensures IsDigit(c) && c as int - '0' as int == d
  {
    ('0' as int + d) as char
  }

  /** The decimal numeral of `n`, without leading zeros. */
  function Decimal(n: nat): (s: string)
    ensures s != [] && AllDigits(s)
  {
    if n < 10 then [DigitChar(n)] else Decimal(n / 10) + [DigitChar(n % 10)]
  }

  /** The value of a string of decimal digits (leading zeros allowed). */
  function ParseDigits(s: string): nat
    requires AllDigits(s)
  {
    if s == [] then 0 else 10 * ParseDigits(s[..|s| - 1]) + (s[|s| - 1] as int - '0' as int)
  }

  lemma {:induction false} ParseDecimal(n: nat)
    ensures ParseDigits(Decimal(n)) == n
  {
    if n >= 10 {
      var s := Decimal(n);
      assert s[..|s| - 1] == Decimal(n / 10);
      ParseDecimal(n / 10);
    }
  }

  /** Number of leading decimal digits of `s`. */
  function DigitRun(s: string): (n: nat)
    ensures n <= |s| && AllDigits(s[..n])
    ensures n < |s| ==> !IsDigit(s[n])
  {
    if s == [] || !IsDigit(s[0]) then 0 else 1 + DigitRun(s[1..])
  }

  lemma {:induction false} DigitRunPrefix(a: string, b: string)
    requires AllDigits(a) && (b == [] || !IsDigit(b[0]))
    ensures DigitRun(a + b) == |a|
  {
    if a != [] {
      assert (a + b)[1..] == a[1..] + b;
      DigitRunPrefix(a[1..], b);
    } else {
      assert a + b == b;
    }
  }

  /** Distinct numbers have distinct numerals. */
  lemma DecimalInjective(j: nat, k: nat)
    requires Decimal(j) == Decimal(k)
    ensures j == k
  {
    ParseDecimal(j);
    ParseDecimal(k);
  }
}
