/** The Python string operations the modelled code relies on, on the ASCII range:
    `isspace`, `strip`, `lower`/`casefold`, `split(" ", 1)`, `splitlines`, slicing,
    truthiness of optional strings and `str()` of a non-negative integer. */
module Text {
  import opened Wrappers

  /** Python's `str.isspace()` restricted to ASCII: space, \t \n \v \f \r and \x1c-\x1f. */
  predicate IsSpace(c: char) {
    c == ' ' || ('\t' <= c <= '\r') || ('\U{1C}' <= c <= '\U{1F}')
  }

  predicate AllSpace(s: string) {
    forall i :: 0 <= i < |s| ==> IsSpace(s[i])
  }

  predicate IsDigit(c: char) {
    '0' <= c <= '9'
  }

  /** Python's `s.lstrip()`. */
  function LStrip(s: string): string {
    if |s| > 0 && IsSpace(s[0]) then LStrip(s[1..]) else s
  }

  /** Python's `s.rstrip()`. */
  function RStrip(s: string): string {
    if |s| > 0 && IsSpace(s[|s| - 1]) then RStrip(s[..|s| - 1]) else s
  }

  /** `lstrip` leaves the suffix that follows the longest all-space prefix. */
  lemma {:induction false} LStripShape(s: string)
    ensures |LStrip(s)| <= |s| && LStrip(s) == s[|s| - |LStrip(s)|..]
    ensures AllSpace(s[..|s| - |LStrip(s)|])
    ensures LStrip(s) == [] || !IsSpace(LStrip(s)[0])
    decreases |s|
  {
    if |s| > 0 && IsSpace(s[0]) {
      LStripShape(s[1..]);
      var r := LStrip(s);
      assert s[1..][..|s| - 1 - |r|] == s[1..|s| - |r|];
    }
  }

  /** `rstrip` leaves the prefix that precedes the longest all-space suffix. */
  lemma {:induction false} RStripShape(s: string)
    ensures |RStrip(s)| <= |s| && RStrip(s) == s[..|RStrip(s)|]
    ensures AllSpace(s[|RStrip(s)|..])
    ensures RStrip(s) == [] || !IsSpace(RStrip(s)[|RStrip(s)| - 1])
    decreases |s|
  {
    if |s| > 0 && IsSpace(s[|s| - 1]) {
      RStripShape(s[..|s| - 1]);
      var r := RStrip(s);
      assert s[..|s| - 1][|r|..] == s[|r|..|s| - 1];
      assert s[|r|..] == s[|r|..|s| - 1] + [s[|s| - 1]];
      assert forall i :: |r| <= i < |s| - 1 ==> s[i] == s[..|s| - 1][|r|..][i - |r|];
    }
  }

  /** Python's `s.strip()`. */
  function Strip(s: string): string {
    RStrip(LStrip(s))
  }

  /** ASCII `lower()`; on ASCII text `casefold()` is the same map. */
  function LowerChar(c: char): char {
    if 'A' <= c <= 'Z' then (c as int + 32) as char else c
  }

  /** Python's `s.lower()` and `s.casefold()` on ASCII text. */
  function FoldCase(s: string): string {
    seq(|s|, i requires 0 <= i < |s| => LowerChar(s[i]))
  }

  /** `x.strip().casefold()` and `x.casefold().strip()` are the same string. */
  lemma {:induction false} StripFoldCase(s: string)
    ensures Strip(FoldCase(s)) == FoldCase(Strip(s))
  {
    LStripFoldCase(s);
    RStripFoldCase(LStrip(s));
  }

  lemma {:induction false} LStripFoldCase(s: string)
    ensures LStrip(FoldCase(s)) == FoldCase(LStrip(s))
    decreases |s|
  {
    if |s| > 0 && IsSpace(s[0]) {
      assert FoldCase(s)[1..] == FoldCase(s[1..]);
      LStripFoldCase(s[1..]);
    }
  }

  lemma {:induction false} RStripFoldCase(s: string)
    ensures RStrip(FoldCase(s)) == FoldCase(RStrip(s))
    decreases |s|
  {
    if |s| > 0 && IsSpace(s[|s| - 1]) {
      assert FoldCase(s)[..|s| - 1] == FoldCase(s[..|s| - 1]);
      RStripFoldCase(s[..|s| - 1]);
    }
  }

  /** A string strips to nothing exactly when every character is white space. */
  lemma StripBlank(s: string)
    ensures Strip(s) == [] <==> AllSpace(s)
  {
    var l := LStrip(s);
    LStripShape(s);
    RStripShape(l);
    if Strip(s) == [] {
      assert l[0..] == l;
      assert s == s[..|s| - |l|] + l;
    }
  }

  /** Case folding never turns a blank field into a non-blank one or back. */
  lemma NormBlank(s: string)
    ensures Strip(FoldCase(s)) == [] <==> Strip(s) == []
  {
    StripFoldCase(s);
  }

  /** White space around a string does not survive `strip()`. */
  lemma StripPadding(pre: string, x: string, post: string)
    requires AllSpace(pre) && AllSpace(post)
    ensures Strip(pre + x + post) == Strip(x)
  {
    assert pre + x + post == pre + (x + post);
    LStripSpacePrefix(pre, x + post);
    if AllSpace(x) {
      StripBlank(x);
      assert AllSpace(x + post);
      LStripShape(x + post);
      assert LStrip(x + post) == [];
    } else {
      LStripAppend(x, post);
      RStripSpaceSuffix(LStrip(x), post);
    }
  }

  lemma {:induction false} LStripSpacePrefix(p: string, y: string)
    requires AllSpace(p)
    ensures LStrip(p + y) == LStrip(y)
    decreases |p|
  {
    if p != [] {
      assert IsSpace(p[0]);
      assert (p + y)[0] == p[0];
      assert (p + y)[1..] == p[1..] + y;
      assert LStrip(p + y) == LStrip((p + y)[1..]);
      LStripSpacePrefix(p[1..], y);
    } else {
      assert p + y == y;
    }
  }

  lemma {:induction false} RStripSpaceSuffix(y: string, q: string)
    requires AllSpace(q)
    ensures RStrip(y + q) == RStrip(y)
    decreases |q|
  {
    if q != [] {
      assert IsSpace(q[|q| - 1]);
      assert (y + q)[|y + q| - 1] == q[|q| - 1];
      assert (y + q)[..|y + q| - 1] == y + q[..|q| - 1];
      assert RStrip(y + q) == RStrip((y + q)[..|y + q| - 1]);
      RStripSpaceSuffix(y, q[..|q| - 1]);
    } else {
      assert y + q == y;
    }
  }

  lemma {:induction false} LStripAppend(x: string, q: string)
    requires !AllSpace(x)
    ensures LStrip(x + q) == LStrip(x) + q
    decreases |x|
  {
    if IsSpace(x[0]) {
      assert (x + q)[1..] == x[1..] + q;
      LStripAppend(x[1..], q);
    }
  }

  /** Case folding distributes over concatenation and keeps white space. */
  lemma FoldCaseConcat(a: string, b: string)
    ensures FoldCase(a + b) == FoldCase(a) + FoldCase(b)
    ensures AllSpace(a) ==> AllSpace(FoldCase(a))
  {
  }

  /** Removing surrounding space keeps only characters of the original. */
  lemma StripChars(s: string, c: char)
    requires c in Strip(s)
    ensures c in s
  {
    var l := LStrip(s);
    var r := RStrip(l);
    LStripShape(s);
    RStripShape(l);
    assert r == l[..|r|];
    assert l == s[|s| - |l|..];
  }

  /** Index of the first occurrence of `c` in `s`. */
  function IndexOf(s: string, c: char): (r: Option<nat>)
    ensures r.None? <==> c !in s
    ensures r.Some? ==> r.value < |s| && s[r.value] == c && c !in s[..r.value]
  {
    if |s| == 0 then None
    else if s[0] == c then Some(0)
    else
      match IndexOf(s[1..], c)
      case None => None
      case Some(k) =>
        assert s[..k + 1] == [s[0]] + s[1..][..k];
        Some(k + 1)
  }

  /** Python's `s.split(sep, 1)` for a one-character separator. */
  function SplitOnce(s: string, sep: char): (parts: seq<string>)
    ensures 1 <= |parts| <= 2
    ensures |parts| == 1 <==> sep !in s
    ensures |parts| == 1 ==> parts[0] == s
    ensures |parts| == 2 ==> parts[0] + [sep] + parts[1] == s && sep !in parts[0]
  {
    match IndexOf(s, sep)
    case None => [s]
    case Some(k) =>
      assert s[..k] + [sep] + s[k + 1..] == s;
      [s[..k], s[k + 1..]]
  }

  /** Python's `s.split(" ", 1)`. */
  function SplitFirstSpace(s: string): seq<string> {
    SplitOnce(s, ' ')
  }

  /** The line boundaries of Python's `str.splitlines()` (\r\n counts as one). */
  predicate IsLineBreak(c: char) {
    ('\n' <= c <= '\r') || ('\U{1C}' <= c <= '\U{1E}') || c == '\U{85}' || c == '\U{2028}' || c == '\U{2029}'
  }

  predicate NoLineBreak(s: string) {
    forall i :: 0 <= i < |s| ==> !IsLineBreak(s[i])
  }

  function FirstLineBreak(s: string): (k: nat)
    ensures k <= |s| && NoLineBreak(s[..k])
    ensures k < |s| ==> IsLineBreak(s[k])
  {
    if |s| == 0 then 0
    else if IsLineBreak(s[0]) then 0
    else
      var k := FirstLineBreak(s[1..]);
      assert s[..k + 1] == [s[0]] + s[1..][..k];
      k + 1
  }

  /** Python's `s.splitlines()`: no line holds a line boundary. */
  function SplitLines(s: string): (lines: seq<string>)
    ensures forall i :: 0 <= i < |lines| ==> NoLineBreak(lines[i])
    decreases |s|
  {
    if s == [] then []
    else
      var k := FirstLineBreak(s);
      if k == |s| then [s]
      else
        var next := if s[k] == '\r' && k + 1 < |s| && s[k + 1] == '\n' then k + 2 else k + 1;
        [s[..k]] + SplitLines(s[next..])
  }

  /** Python's `s.startswith(p)`. */
  predicate StartsWith(s: string, p: string) {
    |p| <= |s| && s[..|p|] == p
  }

  /** Python's `s[:n]`. */
  function Take(s: string, n: nat): (r: string)
    ensures |r| == if n <= |s| then n else |s|
    ensures r == s[..|r|]
  {
    if n <= |s| then s[..n] else s
  }

  /** Python truthiness of a value that is `None` or a string. */
  predicate Truthy(o: Option<string>) {
    o.Some? && o.value != []
  }

  /** Python's `o or fallback` for a value that is `None` or a string. */
  function OrElse(o: Option<string>, fallback: string): string {
    if Truthy(o) then o.value else fallback
  }

  /** How an f-string renders a value that is `None` or a string. */
  function Show(o: Option<string>): string {
    match o
    case None => "None"
    case Some(s) => s
  }

  function DigitChar(d: nat): char
    requires d < 10
  {
    ('0' as int + d) as char
  }

  /** Python's `str(n)` for a non-negative integer. */
  function NatToString(n: nat): string
    decreases n
  {
    if n < 10 then [DigitChar(n)] else NatToString(n / 10) + [DigitChar(n % 10)]
  }
}
