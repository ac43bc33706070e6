/** The handful of Python string operations the telemetry readers rely on,
    written out over `string` (a sequence of characters): `str.isspace`,
    `str.split()`, `str.splitlines()`, `str.startswith`, `str.replace(p, "")`,
    `str.split(c)`, `str.strip()` and `int(str)`. Each comes with the
    property or inverse that pins down what it computes. */
module Text {

  import opened Optional

  // ---------------------------------------------------------------------------
  // Character classes
  // ---------------------------------------------------------------------------

  /** Python's `str.isspace` on one character: the ASCII controls TAB..CR and
      FS..US, the space, and the Unicode separators. */
  predicate IsSpace(c: char) {
    || c == ' '
    || ('\t' <= c <= '\r')
    || ('\U{1C}' <= c <= '\U{1F}')
    || c == '\U{85}' || c == '\U{A0}' || c == '\U{1680}'
    || ('\U{2000}' <= c <= '\U{200A}')
    || c == '\U{2028}' || c == '\U{2029}' || c == '\U{202F}' || c == '\U{205F}' || c == '\U{3000}'
  }

  /** The line boundaries recognised by Python's `str.splitlines`. */
  predicate IsLineBreak(c: char) {
    || ('\n' <= c <= '\r')
    || ('\U{1C}' <= c <= '\U{1E}')
    || c == '\U{85}' || c == '\U{2028}' || c == '\U{2029}'
  }

  predicate IsDigit(c: char) {
    '0' <= c <= '9'
  }

  /** A non-empty run of characters none of which is whitespace. */
  predicate IsWord(w: string) {
    w != [] && forall i :: 0 <= i < |w| ==> !IsSpace(w[i])
  }

  /** The information separators FS, GS, RS and US: `str.isspace` accepts
      them, but `int()` skips only the other whitespace. */
  predicate IsInfoSeparator(c: char) {
    '\U{1C}' <= c <= '\U{1F}'
  }

  predicate NoInfoSeparator(s: string) {
    forall i :: 0 <= i < |s| ==> !IsInfoSeparator(s[i])
  }

  /** The same test as a scan from the front. */
  predicate HasInfoSeparator(s: string) {
    s != [] && (IsInfoSeparator(s[0]) || HasInfoSeparator(s[1..]))
  }

  predicate AllSpace(s: string) {
    forall i :: 0 <= i < |s| ==> IsSpace(s[i])
  }

  predicate NoLineBreak(s: string) {
    forall i :: 0 <= i < |s| ==> !IsLineBreak(s[i])
  }

  predicate StartsWith(s: string, prefix: string) {
    |prefix| <= |s| && s[..|prefix|] == prefix
  }

  // ---------------------------------------------------------------------------
  // str.split() -- whitespace tokenisation
  // ---------------------------------------------------------------------------

  /** Number of non-whitespace characters at the front of `s`. */
  function WordLength(s: string): (n: nat)
    ensures n <= |s|
    ensures forall i :: 0 <= i < n ==> !IsSpace(s[i])
    ensures n < |s| ==> IsSpace(s[n])
  {
    if s == [] || IsSpace(s[0]) then 0 else 1 + WordLength(s[1..])
  }

  /** Python's `s.split()` without a separator: the maximal runs of
      non-whitespace characters, in order; empty tokens never appear. */
  function Split(s: string): (tokens: seq<string>)
    ensures forall t :: t in tokens ==> IsWord(t)
    decreases |s|
  {
    if s == [] then []
    else if IsSpace(s[0]) then Split(s[1..])
    else
      var n := WordLength(s);
      [s[..n]] + Split(s[n..])
  }

  /** Words separated by single spaces. */
  function JoinWords(words: seq<string>): string
  {
    if words == [] then ""
    else if |words| == 1 then words[0]
    else words[0] + " " + JoinWords(words[1..])
  }

  lemma {:induction false} WordLengthOfPrefix(w: string, rest: string)
    requires forall i :: 0 <= i < |w| ==> !IsSpace(w[i])
    requires rest == [] || IsSpace(rest[0])
    ensures WordLength(w + rest) == |w|
  {
    if w != [] {
      assert (w + rest)[1..] == w[1..] + rest;
      WordLengthOfPrefix(w[1..], rest);
    }
  }

  /** Tokenising words joined by spaces gives the words back. */
  lemma {:induction false} SplitJoinWords(words: seq<string>)
    requires forall k :: 0 <= k < |words| ==> IsWord(words[k])
    ensures Split(JoinWords(words)) == words
  {
    if words == [] {
    } else if |words| == 1 {
      var w := words[0];
      WordLengthOfPrefix(w, "");
      assert w + "" == w;
      assert w[|w|..] == [];
    } else {
      var w, tail := words[0], JoinWords(words[1..]);
      var s := w + " " + tail;
      WordLengthOfPrefix(w, " " + tail);
      assert s == w + (" " + tail);
      assert s[..|w|] == w;
      assert s[|w|..] == " " + tail;
      assert (" " + tail)[1..] == tail;
      SplitJoinWords(words[1..]);
    }
  }

  /** Joined words contain no line break and only the characters of the
      words and the space. */
  lemma {:induction false} JoinWordsChars(words: seq<string>, c: char)
    requires forall k :: 0 <= k < |words| ==> IsWord(words[k])
    requires c != ' ' && forall k :: 0 <= k < |words| ==> c !in words[k]
    ensures NoLineBreak(JoinWords(words))
    ensures c !in JoinWords(words)
  {
    if |words| > 1 {
      JoinWordsChars(words[1..], c);
      var w, tail := words[0], JoinWords(words[1..]);
      assert IsWord(w);
      var s := w + " " + tail;
      forall i | 0 <= i < |s| ensures !IsLineBreak(s[i]) {
        if i < |w| { assert s[i] == w[i]; }
        else if i > |w| { assert s[i] == tail[i - |w| - 1]; }
      }
    } else if |words| == 1 {
      assert IsWord(words[0]);
    }
  }

  // ---------------------------------------------------------------------------
  // str.splitlines()
  // ---------------------------------------------------------------------------

  /** Number of characters before the first line break in `s`. */
  function LineLength(s: string): (n: nat)
    ensures n <= |s|
    ensures forall i :: 0 <= i < n ==> !IsLineBreak(s[i])
    ensures n < |s| ==> IsLineBreak(s[n])
  {
    if s == [] || IsLineBreak(s[0]) then 0 else 1 + LineLength(s[1..])
  }

  /** Python's `s.splitlines()`: the lines of `s` without their terminators;
      "\r\n" ends one line, and a final terminator opens no empty line. */
  function SplitLines(s: string): (lines: seq<string>)
    ensures forall l :: l in lines ==> NoLineBreak(l)
    decreases |s|
  {
    if s == [] then []
    else
      var n := LineLength(s);
      if n == |s| then [s]
      else
        var skip := if s[n] == '\r' && n + 1 < |s| && s[n + 1] == '\n' then 2 else 1;
        [s[..n]] + SplitLines(s[n + skip..])
  }

  /** The text of a file whose every line ends in "\n". */
  function JoinLines(lines: seq<string>): string
  {
    if lines == [] then "" else lines[0] + "\n" + JoinLines(lines[1..])
  }

  lemma {:induction false} LineLengthOfPrefix(l: string, rest: string)
    requires NoLineBreak(l)
    requires rest == [] || IsLineBreak(rest[0])
    ensures LineLength(l + rest) == |l|
  {
    if l != [] {
      assert (l + rest)[1..] == l[1..] + rest;
      LineLengthOfPrefix(l[1..], rest);
    }
  }

  /** Splitting newline-terminated lines gives the lines back. */
  lemma {:induction false} SplitJoinLines(lines: seq<string>)
    requires forall k :: 0 <= k < |lines| ==> NoLineBreak(lines[k])
    ensures SplitLines(JoinLines(lines)) == lines
  {
    if lines != [] {
      var l, tail := lines[0], JoinLines(lines[1..]);
      var s := l + "\n" + tail;
      LineLengthOfPrefix(l, "\n" + tail);
      assert s == l + ("\n" + tail);
      assert s[..|l|] == l;
      assert s[|l|] == '\n';
      assert s[|l| + 1..] == tail;
      SplitJoinLines(lines[1..]);
    }
  }

  // ---------------------------------------------------------------------------
  // str.replace(pattern, "")
  // ---------------------------------------------------------------------------

  /** Python's `s.replace(pattern, "")`: scanning left to right, every
      non-overlapping occurrence of `pattern` is deleted. */
  function RemoveAll(s: string, pattern: string): (r: string)
    requires pattern != []
    ensures |r| <= |s|
    decreases |s|
  {
    if |s| < |pattern| then s
    else if s[..|pattern|] == pattern then RemoveAll(s[|pattern|..], pattern)
    else [s[0]] + RemoveAll(s[1..], pattern)
  }

  /** Text that never contains the pattern's first character is left alone. */
  lemma {:induction false} RemoveAllAbsent(s: string, pattern: string)
    requires pattern != []
    requires pattern[0] !in s
    ensures RemoveAll(s, pattern) == s
  {
    if |s| >= |pattern| {
      assert s[..|pattern|][0] == s[0] != pattern[0];
      assert s == [s[0]] + s[1..];
      RemoveAllAbsent(s[1..], pattern);
    }
  }

  // ---------------------------------------------------------------------------
  // str.split(sep) for a one-character separator
  // ---------------------------------------------------------------------------

  function Count(s: string, c: char): nat
  {
    if s == [] then 0 else (if s[0] == c then 1 else 0) + Count(s[1..], c)
  }

  /** Python's `s.split(sep)`: the pieces between occurrences of `sep`,
      empty pieces included; there is always one more piece than separators. */
  function SplitOn(s: string, sep: char): (pieces: seq<string>)
    ensures |pieces| == Count(s, sep) + 1
    ensures forall p :: p in pieces ==> sep !in p
    decreases |s|
  {
    if s == [] then [""]
    else
      var rest := SplitOn(s[1..], sep);
      if s[0] == sep then [""] + rest
      else
        assert rest[0] in rest;
        [[s[0]] + rest[0]] + rest[1..]
  }

  lemma {:induction false} SplitOnNoSeparator(s: string, sep: char)
    requires sep !in s
    ensures SplitOn(s, sep) == [s]
  {
    if s != [] {
      SplitOnNoSeparator(s[1..], sep);
      assert [s[0]] + s[1..] == s;
    }
  }

  /** A string with exactly one separator splits into the text before it and
      the text after it. */
  lemma {:induction false} SplitOnOnce(before: string, after: string, sep: char)
    requires sep !in before && sep !in after
    ensures SplitOn(before + [sep] + after, sep) == [before, after]
  {
    var s := before + [sep] + after;
    if before == [] {
      assert s[1..] == after;
      SplitOnNoSeparator(after, sep);
    } else {
      assert s[1..] == before[1..] + [sep] + after;
      SplitOnOnce(before[1..], after, sep);
      assert [before[0]] + before[1..] == before;
    }
  }

  // ---------------------------------------------------------------------------
  // str.strip()
  // ---------------------------------------------------------------------------

  function TrimStart(s: string): (r: string)
    ensures |r| <= |s| && r == s[|s| - |r|..]
    ensures AllSpace(s[..|s| - |r|])
    ensures r == [] || !IsSpace(r[0])
  {
    if s != [] && IsSpace(s[0]) then
      var r := TrimStart(s[1..]);
      assert s[..|s| - |r|] == [s[0]] + s[1..][..|s| - 1 - |r|];
      r
    else s
  }

  function TrimEnd(s: string): (r: string)
    ensures |r| <= |s| && r == s[..|r|]
    ensures AllSpace(s[|r|..])
    ensures r == [] || !IsSpace(r[|r| - 1])
  {
    if s != [] && IsSpace(s[|s| - 1]) then
      var r := TrimEnd(s[..|s| - 1]);
      assert s[|r|..] == s[..|s| - 1][|r|..] + [s[|s| - 1]];
      r
    else s
  }

  /** Python's `s.strip()`: `s` without its leading and trailing whitespace. */
  function Strip(s: string): (r: string)
    ensures r == [] || (!IsSpace(r[0]) && !IsSpace(r[|r| - 1]))
  {
    TrimEnd(TrimStart(s))
  }

  lemma {:induction false} TrimStartPadded(pre: string, s: string)
    requires AllSpace(pre)
    requires s == [] || !IsSpace(s[0])
    ensures TrimStart(pre + s) == s
  {
    if pre != [] {
      assert (pre + s)[1..] == pre[1..] + s;
      TrimStartPadded(pre[1..], s);
    }
  }

  lemma {:induction false} TrimEndPadded(s: string, post: string)
    requires AllSpace(post)
    requires s == [] || !IsSpace(s[|s| - 1])
    ensures TrimEnd(s + post) == s
  {
    if post != [] {
      var p := post[..|post| - 1];
      assert (s + post)[..|s + post| - 1] == s + p;
      TrimEndPadded(s, p);
    } else {
      assert s + post == s;
    }
  }

  /** Stripping removes exactly the whitespace padding around the text. */
  lemma StripPadded(pre: string, s: string, post: string)
    requires AllSpace(pre) && AllSpace(post)
    requires s == [] || (!IsSpace(s[0]) && !IsSpace(s[|s| - 1]))
    ensures Strip(pre + s + post) == s
  {
    if s == [] {
      assert pre + s + post == pre + post;
      TrimStartPadded(pre + post, "");
      assert pre + post + "" == pre + post;
      assert TrimStart(pre + post) == "";
    } else {
      assert pre + s + post == pre + (s + post);
      TrimStartPadded(pre, s + post);
      TrimEndPadded(s, post);
    }
  }

  // ---------------------------------------------------------------------------
  // int(str), base 10
  // ---------------------------------------------------------------------------

  /** A base-10 integer literal as `int()` accepts it: digits, with single
      underscores allowed between two digits. */
  predicate IsNumeral(s: string) {
    && |s| > 0
    && IsDigit(s[0]) && IsDigit(s[|s| - 1])
    && (forall i :: 0 <= i < |s| ==> IsDigit(s[i]) || s[i] == '_')
    && (forall i :: 0 <= i < |s| - 1 ==> s[i] == '_' ==> s[i + 1] != '_')
  }

  predicate DigitsOrUnderscores(s: string) {
    forall i :: 0 <= i < |s| ==> IsDigit(s[i]) || s[i] == '_'
  }

  /** The value of the digits of `s`, underscores ignored. */
  function NumeralValue(s: string): nat
    requires DigitsOrUnderscores(s)
  {
    if s == [] then 0
    else
      var init, last := s[..|s| - 1], s[|s| - 1];
      assert DigitsOrUnderscores(init) by {
        forall i | 0 <= i < |init| ensures IsDigit(init[i]) || init[i] == '_' {
          assert init[i] == s[i];
        }
      }
      if last == '_' then NumeralValue(init)
      else 10 * NumeralValue(init) + (last as int - '0' as int)
  }

  /** Python's `int(s)`: surrounding whitespace is ignored, one optional sign,
      then a numeral; anything else is a ValueError, here None. The
      whitespace skipped is that of `str.strip` less the information
      separators, which can therefore appear nowhere in an accepted text. */
  function ParseInt(s: string): (r: Option<int>)
    ensures Strip(s) == [] ==> r.None?
  {
    if HasInfoSeparator(s) then None
    else
      var t := Strip(s);
      if |t| > 0 && (t[0] == '+' || t[0] == '-') then
        if IsNumeral(t[1..]) then
          var n: int := NumeralValue(t[1..]);
          Some(if t[0] == '-' then -n else n)
        else None
      else if IsNumeral(t) then Some(NumeralValue(t))
      else None
  }

  /** Decimal digits of a natural number, as `str(n)` writes it. */
  function Decimal(n: nat): (s: string)
    ensures |s| > 0
    ensures forall i :: 0 <= i < |s| ==> IsDigit(s[i])
  {
    var d := ['0' + (n % 10) as char];
    if n < 10 then d else Decimal(n / 10) + d
  }

  lemma {:induction false} DecimalValue(n: nat)
    ensures IsNumeral(Decimal(n))
    ensures NumeralValue(Decimal(n)) == n
  {
    var s := Decimal(n);
    if n >= 10 {
      DecimalValue(n / 10);
      assert s[..|s| - 1] == Decimal(n / 10);
    }
  }

  /** `int()` reads back what `str()` writes: a decimal numeral padded with
      whitespace other than the information separators (a sysfs counter ends
      in "\n"). */
  lemma ParseIntDecimal(n: nat, pre: string, post: string)
    requires AllSpace(pre) && AllSpace(post)
    requires NoInfoSeparator(pre) && NoInfoSeparator(post)
    ensures ParseInt(pre + Decimal(n) + post) == Some(n)
  {
    var d := Decimal(n);
    PaddedNoInfoSeparator(pre, d, post);
    ScanFindsInfoSeparator(pre + d + post);
    DecimalValue(n);
    StripPadded(pre, d, post);
    assert d[0] != '+' && d[0] != '-';
  }

  lemma ParseIntNegativeDecimal(n: nat, pre: string, post: string)
    requires AllSpace(pre) && AllSpace(post)
    requires NoInfoSeparator(pre) && NoInfoSeparator(post)
    ensures ParseInt(pre + "-" + Decimal(n) + post) == Some(-(n as int))
  {
    var d := Decimal(n);
    var m := "-" + d;
    PaddedNoInfoSeparator(pre, m, post);
    ScanFindsInfoSeparator(pre + m + post);
    assert !IsSpace(m[|m| - 1]) by { assert m[|m| - 1] == d[|d| - 1]; }
    assert pre + "-" + d + post == pre + m + post;
    StripPadded(pre, m, post);
    assert Strip(pre + m + post)[1..] == d;
    DecimalValue(n);
  }

  /** Padding free of information separators around a numeral leaves none
      in the whole text. */
  lemma PaddedNoInfoSeparator(pre: string, s: string, post: string)
    requires NoInfoSeparator(pre) && NoInfoSeparator(post)
    requires forall i :: 0 <= i < |s| ==> IsDigit(s[i]) || s[i] == '-'
    ensures NoInfoSeparator(pre + s + post)
  {
    var t := pre + s + post;
    forall i | 0 <= i < |t| ensures !IsInfoSeparator(t[i]) {
      if i < |pre| {
        assert t[i] == pre[i];
      } else if i < |pre| + |s| {
        assert t[i] == s[i - |pre|];
      } else {
        assert t[i] == post[i - |pre| - |s|];
      }
    }
  }

  /** The scan finds a separator exactly when there is one. */
  lemma {:induction false} ScanFindsInfoSeparator(s: string)
    ensures HasInfoSeparator(s) <==> !NoInfoSeparator(s)
    decreases |s|
  {
    if s != [] {
      ScanFindsInfoSeparator(s[1..]);
      assert forall i :: 0 < i < |s| ==> s[i] == s[1..][i - 1];
    }
  }

  /** An information separator anywhere in the text makes `int()` fail,
      though `str.isspace` counts it as whitespace. */
  lemma ParseIntRejectsInfoSeparator(pre: string, c: char, post: string)
    requires IsInfoSeparator(c)
    ensures ParseInt(pre + [c] + post) == None
  {
    assert (pre + [c] + post)[|pre|] == c;
    ScanFindsInfoSeparator(pre + [c] + post);
  }

  /** A token with a character that is neither a digit nor an underscore,
      past an optional leading sign, is rejected by `int()`. */
  lemma ParseIntRejects(s: string, i: int)
    requires s == Strip(s)
    requires 0 < i < |s| || (i == 0 < |s| && s[0] != '+' && s[0] != '-')
    requires !IsDigit(s[i]) && s[i] != '_'
    ensures ParseInt(s) == None
  {
    if 0 < |s| && (s[0] == '+' || s[0] == '-') {
      assert s[1..][i - 1] == s[i];
    }
  }
}
