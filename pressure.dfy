/** The pressure-stall reader (`read_psi_avg10`). A Linux pressure file
    holds a `some` line and a `full` line; after the tag, each carries
    `key=value` pairs for the 10-, 60- and 300-second averages and the total
    stall time, and the reader returns the `avg10` figure of the first `some ` line.
    Every failure -- missing file, no such line, a malformed token, a value
    that is not a float -- yields the unavailable marker instead of an
    exception. Float parsing is a parameter: `parse(s)` is `float(s)`, with
    None standing for both a ValueError and a NaN result. */
module Pressure {

  import opened Optional
  import opened Text

  /** The prefix of the line holding the "some tasks stalled" averages. */
  const SomeMarker: string := "some "

  /** The key whose value the reader returns. */
  const Avg10Key: string := "avg10"

  // ---------------------------------------------------------------------------
  // Picking the line
  // ---------------------------------------------------------------------------

  /** Index of the first line starting with the marker, or |lines| if none. */
  function FirstSomeIndex(lines: seq<string>): (k: nat)
    ensures k <= |lines|
    ensures forall j :: 0 <= j < k ==> !StartsWith(lines[j], SomeMarker)
    ensures k < |lines| ==> StartsWith(lines[k], SomeMarker)
  {
    if lines == [] then 0
    else if StartsWith(lines[0], SomeMarker) then 0
    else 1 + FirstSomeIndex(lines[1..])
  }

  /** The first line that starts with the `some ` marker, or the empty
      line when there is none. */
  function FirstSomeLine(lines: seq<string>): (line: string)
    ensures line == [] <==> forall j :: 0 <= j < |lines| ==> !StartsWith(lines[j], SomeMarker)
    ensures line != [] ==> line == lines[FirstSomeIndex(lines)]
  {
    var k := FirstSomeIndex(lines);
    if k < |lines| then lines[k] else ""
  }

  // ---------------------------------------------------------------------------
  // Tokens and the key/value dictionary
  // ---------------------------------------------------------------------------

  /** The generator's filter `if "=" in kv`: tokens without '=' are dropped. */
  function KeyValueTokens(tokens: seq<string>): (kvs: seq<string>)
    ensures |kvs| <= |tokens|
    ensures forall t :: t in kvs ==> t in tokens && '=' in t
  {
    if tokens == [] then []
    else if '=' in tokens[0] then [tokens[0]] + KeyValueTokens(tokens[1..])
    else KeyValueTokens(tokens[1..])
  }

  /** The dictionary built from the kept tokens split at '=': each must
      split into exactly a key and a value, otherwise the constructor raises
      (None); a key seen again overrides the earlier value. */
  function BuildDict(kvs: seq<string>): (d: Option<map<string, string>>)
    ensures d.Some? <==> forall j :: 0 <= j < |kvs| ==> Count(kvs[j], '=') == 1
  {
    if kvs == [] then Some(map[])
    else
      var init, last := kvs[..|kvs| - 1], kvs[|kvs| - 1];
      assert forall j :: 0 <= j < |init| ==> init[j] == kvs[j];
      match BuildDict(init)
      case None => None
      case Some(d) =>
        var parts := SplitOn(last, '=');
        if |parts| != 2 then None else Some(d[parts[0] := parts[1]])
  }

  /** The value of `avg10` among the tokens of the line (after the marker is
      removed), parsed as a float; a missing key falls back to "nan", which
      parses as NaN. */
  function Avg10FromTokens(tokens: seq<string>, parse: string -> Option<real>): Option<real>
  {
    match BuildDict(KeyValueTokens(tokens))
    case None => None
    case Some(d) => if Avg10Key in d then parse(d[Avg10Key]) else None
  }

  /** The tokens of a pressure line: every `some ` marker removed, then the
      rest split at whitespace. */
  function LineTokens(line: string): seq<string>
  {
    Split(RemoveAll(line, SomeMarker))
  }

  /** `read_psi_avg10` given the file's text (None when it cannot be read). */
  function ReadPsiAvg10(file: Option<string>, parse: string -> Option<real>): (r: Option<real>)
    ensures file.None? ==> r.None?
  {
    match file
    case None => None
    case Some(txt) => Avg10FromTokens(LineTokens(FirstSomeLine(SplitLines(txt))), parse)
  }

  // ---------------------------------------------------------------------------
  // Lemmas
  // ---------------------------------------------------------------------------

  lemma {:induction false} CountZero(s: string, c: char)
    ensures Count(s, c) == 0 <==> c !in s
  {
    if s != [] {
      CountZero(s[1..], c);
      assert s == [s[0]] + s[1..];
    }
  }

  lemma {:induction false} CountConcat(a: string, b: string, c: char)
    ensures Count(a + b, c) == Count(a, c) + Count(b, c)
  {
    if a != [] {
      assert (a + b)[1..] == a[1..] + b;
      CountConcat(a[1..], b, c);
    } else {
      assert a + b == b;
    }
  }

  /** A token with exactly one '=' is `key=value` with '=' in neither part. */
  lemma {:induction false} CountOneParts(t: string, c: char) returns (a: string, b: string)
    requires Count(t, c) == 1
    ensures t == a + [c] + b && c !in a && c !in b
  {
    if t[0] == c {
      a, b := [], t[1..];
      CountZero(t[1..], c);
      assert t == [t[0]] + t[1..];
    } else {
      var a', b' := CountOneParts(t[1..], c);
      a, b := [t[0]] + a', b';
      assert t == [t[0]] + t[1..];
    }
  }

  /** For a token `a=b` with '=' in neither part and a key without '=',
      the token starts with "key=" exactly when `a` is the key. */
  lemma KeyPrefix(a: string, b: string, key: string)
    requires '=' !in a && '=' !in key
    ensures StartsWith(a + "=" + b, key + "=") <==> a == key
  {
    var t := a + "=" + b;
    if a == key {
      assert t[..|key| + 1] == key + "=";
    }
    if StartsWith(t, key + "=") {
      assert forall i :: 0 <= i <= |key| ==> t[i] == (key + "=")[i];
      assert forall i :: 0 <= i < |a| ==> t[i] == a[i];
      assert t[|a|] == '=' && t[|key|] == '=';
      assert |a| == |key|;
      assert a == t[..|a|] == key;
    }
  }

  /** A one-'=' token has key `key` exactly when it starts with "key=", and
      then its value is what follows "key=". */
  lemma TokenKey(t: string, key: string)
    requires Count(t, '=') == 1
    requires '=' !in key
    ensures |SplitOn(t, '=')| == 2
    ensures SplitOn(t, '=')[0] == key <==> StartsWith(t, key + "=")
    ensures StartsWith(t, key + "=") ==> SplitOn(t, '=')[1] == t[|key| + 1..]
  {
    var a, b := CountOneParts(t, '=');
    SplitOnOnce(a, b, '=');
    assert t == a + "=" + b;
    KeyPrefix(a, b, key);
    if a == key {
      assert t[|key| + 1..] == b;
    }
  }

  lemma {:induction false} KeyValueTokensConcat(a: seq<string>, b: seq<string>)
    ensures KeyValueTokens(a + b) == KeyValueTokens(a) + KeyValueTokens(b)
  {
    if a != [] {
      assert (a + b)[1..] == a[1..] + b;
      KeyValueTokensConcat(a[1..], b);
    } else {
      assert a + b == b;
    }
  }

  /** A later "key=value" token overrides every earlier one, and only another
      "key=" token after it can override it in turn. */
  lemma {:induction false} DictHasLastValue(pre: seq<string>, key: string, v: string, post: seq<string>)
    requires '=' !in key && '=' !in v
    requires forall t :: t in pre + post ==> Count(t, '=') == 1
    requires forall t :: t in post ==> !StartsWith(t, key + "=")
    ensures BuildDict(pre + [key + "=" + v] + post).Some?
    ensures key in BuildDict(pre + [key + "=" + v] + post).value
    ensures BuildDict(pre + [key + "=" + v] + post).value[key] == v
    decreases |post|
  {
    var kvs := pre + [key + "=" + v] + post;
    var t := key + "=" + v;
    assert Count(t, '=') == 1 by {
      CountConcat(key + "=", v, '=');
      CountConcat(key, "=", '=');
      CountZero(key, '=');
      CountZero(v, '=');
    }
    assert forall j :: 0 <= j < |kvs| ==> Count(kvs[j], '=') == 1 by {
      forall j | 0 <= j < |kvs| ensures Count(kvs[j], '=') == 1 {
        if j < |pre| { assert kvs[j] in pre + post; }
        else if j > |pre| { assert kvs[j] == post[j - |pre| - 1]; assert kvs[j] in pre + post; }
      }
    }
    if post == [] {
      assert kvs[..|kvs| - 1] == pre;
      assert kvs[|kvs| - 1] == t;
      assert StartsWith(t, key + "=") by { assert t[..|key| + 1] == key + "="; }
      TokenKey(t, key);
      assert t[|key| + 1..] == v;
    } else {
      var init, last := post[..|post| - 1], post[|post| - 1];
      assert kvs[..|kvs| - 1] == pre + [t] + init;
      assert forall u :: u in pre + init ==> u in pre + post;
      DictHasLastValue(pre, key, v, init);
      assert last in post;
      TokenKey(last, key);
    }
  }

  /** When no token starts with "key=", the key is absent from the dictionary. */
  lemma {:induction false} DictLacksKey(kvs: seq<string>, key: string)
    requires '=' !in key
    requires forall t :: t in kvs ==> Count(t, '=') == 1
    requires forall t :: t in kvs ==> !StartsWith(t, key + "=")
    ensures BuildDict(kvs).Some? && key !in BuildDict(kvs).value
  {
    if kvs != [] {
      var init, last := kvs[..|kvs| - 1], kvs[|kvs| - 1];
      assert forall u :: u in init ==> u in kvs;
      DictLacksKey(init, key);
      assert last in kvs;
      TokenKey(last, key);
    }
  }

  lemma CountPositive(t: string, c: char)
    requires c in t
    ensures Count(t, c) >= 1
  {
    CountZero(t, c);
  }

  /** Every key/value token of a line whose tokens carry at most one '='
      carries exactly one. */
  lemma KeyValueTokensWellFormed(tokens: seq<string>)
    requires forall t :: t in tokens ==> Count(t, '=') <= 1
    ensures forall t :: t in KeyValueTokens(tokens) ==> Count(t, '=') == 1
  {
    forall t | t in KeyValueTokens(tokens) ensures Count(t, '=') == 1 {
      CountPositive(t, '=');
    }
  }

  /** The reading is the value of the LAST `avg10=` token of the line,
      parsed as a float, provided no token carries more than one '='. */
  lemma Avg10IsLastValue(pre: seq<string>, t: string, v: string, post: seq<string>, parse: string -> Option<real>)
    requires t == Avg10Key + "=" + v && '=' !in v
    requires forall u :: u in pre + post ==> Count(u, '=') <= 1
    requires forall u :: u in post ==> !StartsWith(u, Avg10Key + "=")
    ensures Avg10FromTokens(pre + [t] + post, parse) == parse(v)
  {
    assert '=' in t by { assert t[5] == '='; }
    KeyValueTokensConcat(pre + [t], post);
    KeyValueTokensConcat(pre, [t]);
    assert KeyValueTokens([t]) == [t];
    var kp, kq := KeyValueTokens(pre), KeyValueTokens(post);
    assert KeyValueTokens(pre + [t] + post) == kp + [t] + kq;
    KeyValueTokensWellFormed(pre);
    KeyValueTokensWellFormed(post);
    DictHasLastValue(kp, Avg10Key, v, kq);
  }

  /** With no `avg10=` token (and no malformed one) the reading is unavailable. */
  lemma Avg10Missing(tokens: seq<string>, parse: string -> Option<real>)
    requires forall t :: t in tokens ==> Count(t, '=') <= 1
    requires forall t :: t in tokens ==> !StartsWith(t, Avg10Key + "=")
    ensures Avg10FromTokens(tokens, parse) == None
  {
    KeyValueTokensWellFormed(tokens);
    DictLacksKey(KeyValueTokens(tokens), Avg10Key);
  }

  /** A token with two or more '=' makes the whole reading unavailable, even
      when a well-formed `avg10=` token is present. */
  lemma MalformedTokenSpoilsReading(tokens: seq<string>, i: nat, parse: string -> Option<real>)
    requires i < |tokens| && Count(tokens[i], '=') >= 2
    ensures Avg10FromTokens(tokens, parse) == None
  {
    var t := tokens[i];
    CountZero(t, '=');
    assert tokens == tokens[..i] + [t] + tokens[i + 1..];
    KeyValueTokensConcat(tokens[..i] + [t], tokens[i + 1..]);
    KeyValueTokensConcat(tokens[..i], [t]);
    var kvs := KeyValueTokens(tokens);
    assert kvs[|KeyValueTokens(tokens[..i])|] == t;
  }

  /** Tokens without '=' are skipped: removing one changes nothing. */
  lemma BareTokenIgnored(pre: seq<string>, t: string, post: seq<string>, parse: string -> Option<real>)
    requires '=' !in t
    ensures Avg10FromTokens(pre + [t] + post, parse) == Avg10FromTokens(pre + post, parse)
  {
    KeyValueTokensConcat(pre + [t], post);
    KeyValueTokensConcat(pre, [t]);
    KeyValueTokensConcat(pre, post);
    assert [t][1..] == [];
    assert KeyValueTokens([t]) == [];
    assert KeyValueTokens(pre + [t] + post) == KeyValueTokens(pre + post);
  }

  /** Without a `some ` line the reading is unavailable, never an error. */
  lemma NoSomeLineUnavailable(txt: string, parse: string -> Option<real>)
    requires forall l :: l in SplitLines(txt) ==> !StartsWith(l, SomeMarker)
    ensures ReadPsiAvg10(Some(txt), parse) == None
  {
    var lines := SplitLines(txt);
    assert forall j :: 0 <= j < |lines| ==> lines[j] in lines;
    assert LineTokens("") == [];
  }

  /** Only the first `some ` line is consulted: lines before it that are not
      `some ` lines and any lines after it are irrelevant. */
  lemma FirstSomeLineDecides(before: seq<string>, line: string, after: seq<string>, parse: string -> Option<real>)
    requires forall l :: l in before ==> !StartsWith(l, SomeMarker)
    requires StartsWith(line, SomeMarker)
    requires forall l :: l in before + [line] + after ==> NoLineBreak(l)
    ensures ReadPsiAvg10(Some(JoinLines(before + [line] + after)), parse)
         == Avg10FromTokens(LineTokens(line), parse)
  {
    var lines := before + [line] + after;
    assert forall k :: 0 <= k < |lines| ==> lines[k] in lines;
    SplitJoinLines(lines);
    assert lines[|before|] == line;
    assert forall j :: 0 <= j < |before| ==> lines[j] == before[j];
    assert FirstSomeIndex(lines) == |before|;
    assert line != [];
  }

  lemma KeyValueCount(k: string, v: string)
    requires '=' !in k && '=' !in v
    ensures Count(k + "=" + v, '=') == 1
  {
    CountConcat(k + "=", v, '=');
    CountConcat(k, "=", '=');
    CountZero(k, '=');
    CountZero(v, '=');
  }

  lemma MarkerIsWord()
    ensures IsWord("some")
  {
  }

  /** A `some` line: the marker word followed by the key/value words. */
  lemma SomeLineShape(words: seq<string>)
    requires |words| > 0
    requires forall k :: 0 <= k < |words| ==> IsWord(words[k])
    ensures JoinWords(["some"] + words) == SomeMarker + JoinWords(words)
    ensures NoLineBreak(JoinWords(["some"] + words))
  {
    var line := ["some"] + words;
    assert line[0] == "some" && line[1..] == words;
    assert "some" + " " == SomeMarker;
    MarkerIsWord();
    assert forall k :: 0 <= k < |line| ==> IsWord(line[k]) && '\n' !in line[k];
    JoinWordsChars(line, '\n');
  }

  /** The marker is removed and the rest of the line tokenised, provided the
      rest never mentions "some " (here: holds no 's'). */
  lemma SomeLineTokens(words: seq<string>)
    requires |words| > 0
    requires forall k :: 0 <= k < |words| ==> IsWord(words[k]) && 's' !in words[k]
    ensures StartsWith(JoinWords(["some"] + words), SomeMarker)
    ensures NoLineBreak(JoinWords(["some"] + words))
    ensures LineTokens(JoinWords(["some"] + words)) == words
  {
    SomeLineShape(words);
    var some, rest := JoinWords(["some"] + words), JoinWords(words);
    JoinWordsChars(words, 's');
    assert some[..|SomeMarker|] == SomeMarker && some[|SomeMarker|..] == rest;
    RemoveAllAbsent(rest, SomeMarker);
    SplitJoinWords(words);
  }

  /** A line in the format the kernel writes: a kind word (`some` or `full`)
      and the three running averages and the stall total. */
  function PressureLine(kind: string, avg10: string, avg60: string, avg300: string, total: string): string
  {
    JoinWords([kind, "avg10=" + avg10, "avg60=" + avg60, "avg300=" + avg300, "total=" + total])
  }

  /** The characters the kernel prints in a figure: digits and the decimal point. */
  predicate IsFigure(x: string) {
    x != [] && forall i :: 0 <= i < |x| ==> IsDigit(x[i]) || x[i] == '.'
  }

  /** "key=" followed by a figure is a word with one '=' and no 's'. */
  lemma FigureToken(key: string, x: string)
    requires IsWord(key) && '=' !in key && 's' !in key
    requires IsFigure(x)
    ensures IsWord(key + "=" + x) && 's' !in key + "=" + x
    ensures Count(key + "=" + x, '=') == 1
  {
    var t := key + "=" + x;
    forall i | 0 <= i < |t| ensures !IsSpace(t[i]) && t[i] != 's' {
      if i < |key| { assert t[i] == key[i]; }
      else if i > |key| { assert t[i] == x[i - |key| - 1]; }
    }
    KeyValueCount(key, x);
  }

  predicate GoodToken(t: string) {
    IsWord(t) && 's' !in t && Count(t, '=') == 1
  }

  lemma FigureTokens(avg10: string, avg60: string, avg300: string, total: string)
    requires IsFigure(avg10) && IsFigure(avg60) && IsFigure(avg300) && IsFigure(total)
    ensures GoodToken("avg10=" + avg10) && GoodToken("avg60=" + avg60)
    ensures GoodToken("avg300=" + avg300) && GoodToken("total=" + total)
  {
    assert IsWord("avg10") && IsWord("avg60") && IsWord("avg300") && IsWord("total");
    assert "avg10" + "=" == "avg10=" && "avg60" + "=" == "avg60=";
    assert "avg300" + "=" == "avg300=" && "total" + "=" == "total=";
    FigureToken("avg10", avg10);
    FigureToken("avg60", avg60);
    FigureToken("avg300", avg300);
    FigureToken("total", total);
  }

  /** In a line of the kernel's format only the first token has key avg10. */
  lemma LaterKeysDiffer(avg60: string, avg300: string, total: string)
    ensures forall u :: u in ["avg60=" + avg60, "avg300=" + avg300, "total=" + total] ==> !StartsWith(u, Avg10Key + "=")
  {
    KeyPrefix("avg60", avg60, Avg10Key);
    KeyPrefix("avg300", avg300, Avg10Key);
    KeyPrefix("total", total, Avg10Key);
  }

  /** A `some` line in the kernel's format tokenises into its four figures. */
  lemma KernelSomeLine(avg10: string, avg60: string, avg300: string, total: string)
    requires IsFigure(avg10) && IsFigure(avg60) && IsFigure(avg300) && IsFigure(total)
    ensures StartsWith(PressureLine("some", avg10, avg60, avg300, total), SomeMarker)
    ensures NoLineBreak(PressureLine("some", avg10, avg60, avg300, total))
    ensures LineTokens(PressureLine("some", avg10, avg60, avg300, total))
         == ["avg10=" + avg10, "avg60=" + avg60, "avg300=" + avg300, "total=" + total]
  {
    var words := ["avg10=" + avg10, "avg60=" + avg60, "avg300=" + avg300, "total=" + total];
    FigureTokens(avg10, avg60, avg300, total);
    assert forall k :: 0 <= k < |words| ==> GoodToken(words[k]);
    assert ["some"] + words == ["some", "avg10=" + avg10, "avg60=" + avg60, "avg300=" + avg300, "total=" + total];
    SomeLineTokens(words);
  }

  /** A pressure file in the kernel's format -- a `some` line, then any line
      (the kernel writes a `full` line) -- reads as the `some` line's avg10
      figure; for instance "some avg10=3.14 avg60=1.0 avg300=0.5 total=100"
      reads as float("3.14"). */
  lemma KernelFormatReading(avg10: string, avg60: string, avg300: string, total: string,
                            next: string, parse: string -> Option<real>)
    requires IsFigure(avg10) && IsFigure(avg60) && IsFigure(avg300) && IsFigure(total)
    requires NoLineBreak(next)
    ensures ReadPsiAvg10(Some(JoinLines([PressureLine("some", avg10, avg60, avg300, total), next])), parse)
         == parse(avg10)
  {
    var line := PressureLine("some", avg10, avg60, avg300, total);
    KernelSomeLine(avg10, avg60, avg300, total);
    assert [] + [line] + [next] == [line, next];
    FirstSomeLineDecides([], line, [next], parse);
    KernelTokensReading(avg10, avg60, avg300, total, parse);
  }

  /** The four tokens of a kernel-format line yield the avg10 figure. */
  lemma KernelTokensReading(avg10: string, avg60: string, avg300: string, total: string,
                            parse: string -> Option<real>)
    requires IsFigure(avg10) && IsFigure(avg60) && IsFigure(avg300) && IsFigure(total)
    ensures Avg10FromTokens(["avg10=" + avg10, "avg60=" + avg60, "avg300=" + avg300, "total=" + total], parse)
         == parse(avg10)
  {
    var t := "avg10=" + avg10;
    var post := ["avg60=" + avg60, "avg300=" + avg300, "total=" + total];
    FigureTokens(avg10, avg60, avg300, total);
    LaterKeysDiffer(avg60, avg300, total);
    assert t == Avg10Key + "=" + avg10;
    assert forall u :: u in [] + post ==> Count(u, '=') <= 1;
    Avg10IsLastValue([], t, avg10, post, parse);
    assert [t] + post == [] + [t] + post;
  }
}
