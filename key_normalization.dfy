/**
 * Property-key normalisation: ConfigurationUtils.toKebabCase (the key
 * normaliser used by the watcher side and the event handler), the
 * `${key:default}` placeholder scanner behind extractValueFromExpr, and the
 * regular-expression normaliser of the older DynamicConfigBeanPostProcessor.
 */
module KeyNormalization {
  import opened Strings

  // ------------------------------------------------------------- toKebabCase

  /** The loop variables of toKebabCase: the StringBuilder's contents and
      wasPrevTranslated. */
  datatype KebabState = KebabState(out: string, wasPrevTranslated: bool)

  /** One iteration of toKebabCase's loop, for the character c at index i. */
  function Step(st: KebabState, c: char, i: nat): KebabState {
    if i > 0 && c == '_' then
      st.(out := st.out + "-")
    else if i > 0 || c != '-' then
      if IsUpper(c) then
        var hyphen := !st.wasPrevTranslated && |st.out| > 0 && st.out[|st.out| - 1] != '-';
        KebabState(st.out + (if hyphen then "-" else "") + [ToLower(c)], true)
      else
        KebabState(st.out + [c], false)
    else
      st
  }

  /** The loop state after the first n characters of input. */
  function Scan(input: string, n: nat): KebabState
    requires n <= |input|
  {
    if n == 0 then KebabState("", false) else Step(Scan(input, n - 1), input[n - 1], n - 1)
  }

  /** What toKebabCase returns; None is Java's null. */
  function KebabCase(input: string): (r: Option<string>)
    ensures r.None? <==> !HasText(input)
    ensures r.Some? ==> NoUpper(r.value)
    ensures r.Some? ==> forall j :: 0 < j < |r.value| ==> r.value[j] != '_'
    ensures HasText(input) && |Scan(input, |input|).out| == 0 <==> input == "-"
    ensures input == "-" ==> r == Some(input)
  {
    if !HasText(input) then
      DashHasText();
      None
    else
      var out := Scan(input, |input|).out;
      ScanNoUpper(input, |input|);
      ScanUnderscoreOnlyFirst(input, |input|);
      ScanEmptyOnlyForDash(input, |input|);
      if |out| > 0 then Some(out) else Some(input)
  }

  /** "-" is not blank. */
  lemma DashHasText()
    ensures HasText("-")
  {
    assert !IsWhitespace("-"[0]);
  }

  /** ConfigurationUtils.toKebabCase (normalizePropKey delegates to it). */
  method ToKebabCase(input: string) returns (r: Option<string>)
    ensures r == KebabCase(input)
  {
    if !HasText(input) {
      return None;
    }
    var length := |input|;
    var result := "";
    var resultLength := 0;
    var wasPrevTranslated := false;
    for i := 0 to length
      invariant Scan(input, i) == KebabState(result, wasPrevTranslated)
      invariant resultLength == |result|
    {
      var c := input[i];
      if i > 0 && c == '_' {
        result := result + "-";
        resultLength := resultLength + 1;
        continue;
      }
      if i > 0 || c != '-' {
        if IsUpper(c) {
          if !wasPrevTranslated && resultLength > 0 && result[resultLength - 1] != '-' {
            result := result + "-";
            resultLength := resultLength + 1;
          }
          c := ToLower(c);
          wasPrevTranslated := true;
        } else {
          wasPrevTranslated := false;
        }
        result := result + [c];
        resultLength := resultLength + 1;
      }
    }
    r := if resultLength > 0 then Some(result) else Some(input);
  }

  lemma {:induction false} ScanNoUpper(input: string, n: nat)
    requires n <= |input|
    ensures NoUpper(Scan(input, n).out)
  {
    if n > 0 {
      ScanNoUpper(input, n - 1);
    }
  }

  /** An underscore can only be copied when it is the very first character. */
  lemma {:induction false} ScanUnderscoreOnlyFirst(input: string, n: nat)
    requires n <= |input|
    ensures forall j :: 0 < j < |Scan(input, n).out| ==> Scan(input, n).out[j] != '_'
  {
    if n > 0 {
      ScanUnderscoreOnlyFirst(input, n - 1);
    }
  }

  /** Nothing is emitted only for the one-character input "-"; every index
      after the first emits at least one character. */
  lemma {:induction false} ScanEmptyOnlyForDash(input: string, n: nat)
    requires 1 <= n <= |input|
    ensures |Scan(input, n).out| == 0 <==> n == 1 && input[0] == '-'
  {
    assert Scan(input, 0).out == "";
    if n > 1 {
      assert |Scan(input, n).out| > |Scan(input, n - 1).out|;
    }
  }

  /** The first input character, unless it is '-', is emitted lower-cased
      at index 0. */
  lemma {:induction false} ScanFirst(input: string, n: nat)
    requires 1 <= n <= |input| && input[0] != '-'
    ensures |Scan(input, n).out| >= 1 && Scan(input, n).out[0] == ToLower(input[0])
  {
    if n > 1 {
      ScanFirst(input, n - 1);
    }
  }

  /** A non-whitespace character that is emitted keeps the output non-blank. */
  lemma {:induction false} ScanKeepsText(input: string, n: nat, k: nat)
    requires k < n <= |input|
    requires !IsWhitespace(input[k]) && (k > 0 || input[k] != '-')
    ensures HasText(Scan(input, n).out)
  {
    var prev := Scan(input, n - 1).out;
    var out := Scan(input, n).out;
    assert out[..|prev|] == prev;
    if k < n - 1 {
      ScanKeepsText(input, n - 1, k);
      var w :| 0 <= w < |prev| && !IsWhitespace(prev[w]);
      assert out[w] == prev[w];
    } else {
      assert !IsWhitespace(out[|out| - 1]);
    }
  }

  /** A string with no upper-case letter, no '_' after index 0 and no
      leading '-' passes through the loop unchanged. */
  lemma {:induction false} ScanFixedPoint(o: string, n: nat)
    requires n <= |o|
    requires NoUpper(o)
    requires forall j :: 0 < j < |o| ==> o[j] != '_'
    requires |o| > 0 ==> o[0] != '-'
    ensures Scan(o, n) == KebabState(o[..n], false)
  {
    if n > 0 {
      ScanFixedPoint(o, n - 1);
      assert o[..n] == o[..n - 1] + [o[n - 1]];
    }
  }

  /** Past the first character, a run without upper-case letters and '_'
      is copied to the output as it is. */
  lemma {:induction false} ScanPlainRun(s: string, m: nat, n: nat)
    requires 0 < m <= n <= |s|
    requires forall j :: m <= j < n ==> !IsUpper(s[j]) && s[j] != '_'
    ensures Scan(s, n).out == Scan(s, m).out + s[m..n]
    ensures n > m ==> !Scan(s, n).wasPrevTranslated
  {
    if n > m {
      ScanPlainRun(s, m, n - 1);
      assert s[m..n] == s[m..n - 1] + [s[n - 1]];
    }
  }

  /** An upper-case letter after a plain run starts a new hyphenated word;
      the plain run after it is copied. */
  lemma ScanCamelRun(s: string, m: nat, n: nat)
    requires 0 < m < n <= |s| && IsUpper(s[m])
    requires !Scan(s, m).wasPrevTranslated && |Scan(s, m).out| > 0 && Scan(s, m).out[|Scan(s, m).out| - 1] != '-'
    requires forall j :: m < j < n ==> !IsUpper(s[j]) && s[j] != '_'
    ensures Scan(s, n).out == Scan(s, m).out + "-" + [ToLower(s[m])] + s[m + 1..n]
    ensures n > m + 1 ==> !Scan(s, n).wasPrevTranslated
  {
    ScanPlainRun(s, m + 1, n);
  }

  /** No upper-case letter and no '_': text the loop copies as it is. */
  predicate Plain(t: string) {
    forall j :: 0 <= j < |t| ==> !IsUpper(t[j]) && t[j] != '_'
  }

  /** The loop state after n characters depends on those characters only. */
  lemma {:induction false} ScanPrefix(s: string, t: string, n: nat)
    requires n <= |s| && n <= |t| && s[..n] == t[..n]
    ensures Scan(s, n) == Scan(t, n)
  {
    if n > 0 {
      assert s[n - 1] == s[..n][n - 1] && t[n - 1] == t[..n][n - 1];
      assert s[..n - 1] == s[..n][..n - 1] && t[..n - 1] == t[..n][..n - 1];
      ScanPrefix(s, t, n - 1);
    }
  }

  /** Appending a plain run to a non-empty key appends it to the output. */
  lemma AppendPlain(a: string, b: string)
    requires |a| > 0 && Plain(b)
    ensures Scan(a + b, |a + b|).out == Scan(a, |a|).out + b
    ensures |b| > 0 ==> !Scan(a + b, |a + b|).wasPrevTranslated
  {
    var s := a + b;
    assert s[..|a|] == a[..|a|];
    ScanPrefix(s, a, |a|);
    assert s[|a|..|s|] == b;
    ScanPlainRun(s, |a|, |s|);
  }

  /** Appending a capital and a plain run to a key whose output ends in a
      plain character appends '-', the lowered capital and the run. */
  lemma AppendWord(a: string, c: char, b: string)
    requires |a| > 0 && IsUpper(c) && Plain(b)
    requires !Scan(a, |a|).wasPrevTranslated && |Scan(a, |a|).out| > 0
    requires Scan(a, |a|).out[|Scan(a, |a|).out| - 1] != '-'
    ensures Scan(a + [c] + b, |a + [c] + b|).out == Scan(a, |a|).out + "-" + [ToLower(c)] + b
    ensures |b| > 0 ==> !Scan(a + [c] + b, |a + [c] + b|).wasPrevTranslated
  {
    var s := a + [c] + b;
    assert s[..|a|] == a[..|a|];
    ScanPrefix(s, a, |a|);
    assert s[|a| + 1..|s|] == b;
    ScanCamelRun(s, |a|, |s|);
  }

  /** A plain word not starting with '-' is copied by the loop. */
  lemma ScanPlainWord(a: string)
    requires |a| > 0 && a[0] != '-' && Plain(a)
    ensures Scan(a, |a|) == KebabState(a, false)
  {
    assert Scan(a, 1) == KebabState([a[0]], false) by {
      assert Scan(a, 0) == KebabState("", false);
      assert !IsUpper(a[0]);
    }
    if |a| > 1 {
      ScanPlainRun(a, 1, |a|);
      assert [a[0]] + a[1..] == a;
    } else {
      assert a == [a[0]];
    }
  }

  /** A key starting with a non-blank character whose loop emits something
      normalises to what the loop emitted. */
  lemma KebabCaseOfScan(s: string)
    requires |s| > 0 && !IsWhitespace(s[0]) && |Scan(s, |s|).out| > 0
    ensures KebabCase(s) == Some(Scan(s, |s|).out)
  {
    assert HasText(s);
  }

  /** toKebabCase is idempotent on non-blank keys that do not start with '-'. */
  lemma KebabCaseIdempotent(x: string)
    requires HasText(x) && x[0] != '-'
    ensures KebabCase(x).Some?
    ensures KebabCase(KebabCase(x).value) == KebabCase(x)
  {
    var o := Scan(x, |x|).out;
    ScanFirst(x, |x|);
    ScanNoUpper(x, |x|);
    ScanUnderscoreOnlyFirst(x, |x|);
    var k :| 0 <= k < |x| && !IsWhitespace(x[k]);
    ScanKeepsText(x, |x|, k);
    assert KebabCase(x) == Some(o);
    ScanFixedPoint(o, |o|);
    assert o[..|o|] == o;
  }

  /** A key already in kebab form is its own normalisation. */
  lemma KebabCaseFixed(o: string)
    requires HasText(o) && NoUpper(o) && o[0] != '-'
    requires forall j :: 0 < j < |o| ==> o[j] != '_'
    ensures KebabCase(o) == Some(o)
  {
    ScanFixedPoint(o, |o|);
    assert o[..|o|] == o;
  }

  /** A name starting with a non-blank character other than '-' normalises
      to a key starting with that character, lower-cased. */
  lemma KebabCaseFirst(name: string)
    requires |name| > 0 && !IsWhitespace(name[0]) && name[0] != '-'
    ensures KebabCase(name).Some? && |KebabCase(name).value| >= 1
    ensures KebabCase(name).value[0] == ToLower(name[0])
  {
    ScanFirst(name, |name|);
  }

  /** ...but not in general: a doubled leading '-' loses one '-' per pass. */
  lemma KebabCaseNotIdempotentOnLeadingDashes()
    ensures KebabCase("--a") == Some("-a")
    ensures KebabCase("-a") == Some("a")
  {
    assert !IsWhitespace('a');
    assert "--a"[2] == 'a' && "-a"[1] == 'a';
    var s, t := "--a", "-a";
    assert Scan(s, 1) == KebabState("", false);
    assert Scan(s, 2) == KebabState("-", false);
    assert Scan(s, 3) == KebabState("-a", false);
    assert Scan(t, 1) == KebabState("", false);
    assert Scan(t, 2) == KebabState("a", false);
  }

  /** A leading '-' is dropped: the output starts with the second input
      character, lower-cased (unless that one is '_', emitted as '-'). */
  lemma {:induction false} ScanAfterLeadingDash(input: string, n: nat)
    requires 2 <= n <= |input| && input[0] == '-' && input[1] != '_'
    ensures |Scan(input, n).out| >= 1 && Scan(input, n).out[0] == ToLower(input[1])
  {
    if n > 2 {
      ScanAfterLeadingDash(input, n - 1);
    } else {
      assert Scan(input, 1) == KebabState("", false);
    }
  }

  lemma LeadingDashDropped(input: string)
    requires |input| >= 2 && input[0] == '-' && input[1] != '_'
    ensures KebabCase(input).Some?
    ensures KebabCase(input).value[0] == ToLower(input[1])
  {
    ScanAfterLeadingDash(input, |input|);
    assert !IsWhitespace(input[0]);
  }

  /** The key the library's own unit test normalises, followed through the
      loop a few characters at a time. */
  const KebabTestKey := "Abc_EfG-xA-bbcc_EF-z.ac.%"

  lemma KebabTestScan3(s: string)
    requires |s| == 25 && s[0] == 'A' && s[1] == 'b' && s[2] == 'c'
    ensures Scan(s, 3) == KebabState("abc", false)
  {
    assert Scan(s, 1) == KebabState("a", true);
    assert Scan(s, 2) == KebabState("ab", false);
  }

  lemma KebabTestScan6(s: string)
    requires |s| == 25 && s[3] == '_' && s[4] == 'E' && s[5] == 'f'
    requires Scan(s, 3) == KebabState("abc", false)
    ensures Scan(s, 6) == KebabState("abc-ef", false)
  {
    assert Scan(s, 4) == KebabState("abc-", false);
    assert Scan(s, 5) == KebabState("abc-e", true);
  }

  lemma KebabTestScan9(s: string)
    requires |s| == 25 && s[6] == 'G' && s[7] == '-' && s[8] == 'x'
    requires Scan(s, 6) == KebabState("abc-ef", false)
    ensures Scan(s, 9) == KebabState("abc-ef-g-x", false)
  {
    assert Scan(s, 7) == KebabState("abc-ef-g", true);
    assert Scan(s, 8) == KebabState("abc-ef-g-", false);
  }

  lemma KebabTestScan11(s: string)
    requires |s| == 25 && s[9] == 'A' && s[10] == '-'
    requires Scan(s, 9) == KebabState("abc-ef-g-x", false)
    ensures Scan(s, 11) == KebabState("abc-ef-g-x-a-", false)
  {
    assert Scan(s, 10) == KebabState("abc-ef-g-x-a", true);
  }

  lemma KebabTestScan13(s: string)
    requires |s| == 25 && s[11] == 'b' && s[12] == 'b'
    requires Scan(s, 11) == KebabState("abc-ef-g-x-a-", false)
    ensures Scan(s, 13) == KebabState("abc-ef-g-x-a-bb", false)
  {
    assert Scan(s, 12) == KebabState("abc-ef-g-x-a-b", false);
  }

  lemma KebabTestScan15(s: string)
    requires |s| == 25 && s[13] == 'c' && s[14] == 'c'
    requires Scan(s, 13) == KebabState("abc-ef-g-x-a-bb", false)
    ensures Scan(s, 15) == KebabState("abc-ef-g-x-a-bbcc", false)
  {
    assert Scan(s, 14) == KebabState("abc-ef-g-x-a-bbc", false);
  }

  lemma KebabTestScan17(s: string)
    requires |s| == 25 && s[15] == '_' && s[16] == 'E'
    requires Scan(s, 15) == KebabState("abc-ef-g-x-a-bbcc", false)
    ensures Scan(s, 17) == KebabState("abc-ef-g-x-a-bbcc-e", true)
  {
    assert Scan(s, 16) == KebabState("abc-ef-g-x-a-bbcc-", false);
  }

  lemma KebabTestScan19(s: string)
    requires |s| == 25 && s[17] == 'F' && s[18] == '-'
    requires Scan(s, 17) == KebabState("abc-ef-g-x-a-bbcc-e", true)
    ensures Scan(s, 19) == KebabState("abc-ef-g-x-a-bbcc-ef-", false)
  {
    assert Scan(s, 18) == KebabState("abc-ef-g-x-a-bbcc-ef", true);
  }

  lemma KebabTestScan21(s: string)
    requires |s| == 25 && s[19] == 'z' && s[20] == '.'
    requires Scan(s, 19) == KebabState("abc-ef-g-x-a-bbcc-ef-", false)
    ensures Scan(s, 21) == KebabState("abc-ef-g-x-a-bbcc-ef-z.", false)
  {
    assert Scan(s, 20) == KebabState("abc-ef-g-x-a-bbcc-ef-z", false);
  }

  lemma KebabTestScan23(s: string)
    requires |s| == 25 && s[21] == 'a' && s[22] == 'c'
    requires Scan(s, 21) == KebabState("abc-ef-g-x-a-bbcc-ef-z.", false)
    ensures Scan(s, 23) == KebabState("abc-ef-g-x-a-bbcc-ef-z.ac", false)
  {
    assert Scan(s, 22) == KebabState("abc-ef-g-x-a-bbcc-ef-z.a", false);
  }

  lemma KebabTestScan25(s: string)
    requires |s| == 25 && s[23] == '.' && s[24] == '%'
    requires Scan(s, 23) == KebabState("abc-ef-g-x-a-bbcc-ef-z.ac", false)
    ensures Scan(s, 25) == KebabState("abc-ef-g-x-a-bbcc-ef-z.ac.%", false)
  {
    assert Scan(s, 24) == KebabState("abc-ef-g-x-a-bbcc-ef-z.ac.", false);
  }

  lemma KebabTestKeyChars1(s: string)
    requires s == KebabTestKey
    ensures |s| == 25 && s[0] == 'A' && s[1] == 'b' && s[2] == 'c' && s[3] == '_' && s[4] == 'E' && s[5] == 'f' && s[6] == 'G'
  {
  }

  lemma KebabTestKeyChars2(s: string)
    requires s == KebabTestKey
    ensures |s| == 25 && s[7] == '-' && s[8] == 'x' && s[9] == 'A' && s[10] == '-' && s[11] == 'b' && s[12] == 'b'
  {
  }

  lemma KebabTestKeyChars3(s: string)
    requires s == KebabTestKey
    ensures |s| == 25 && s[13] == 'c' && s[14] == 'c' && s[15] == '_' && s[16] == 'E' && s[17] == 'F' && s[18] == '-'
  {
  }

  lemma KebabTestKeyChars4(s: string)
    requires s == KebabTestKey
    ensures |s| == 25 && s[19] == 'z' && s[20] == '.' && s[21] == 'a' && s[22] == 'c' && s[23] == '.' && s[24] == '%'
  {
  }

  /** The normalisation pinned by the library's own unit test. */
  lemma KebabCaseExample(s: string)
    requires s == KebabTestKey
    ensures KebabCase(s) == Some("abc-ef-g-x-a-bbcc-ef-z.ac.%")
  {
    KebabTestKeyChars1(s);
    KebabTestKeyChars2(s);
    KebabTestKeyChars3(s);
    KebabTestKeyChars4(s);
    assert !IsWhitespace(s[0]);
    KebabTestScan3(s);
    KebabTestScan6(s);
    KebabTestScan9(s);
    KebabTestScan11(s);
    KebabTestScan13(s);
    KebabTestScan15(s);
    KebabTestScan17(s);
    KebabTestScan19(s);
    KebabTestScan21(s);
    KebabTestScan23(s);
    KebabTestScan25(s);
  }

  // ----------------------------------------------- ${key:default} placeholders

  /** VALUE_PATTERN `\$\{([^:}]+):?([^}]*)}` has a match starting at p: "${",
      a first key character that is neither ':' nor '}', and a closing '}'. */
  predicate MatchesAt(s: string, p: int) {
    0 <= p && p + 2 < |s| && s[p] == '$' && s[p + 1] == '{'
    && s[p + 2] != ':' && s[p + 2] != '}' && '}' in s[p + 3..]
  }

  predicate IsKeyStop(c: char) {
    c == ':' || c == '}'
  }

  /** Index of the first ':' or '}' in t, |t| when there is none. */
  function FirstKeyStop(t: string): (r: nat)
    ensures r <= |t|
    ensures forall j :: 0 <= j < r ==> !IsKeyStop(t[j])
    ensures r < |t| ==> IsKeyStop(t[r])
  {
    if t == [] then 0 else if IsKeyStop(t[0]) then 0 else 1 + FirstKeyStop(t[1..])
  }

  /** One Matcher.find result: where the match starts, group(1), and where
      the next search resumes. */
  datatype PlaceholderMatch = PlaceholderMatch(start: nat, key: string, end: nat)

  /** m is the leftmost match at or after `from`; its group(1) runs up to
      the first ':' or '}', and the match itself up to the first '}'. */
  predicate IsLeftmostMatch(s: string, from: nat, m: PlaceholderMatch) {
    && from <= m.start && MatchesAt(s, m.start)
    && (forall q :: from <= q < m.start ==> !MatchesAt(s, q))
    && m.start + 3 <= m.end <= |s| && s[m.end - 1] == '}'
    && (forall j :: m.start + 3 <= j < m.end - 1 ==> s[j] != '}')
    && |m.key| > 0 && StartsWith(s[m.start + 2..], m.key)
    && (forall j :: 0 <= j < |m.key| ==> !IsKeyStop(m.key[j]))
    && m.start + 2 + |m.key| < |s| && IsKeyStop(s[m.start + 2 + |m.key|])
  }

  /** Matcher.find from position `from`. */
  function FindPlaceholder(s: string, from: nat): (r: Option<PlaceholderMatch>)
    decreases |s| - from
    ensures r.Some? ==> from <= r.value.start && r.value.start + 3 <= r.value.end <= |s|
  {
    if from + 2 >= |s| then None
    else if MatchesAt(s, from) then
      var tail := s[from + 2..];
      var close := IndexOf(s[from + 3..], '}');
      Some(PlaceholderMatch(from, tail[..FirstKeyStop(tail)], from + 3 + close + 1))
    else
      FindPlaceholder(s, from + 1)
  }

  /** At a match, group(1) is the run of key characters after "${". */
  lemma FoundKey(s: string, from: nat)
    requires from + 2 < |s| && MatchesAt(s, from)
    ensures var m := FindPlaceholder(s, from).value;
      && m.start == from && |m.key| > 0 && StartsWith(s[from + 2..], m.key)
      && (forall j :: 0 <= j < |m.key| ==> !IsKeyStop(m.key[j]))
      && from + 2 + |m.key| < |s| && IsKeyStop(s[from + 2 + |m.key|])
  {
    var tail := s[from + 2..];
    var g := FirstKeyStop(tail);
    assert g < |tail| by {
      var w :| 0 <= w < |s[from + 3..]| && s[from + 3..][w] == '}';
      assert IsKeyStop(tail[w + 1]);
    }
    assert !IsKeyStop(tail[0]);
    assert FindPlaceholder(s, from).value.key == tail[..g];
  }

  /** At a match, the match ends just after the first '}'. */
  lemma FoundEnd(s: string, from: nat)
    requires from + 2 < |s| && MatchesAt(s, from)
    ensures var m := FindPlaceholder(s, from).value;
      && m.start + 3 <= m.end <= |s| && s[m.end - 1] == '}'
      && (forall j :: m.start + 3 <= j < m.end - 1 ==> s[j] != '}')
  {
    var close := IndexOf(s[from + 3..], '}');
    assert close >= 0;
    assert FindPlaceholder(s, from).value.end == from + 3 + close + 1;
  }

  /** FindPlaceholder finds the leftmost match, or reports that there is none. */
  lemma {:induction false} FindPlaceholderSpec(s: string, from: nat)
    decreases |s| - from
    ensures FindPlaceholder(s, from).None? ==> forall q :: from <= q < |s| ==> !MatchesAt(s, q)
    ensures FindPlaceholder(s, from).Some? ==> IsLeftmostMatch(s, from, FindPlaceholder(s, from).value)
  {
    if from + 2 >= |s| {
    } else if MatchesAt(s, from) {
      FoundKey(s, from);
      FoundEnd(s, from);
    } else {
      FindPlaceholderSpec(s, from + 1);
    }
  }

  /** group(1) of every match from position `from` on, left to right. */
  function PlaceholdersFrom(s: string, from: nat): seq<string>
    requires from <= |s|
    decreases |s| - from
  {
    match FindPlaceholder(s, from)
    case None => []
    case Some(m) => [m.key] + PlaceholdersFrom(s, m.end)
  }

  function Placeholders(s: string): seq<string> {
    PlaceholdersFrom(s, 0)
  }

  /** Every placeholder key is non-empty and holds no ':' and no '}'. */
  lemma {:induction false} PlaceholderKeysWellFormed(s: string, from: nat)
    requires from <= |s|
    ensures forall i :: 0 <= i < |PlaceholdersFrom(s, from)| ==>
      |PlaceholdersFrom(s, from)[i]| > 0 && ':' !in PlaceholdersFrom(s, from)[i] && '}' !in PlaceholdersFrom(s, from)[i]
    decreases |s| - from
  {
    FindPlaceholderSpec(s, from);
    match FindPlaceholder(s, from)
    case None =>
    case Some(m) =>
      PlaceholderKeysWellFormed(s, m.end);
      assert ':' !in m.key && '}' !in m.key by {
        forall j | 0 <= j < |m.key| ensures m.key[j] != ':' && m.key[j] != '}' {
          assert !IsKeyStop(m.key[j]);
        }
      }
  }

  /** Text without "${" yields no key. */
  lemma {:induction false} NoPlaceholderNoKeys(s: string)
    requires forall p :: 0 <= p < |s| - 1 ==> !(s[p] == '$' && s[p + 1] == '{')
    ensures Placeholders(s) == []
  {
    FindPlaceholderSpec(s, 0);
  }

  /** The keys of every placeholder, normalised, as extractValueFromExpr
      returns them. */
  function KebabKeys(groups: seq<string>): (r: seq<Option<string>>)
    ensures |r| == |groups|
  {
    if groups == [] then [] else [KebabCase(JavaTrim(groups[0]))] + KebabKeys(groups[1..])
  }

  /** Key i is group i, trimmed and normalised; it is null exactly when the
      group is blank. */
  lemma {:induction false} KebabKeysAt(groups: seq<string>, i: nat)
    requires i < |groups|
    ensures KebabKeys(groups)[i] == KebabCase(JavaTrim(groups[i]))
    ensures KebabKeys(groups)[i].None? <==> !HasText(JavaTrim(groups[i]))
  {
    if i > 0 {
      KebabKeysAt(groups[1..], i - 1);
    }
  }

  lemma {:induction false} KebabKeysSnoc(groups: seq<string>, g: string)
    ensures KebabKeys(groups + [g]) == KebabKeys(groups) + [KebabCase(JavaTrim(g))]
  {
    if groups != [] {
      assert (groups + [g])[1..] == groups[1..] + [g];
      KebabKeysSnoc(groups[1..], g);
    }
  }

  /** One turn of a matcher loop: the match moves from what is left to
      what is done. */
  lemma PlaceholdersStep(valueExpr: string, pos: nat, done: seq<string>, m: PlaceholderMatch)
    requires pos <= |valueExpr| && FindPlaceholder(valueExpr, pos) == Some(m)
    ensures m.end <= |valueExpr|
    ensures done + PlaceholdersFrom(valueExpr, pos) == (done + [m.key]) + PlaceholdersFrom(valueExpr, m.end)
  {
    var rest := PlaceholdersFrom(valueExpr, m.end);
    assert PlaceholdersFrom(valueExpr, pos) == [m.key] + rest;
    assert done + ([m.key] + rest) == (done + [m.key]) + rest;
  }

  /** ConfigurationUtils.extractValueFromExpr: one normalised key per match of
      VALUE_PATTERN, left to right (null for a blank key). */
  method ExtractValueFromExpr(valueExpr: string) returns (keys: seq<Option<string>>)
    ensures keys == KebabKeys(Placeholders(valueExpr))
  {
    keys := [];
    var pos := 0;
    ghost var done: seq<string> := [];
    while true
      invariant 0 <= pos <= |valueExpr|
      invariant Placeholders(valueExpr) == done + PlaceholdersFrom(valueExpr, pos)
      invariant keys == KebabKeys(done)
      decreases |valueExpr| - pos
    {
      var found := FindPlaceholder(valueExpr, pos);
      if found.None? {
        assert done + [] == done;
        break;
      }
      var m := found.value;
      var key := ToKebabCase(JavaTrim(m.key));
      PlaceholdersStep(valueExpr, pos, done, m);
      KebabKeysSnoc(done, m.key);
      keys := keys + [key];
      done := done + [m.key];
      pos := m.end;
    }
  }

  /** A match at `from` whose group(1) is `key` and whose first closing
      '}' is at `close` is what Matcher.find reports. */
  lemma MatchHere(s: string, from: nat, key: string, close: nat)
    requires from + 2 < |s| && MatchesAt(s, from)
    requires StartsWith(s[from + 2..], key) && (forall j :: 0 <= j < |key| ==> !IsKeyStop(key[j]))
    requires from + 2 + |key| < |s| && IsKeyStop(s[from + 2 + |key|])
    requires from + 3 <= close < |s| && s[close] == '}'
    requires forall j :: from + 3 <= j < close ==> s[j] != '}'
    ensures FindPlaceholder(s, from) == Some(PlaceholderMatch(from, key, close + 1))
  {
    FoundKey(s, from);
    FoundEnd(s, from);
    var m := FindPlaceholder(s, from).value;
    assert m.key == s[from + 2..][..|key|];
  }

  /** Where "${" + key + tail + "}" has its stops and its closing brace. */
  lemma LonePlaceholderShape(key: string, tail: string, s: string)
    requires |key| > 0 && ':' !in key && '}' !in key && '}' !in tail
    requires tail == [] || tail[0] == ':'
    requires s == "${" + key + tail + "}"
    ensures MatchesAt(s, 0)
    ensures StartsWith(s[2..], key) && IsKeyStop(s[2 + |key|])
    ensures forall j :: 3 <= j < |s| - 1 ==> s[j] != '}'
  {
    assert s[2..][..|key|] == key;
    assert s[3..][|s| - 4] == '}';
    forall j | 3 <= j < |s| - 1 ensures s[j] != '}' {
      if j < 2 + |key| {
        assert s[j] == key[j - 2];
      } else {
        assert s[j] == tail[j - 2 - |key|];
      }
    }
  }

  /** The matcher finds the lone placeholder and ends after its brace. */
  lemma LonePlaceholderFound(key: string, tail: string, s: string)
    requires |key| > 0 && ':' !in key && '}' !in key && '}' !in tail
    requires tail == [] || tail[0] == ':'
    requires s == "${" + key + tail + "}"
    ensures FindPlaceholder(s, 0) == Some(PlaceholderMatch(0, key, |s|))
  {
    LonePlaceholderShape(key, tail, s);
    assert forall j :: 0 <= j < |key| ==> !IsKeyStop(key[j]);
    MatchHere(s, 0, key, |s| - 1);
  }

  /** A lone placeholder `${key}` or `${key:default}` yields exactly its key. */
  lemma SinglePlaceholder(key: string, default: Option<string>)
    requires |key| > 0 && ':' !in key && '}' !in key
    requires default.Some? ==> '}' !in default.value
    ensures var tail := if default.Some? then ":" + default.value else "";
      Placeholders("${" + key + tail + "}") == [key]
  {
    var tail := if default.Some? then ":" + default.value else "";
    var s := "${" + key + tail + "}";
    assert '}' !in tail && (tail == [] || tail[0] == ':');
    LonePlaceholderFound(key, tail, s);
    assert PlaceholdersFrom(s, |s|) == [];
    assert Placeholders(s) == [key] + PlaceholdersFrom(s, |s|);
  }

  /** After a run without '$', the next match is a `${key}` written out in full. */
  lemma {:induction false} PlaceholderAfter(s: string, from: nat, at: nat, key: string)
    requires from <= at && at + 3 + |key| <= |s| && |key| > 0
    requires forall q :: from <= q < at ==> s[q] != '$'
    requires s[at] == '$' && s[at + 1] == '{' && s[at + 2 + |key|] == '}'
    requires forall j :: 0 <= j < |key| ==> s[at + 2 + j] == key[j] && !IsKeyStop(key[j])
    ensures FindPlaceholder(s, from) == Some(PlaceholderMatch(at, key, at + 3 + |key|))
    decreases at - from
  {
    if from < at {
      PlaceholderAfter(s, from + 1, at, key);
    } else {
      var close := at + 2 + |key|;
      assert s[at + 3..][|key| - 1] == '}';
      assert s[at + 2..][..|key|] == key;
      MatchHere(s, at, key, close);
    }
  }

  lemma SpelFirstPlaceholder(e: string)
    requires e == "#{${x} / ${y}}"
    ensures FindPlaceholder(e, 0) == Some(PlaceholderMatch(2, "x", 6))
  {
    PlaceholderAfter(e, 0, 2, "x");
  }

  lemma SpelSecondPlaceholder(e: string)
    requires e == "#{${x} / ${y}}"
    ensures FindPlaceholder(e, 6) == Some(PlaceholderMatch(9, "y", 13))
  {
    PlaceholderAfter(e, 6, 9, "y");
  }

  /** Two placeholders inside a SpEL expression, found left to right. */
  lemma PlaceholderSpelExample(e: string)
    requires e == "#{${x} / ${y}}"
    ensures Placeholders(e) == ["x", "y"]
  {
    SpelFirstPlaceholder(e);
    SpelSecondPlaceholder(e);
    assert FindPlaceholder(e, 13) == None;
    assert PlaceholdersFrom(e, 13) == [];
    assert PlaceholdersFrom(e, 6) == ["y"];
  }

  // -------------------------------------- the older, regex-based normaliser

  /** The pair (c, C) CAMEL_CASE_PATTERN `([^A-Z-])([A-Z])` matches. */
  predicate CamelPair(a: char, b: char) {
    !IsUpper(a) && a != '-' && IsUpper(b)
  }

  /** appendReplacement of group(1) + '-' + uncapitalize(group(2)) over every
      match, scanning left to right without overlap. The replacement is used
      literally; see CamelSplitAsWritten for what Matcher makes of it. */
  function CamelSplit(s: string): (r: string)
    decreases |s|
  {
    if |s| < 2 then s
    else if CamelPair(s[0], s[1]) then [s[0], '-', ToLower(s[1])] + CamelSplit(s[2..])
    else [s[0]] + CamelSplit(s[1..])
  }

  /** `.replaceAll("_", "-").toLowerCase(Locale.ENGLISH)`, the tail of
      normalizePropKey. */
  function DashLower(s: string): (r: string)
    ensures NoUpper(r) && '_' !in r
  {
    var t := ReplaceChar(s, '_', '-');
    var r := LowerAll(t);
    assert '_' !in r by {
      forall i | 0 <= i < |r| ensures r[i] != '_' {
        assert t[i] != '_';
      }
    }
    r
  }

  /** DynamicConfigBeanPostProcessor.normalizePropKey as written. */
  function RegexNormalizePropKey(name: string): (r: Result<string>)
    ensures r.Err? ==> r.error == IllegalArgument
    ensures r.Ok? ==> NoUpper(r.value) && '_' !in r.value
  {
    match CamelSplitAsWritten(name)
    case Err(e) => Err(e)
    case Ok(s) => Ok(DashLower(s))
  }

  /** normalizePropKey throws IllegalArgumentException exactly when a '$'
      stands before a capital. */
  lemma RegexNormalizeThrowsIff(name: string)
    ensures RegexNormalizePropKey(name).Err? <==> DollarBeforeCapital(name)
  {
    CamelSplitAsWrittenThrowsIff(name);
  }

  /** Without '$' or '\' before a capital, normalizePropKey is the literal
      replacement followed by the tail. */
  lemma RegexNormalizeAgrees(name: string)
    requires !HasReplacementMetaBeforeCapital(name)
    ensures RegexNormalizePropKey(name) == Ok(DashLower(CamelSplit(name)))
  {
    CamelSplitAsWrittenAgrees(name);
  }

  /** A string without upper-case letters has nothing for CAMEL_CASE_PATTERN. */
  lemma {:induction false} CamelSplitNoUpper(s: string)
    requires NoUpper(s)
    ensures CamelSplit(s) == s
    decreases |s|
  {
    if |s| >= 2 {
      CamelSplitNoUpper(s[1..]);
    }
  }

  lemma {:induction false} ReplaceCharAbsent(s: string, c: char, d: char)
    requires c !in s
    ensures ReplaceChar(s, c, d) == s
  {
  }

  lemma {:induction false} LowerAllNoUpper(s: string)
    requires NoUpper(s)
    ensures LowerAll(s) == s
  {
  }

  /** A string without upper-case letters has no character before a capital. */
  lemma NoUpperNoMeta(s: string)
    requires NoUpper(s)
    ensures !HasReplacementMetaBeforeCapital(s)
  {

  }

  /** The regex normaliser is idempotent wherever it does not throw. */
  lemma RegexNormalizeIdempotent(name: string)
    ensures RegexNormalizePropKey(name).Ok? ==>
      RegexNormalizePropKey(RegexNormalizePropKey(name).value) == RegexNormalizePropKey(name)
  {
    var r := RegexNormalizePropKey(name);
    if r.Ok? {
      var v := r.value;
      NoUpperNoMeta(v);
      RegexNormalizeAgrees(v);
      CamelSplitNoUpper(v);
      ReplaceCharAbsent(v, '_', '-');
      LowerAllNoUpper(v);
    }
  }

  /** The two normalisers disagree on an underscore before a capital. */
  lemma NormalizersDiffer(s: string)
    requires s == "a_B"
    ensures KebabCase(s) == Some("a-b")
    ensures RegexNormalizePropKey(s) == Ok("a--b")
  {
    assert KebabCase(s) == Some("a-b") by {
      assert !IsWhitespace(s[0]);
      assert Scan(s, 1) == KebabState("a", false);
      assert Scan(s, 2) == KebabState("a-", false);
      assert Scan(s, 3) == KebabState("a-b", true);
    }
    RegexOnUnderscoreCapital(s);
  }

  /** The regex normaliser keeps the '_' of "a_B" as a second '-'. */
  lemma RegexOnUnderscoreCapital(s: string)
    requires s == "a_B"
    ensures RegexNormalizePropKey(s) == Ok("a--b")
  {
    assert !HasReplacementMetaBeforeCapital(s) by {
      assert s[1] == '_' && !IsUpper(s[1]);
    }
    RegexNormalizeAgrees(s);
    assert CamelSplit(s[2..]) == "B";
    assert CamelSplit(s[1..]) == "_-b";
    assert CamelSplit(s) == "a_-b";
    assert ReplaceChar("a_-b", '_', '-') == "a--b";
  }

  // ------------------------------------------- appendReplacement as written

  /** Matcher.appendReplacement reads '$' in the replacement as a group
      reference and '\' as an escape. The replacement group(1) + "-" + ...
      is passed unquoted, so a '$' before a capital throws and a '\' before a
      capital is swallowed. */
  function CamelSplitAsWritten(s: string): (r: Result<string>)
    ensures r.Err? ==> r.error == IllegalArgument
    decreases |s|
  {
    if |s| < 2 then Ok(s)
    else if CamelPair(s[0], s[1]) then
      if s[0] == '$' then Err(IllegalArgument)
      else
        var rest := CamelSplitAsWritten(s[2..]);
        if rest.Err? then rest
        else if s[0] == '\\' then Ok(['-', ToLower(s[1])] + rest.value)
        else Ok([s[0], '-', ToLower(s[1])] + rest.value)
    else
      var rest := CamelSplitAsWritten(s[1..]);
      if rest.Err? then rest else Ok([s[0]] + rest.value)
  }

  /** The two characters that make the unquoted replacement go wrong. */
  predicate HasReplacementMetaBeforeCapital(s: string) {
    exists i :: 0 <= i < |s| - 1 && (s[i] == '$' || s[i] == '\\') && IsUpper(s[i + 1])
  }

  /** A '$' right before a capital letter. */
  predicate DollarBeforeCapital(s: string) {
    exists i :: 0 <= i < |s| - 1 && s[i] == '$' && IsUpper(s[i + 1])
  }

  /** Dropping a first step of k characters that holds no '$' before a
      capital keeps the question the same. */
  lemma DollarDrop(s: string, k: nat)
    requires 1 <= k <= 2 && k <= |s|
    requires forall i :: 0 <= i < k && i < |s| - 1 ==> !(s[i] == '$' && IsUpper(s[i + 1]))
    ensures DollarBeforeCapital(s) <==> DollarBeforeCapital(s[k..])
  {
    if DollarBeforeCapital(s) {
      var i :| 0 <= i < |s| - 1 && s[i] == '$' && IsUpper(s[i + 1]);
      assert s[k..][i - k] == s[i] && s[k..][i - k + 1] == s[i + 1];
    }
    if DollarBeforeCapital(s[k..]) {
      var j :| 0 <= j < |s[k..]| - 1 && s[k..][j] == '$' && IsUpper(s[k..][j + 1]);
      assert s[j + k] == '$' && IsUpper(s[j + k + 1]);
    }
  }

  /** The code as written throws exactly when a '$' stands before a capital:
      such a pair is always a match, since '$' is neither a capital nor '-'
      and so cannot be the tail of an earlier match. */
  lemma {:induction false} CamelSplitAsWrittenThrowsIff(s: string)
    ensures CamelSplitAsWritten(s).Err? <==> DollarBeforeCapital(s)
    decreases |s|
  {
    if |s| >= 2 {
      if CamelPair(s[0], s[1]) {
        if s[0] != '$' {
          CamelSplitAsWrittenThrowsIff(s[2..]);
          DollarDrop(s, 2);
        } else {
          assert s[0] == '$' && IsUpper(s[1]);
        }
      } else {
        CamelSplitAsWrittenThrowsIff(s[1..]);
        DollarDrop(s, 1);
      }
    }
  }

  /** Without '$' or '\' before a capital, the code as written computes the
      literal replacement. */
  lemma {:induction false} CamelSplitAsWrittenAgrees(s: string)
    requires !HasReplacementMetaBeforeCapital(s)
    ensures CamelSplitAsWritten(s) == Ok(CamelSplit(s))
    decreases |s|
  {
    if |s| >= 2 {
      if CamelPair(s[0], s[1]) {
        assert s[0] != '$' && s[0] != '\\' by { assert IsUpper(s[1]); }
        assert !HasReplacementMetaBeforeCapital(s[2..]) by {
          forall i | 0 <= i < |s[2..]| - 1 ensures !((s[2..][i] == '$' || s[2..][i] == '\\') && IsUpper(s[2..][i + 1])) {
            assert s[2..][i] == s[i + 2] && s[2..][i + 1] == s[i + 3];
          }
        }
        CamelSplitAsWrittenAgrees(s[2..]);
      } else {
        assert !HasReplacementMetaBeforeCapital(s[1..]) by {
          forall i | 0 <= i < |s[1..]| - 1 ensures !((s[1..][i] == '$' || s[1..][i] == '\\') && IsUpper(s[1..][i + 1])) {
            assert s[1..][i] == s[i + 1] && s[1..][i + 1] == s[i + 2];
          }
        }
        CamelSplitAsWrittenAgrees(s[1..]);
      }
    }
  }

  /** A '$' before a capital makes the code as written throw, where the
      literal replacement keeps it. */
  lemma CamelSplitDollarCounterexample(d: string)
    requires d == "a$B"
    ensures CamelSplitAsWritten(d) == Err(IllegalArgument)
    ensures CamelSplit(d) == "a$-b"
  {
    var t := d[1..];
    assert |t| == 2 && t[0] == '$' && t[1] == 'B' && t[2..] == "";
    assert !CamelPair(d[0], d[1]) && CamelPair(t[0], t[1]);
    assert CamelSplitAsWritten(t) == Err(IllegalArgument);
    assert CamelSplit(t) == "$-b";
  }

  /** A '\' before a capital is dropped by the code as written, where the
      literal replacement keeps it. */
  lemma CamelSplitBackslashCounterexample(b: string)
    requires b == "a\\B"
    ensures CamelSplitAsWritten(b) == Ok("a-b")
    ensures CamelSplit(b) == "a\\-b"
  {
    var t := b[1..];
    assert |t| == 2 && t[0] == '\\' && t[1] == 'B' && t[2..] == "";
    assert !CamelPair(b[0], b[1]) && CamelPair(t[0], t[1]);
    var rest := CamelSplitAsWritten(t[2..]);
    assert rest == Ok("");
    assert ['-', ToLower(t[1])] + rest.value == "-b";
    assert CamelSplitAsWritten(t) == Ok("-b");
    assert [b[0]] + "-b" == "a-b";
    assert CamelSplit(t) == "\\-b";
  }
}
