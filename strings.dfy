/**
 * Character and string operations with the meaning that java.lang.String,
 * java.lang.Character and Spring's StringUtils give them. Upper and lower
 * case are those of the ASCII letters; Character.isWhitespace is modelled
 * in full.
 */
module Strings {

  datatype Option<+T> = None | Some(value: T)

  /** The exceptions the modelled code can raise or let through. */
  datatype Error =
    | IllegalArgument
    | IndexOutOfBounds
    | NullPointer
    | Capability(name: string)  // thrown by a Spring or file-system capability

  datatype Result<+T> = Ok(value: T) | Err(error: Error)

  /** Pass, or the exception that left the modelled method. */
  datatype Outcome = Pass | Fail(error: Error)

  /** A state after a step, with Pass or the exception that ended it; what
      was done before the exception stays done. */
  datatype Effect<T> = Effect(state: T, outcome: Outcome)

  /** `order` visits every element of `keys` exactly once: the iteration
      order of a hash map or hash set, which the model leaves open. */
  predicate Enumerates(order: seq<string>, keys: set<string>) {
    (forall i, j :: 0 <= i < j < |order| ==> order[i] != order[j])
    && (forall k :: k in keys ==> k in order)
    && (forall i :: 0 <= i < |order| ==> order[i] in keys)
  }

  lemma EnumeratesOnlyKeys(order: seq<string>, keys: set<string>, i: nat)
    requires Enumerates(order, keys) && i < |order|
    ensures order[i] in keys
  {
  }

  lemma EnumeratesNothing(order: seq<string>, keys: set<string>)
    requires Enumerates(order, keys) && keys == {}
    ensures order == []
  {
    if order != [] {
      EnumeratesOnlyKeys(order, keys, 0);
    }
  }

  // ---------------------------------------------------------------- characters

  predicate IsUpper(c: char) {
    'A' <= c <= 'Z'
  }

  function ToLower(c: char): (r: char)
    ensures !IsUpper(r)
  {
    if IsUpper(c) then (c as int + 32) as char else c
  }

  function LowerAll(s: string): (r: string)
    ensures |r| == |s|
    ensures forall i :: 0 <= i < |s| ==> r[i] == ToLower(s[i])
  {
    if s == [] then [] else [ToLower(s[0])] + LowerAll(s[1..])
  }

  predicate NoUpper(s: string) {
    forall i :: 0 <= i < |s| ==> !IsUpper(s[i])
  }

  /** String.regionMatches(true, ...) on one pair of characters. */
  predicate SameIgnoringCase(a: char, b: char) {
    ToLower(a) == ToLower(b)
  }

  /** Character.isWhitespace. */
  predicate IsWhitespace(c: char) {
    c == ' ' || '\t' <= c <= '\r' || '\U{1C}' <= c <= '\U{1F}'
    || c == '\U{1680}' || '\U{2000}' <= c <= '\U{2006}' || '\U{2008}' <= c <= '\U{200A}'
    || c == '\U{2028}' || c == '\U{2029}' || c == '\U{205F}' || c == '\U{3000}'
  }

  /** StringUtils.hasText: some character is not whitespace. */
  predicate HasText(s: string) {
    exists i :: 0 <= i < |s| && !IsWhitespace(s[i])
  }

  // ------------------------------------------------------------------ prefixes

  predicate StartsWith(s: string, p: string) {
    |p| <= |s| && s[..|p|] == p
  }

  /** StringUtils.startsWithIgnoreCase. */
  predicate StartsWithIgnoreCase(s: string, p: string) {
    |p| <= |s| && forall i :: 0 <= i < |p| ==> SameIgnoringCase(s[i], p[i])
  }

  /** String.equalsIgnoreCase. */
  predicate EqualsIgnoreCase(a: string, b: string) {
    |a| == |b| && StartsWithIgnoreCase(a, b)
  }

  /** s contains pat at index i. */
  predicate OccursAt(s: string, pat: string, i: int) {
    0 <= i && i + |pat| <= |s| && s[i..i + |pat|] == pat
  }

  predicate Contains(s: string, pat: string) {
    exists i :: 0 <= i <= |s| - |pat| && OccursAt(s, pat, i)
  }

  // ------------------------------------------------------------------ searching

  /** String.indexOf(char). */
  function IndexOf(s: string, c: char): (r: int)
    ensures -1 <= r < |s|
    ensures r >= 0 ==> s[r] == c && forall j :: 0 <= j < r ==> s[j] != c
    ensures r == -1 <==> forall j :: 0 <= j < |s| ==> s[j] != c
  {
    if s == [] then -1
    else if s[0] == c then 0
    else
      var k := IndexOf(s[1..], c);
      if k == -1 then -1 else k + 1
  }

  /** String.lastIndexOf(char). */
  function LastIndexOf(s: string, c: char): (r: int)
    ensures -1 <= r < |s|
    ensures r >= 0 ==> s[r] == c && forall j :: r < j < |s| ==> s[j] != c
    ensures r == -1 <==> forall j :: 0 <= j < |s| ==> s[j] != c
  {
    if s == [] then -1
    else if s[|s| - 1] == c then |s| - 1
    else LastIndexOf(s[..|s| - 1], c)
  }

  /** The first c in a + [c] + b, when a holds none, is the one between them. */
  lemma IndexOfSplit(a: string, c: char, b: string)
    requires c !in a
    ensures IndexOf(a + [c] + b, c) == |a|
  {
    var s := a + [c] + b;
    forall j | 0 <= j < |a| ensures s[j] != c {
      assert s[j] == a[j] && a[j] in a;
    }
    assert s[|a|] == c;
  }

  /** The last c in a + [c] + b, when b holds none, is the one between them. */
  lemma LastIndexOfSplit(a: string, c: char, b: string)
    requires c !in b
    ensures LastIndexOf(a + [c] + b, c) == |a|
  {
    var s := a + [c] + b;
    if b == [] {
      assert s[|s| - 1] == c;
    } else {
      assert s[|s| - 1] == b[|b| - 1];
      assert s[..|s| - 1] == a + [c] + b[..|b| - 1];
      LastIndexOfSplit(a, c, b[..|b| - 1]);
    }
  }

  // ------------------------------------------------------------------ rewriting

  /** String.replace(char, char). */
  function ReplaceChar(s: string, from: char, to: char): (r: string)
    ensures |r| == |s|
    ensures forall i :: 0 <= i < |s| ==> r[i] == if s[i] == from then to else s[i]
  {
    if s == [] then [] else [if s[0] == from then to else s[0]] + ReplaceChar(s[1..], from, to)
  }

  /** String.replace(target, ""): every occurrence, scanned left to right
      without overlap, is removed. */
  function RemoveAll(s: string, pat: string): string
    requires |pat| > 0
    decreases |s|
  {
    if |s| < |pat| then s
    else if s[..|pat|] == pat then RemoveAll(s[|pat|..], pat)
    else [s[0]] + RemoveAll(s[1..], pat)
  }

  /** Characters String.trim removes: those at or below U+0020. */
  predicate IsTrimmable(c: char) {
    c <= ' '
  }

  function TrimStart(s: string, drop: char -> bool): (r: string)
    ensures |r| <= |s|
    ensures r != [] ==> !drop(r[0])
  {
    if s != [] && drop(s[0]) then TrimStart(s[1..], drop) else s
  }

  function TrimEnd(s: string, drop: char -> bool): (r: string)
    ensures |r| <= |s|
    ensures r != [] ==> !drop(r[|r| - 1])
  {
    if s != [] && drop(s[|s| - 1]) then TrimEnd(s[..|s| - 1], drop) else s
  }

  /** String.trim. */
  function JavaTrim(s: string): string {
    TrimEnd(TrimStart(s, IsTrimmable), IsTrimmable)
  }

  /** StringUtils.trimWhitespace. */
  function TrimWhitespace(s: string): string {
    TrimEnd(TrimStart(s, IsWhitespace), IsWhitespace)
  }

  // ---------------------------------------------------------- splitting, joining

  /** Every piece between separators, empty pieces included. */
  function SplitAll(s: string, sep: char): (r: seq<string>)
    ensures |r| >= 1
    ensures forall i :: 0 <= i < |r| ==> sep !in r[i]
    decreases |s|
  {
    var k := IndexOf(s, sep);
    if k == -1 then [s] else [s[..k]] + SplitAll(s[k + 1..], sep)
  }

  function DropTrailingEmpty(pieces: seq<string>): (r: seq<string>)
    ensures |r| <= |pieces| && r == pieces[..|r|]
    ensures r != [] ==> r[|r| - 1] != ""
    ensures forall i :: |r| <= i < |pieces| ==> pieces[i] == ""
  {
    if pieces != [] && pieces[|pieces| - 1] == "" then DropTrailingEmpty(pieces[..|pieces| - 1])
    else pieces
  }

  /** String.split(sep) for a one-character separator: trailing empty
      pieces are dropped when the separator occurs at all. */
  function JavaSplit(s: string, sep: char): seq<string> {
    if sep in s then DropTrailingEmpty(SplitAll(s, sep)) else [s]
  }

  function Join(pieces: seq<string>, sep: char): string {
    if pieces == [] then ""
    else if |pieces| == 1 then pieces[0]
    else pieces[0] + [sep] + Join(pieces[1..], sep)
  }

  /** Splitting a piece without the separator off the front. */
  lemma SplitAllCons(x: string, sep: char, y: string)
    requires sep !in x
    ensures SplitAll(x + [sep] + y, sep) == [x] + SplitAll(y, sep)
  {
    var s := x + [sep] + y;
    assert s[|x|] == sep && forall j :: 0 <= j < |x| ==> s[j] == x[j];
    assert IndexOf(s, sep) == |x|;
    assert s[..|x|] == x && s[|x| + 1..] == y;
  }

  lemma SplitAround(s: string, k: nat)
    requires k < |s|
    ensures s == s[..k] + [s[k]] + s[k + 1..]
  {
  }

  lemma JoinCons(head: string, rest: seq<string>, sep: char)
    requires |rest| >= 1
    ensures Join([head] + rest, sep) == head + [sep] + Join(rest, sep)
  {
    assert ([head] + rest)[1..] == rest;
  }

  /** Splitting on a separator and joining the pieces back gives the input. */
  lemma {:induction false} JoinSplitAll(s: string, sep: char)
    ensures Join(SplitAll(s, sep), sep) == s
    decreases |s|
  {
    var k := IndexOf(s, sep);
    if k != -1 {
      var tail := s[k + 1..];
      JoinSplitAll(tail, sep);
      JoinCons(s[..k], SplitAll(tail, sep), sep);
      SplitAround(s, k);
    }
  }
}
