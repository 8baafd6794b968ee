/**
 * The path helpers of ConfigurationUtils: relative-prefix and back-slash
 * normalisation, joining a path under an expected base directory, file
 * extensions, comma lists, the config-tree property prefix, prefixing a
 * loaded property source, and the property-file filter of the tree walk.
 * Paths are Unix paths: Paths.get is modelled as the Unix file system
 * builds and normalises a path string.
 */
module PathUtils {
  import opened Strings
  import opened KeyNormalization
  import opened PropertySources

  /** VALID_EXTENSION. */
  const ValidExtensions: set<string> := {"xml", "yml", "yaml", "properties"}

  // ------------------------------------------- trimRelativePathAndReplaceBackSlash

  function Slash(c: char): char {
    if c == '\\' then '/' else c
  }

  /** A leading "./" or ".\" is stripped only from strings longer than two. */
  predicate BeginsWithRelative(str: string) {
    |str| > 2 && (StartsWith(str, "./") || StartsWith(str, ".\\"))
  }

  /** ConfigurationUtils.trimRelativePathAndReplaceBackSlash. */
  function TrimRelativePath(str: string): (r: Result<string>)
    ensures r.Err? <==> !HasText(str)
    ensures r.Err? ==> r.error == IllegalArgument
    ensures r.Ok? ==> '\\' !in r.value
    ensures r.Ok? ==> |r.value| == |str| - (if BeginsWithRelative(str) then 2 else 0)
    ensures r.Ok? ==> forall i :: 0 <= i < |r.value| ==> r.value[i] == Slash(str[|str| - |r.value| + i])
  {
    if !HasText(str) then Err(IllegalArgument)
    else if BeginsWithRelative(str) then Ok(ReplaceChar(str[2..], '\\', '/'))
    else Ok(ReplaceChar(str, '\\', '/'))
  }

  /** Exactly the non-blank paths with no back-slash and no stripped
      relative prefix come back unchanged. */
  lemma TrimRelativePathFixedPoint(str: string)
    ensures TrimRelativePath(str) == Ok(str) <==>
      HasText(str) && '\\' !in str && !BeginsWithRelative(str)
  {
    var r := TrimRelativePath(str);
    if HasText(str) && '\\' !in str && !BeginsWithRelative(str) {
      assert r.value == str;
    }
    if r == Ok(str) {
      assert '\\' !in str;
    }
  }

  /** Stripping is applied once per call: "././a" needs two calls. */
  lemma TrimRelativePathNotIdempotent(s: string)
    requires s == "././a"
    ensures TrimRelativePath(s) == Ok("./a")
    ensures TrimRelativePath("./a") == Ok("a")
  {
    assert !IsWhitespace(s[0]);
    assert !IsWhitespace("./a"[0]);
    assert BeginsWithRelative(s) && s[..2] == "./";
    var r := TrimRelativePath(s).value;
    assert |r| == 3 && r[0] == '.' && r[1] == '/' && r[2] == 'a';
    assert r == "./a";
    assert BeginsWithRelative("./a") && "./a"[..2] == "./";
    var t := TrimRelativePath("./a").value;
    assert |t| == 1 && t[0] == 'a';
    assert t == "a";
  }

  // ---------------------------------------------------------------- Paths.get

  /** A '/' that follows a '/' is dropped: runs of slashes collapse to one. */
  function CollapseSlashes(s: string): (r: string)
    ensures |r| <= |s|
  {
    if |s| <= 1 then s
    else if s[|s| - 1] == '/' && s[|s| - 2] == '/' then CollapseSlashes(s[..|s| - 1])
    else CollapseSlashes(s[..|s| - 1]) + [s[|s| - 1]]
  }

  /** Paths.get(first, more).toString() on the Unix file system: the two
      names joined by '/', a NUL character rejected (InvalidPathException is
      an IllegalArgumentException), runs of '/' collapsed and a trailing '/'
      removed. */
  function UnixPathsGet(first: string, more: string): (r: Result<string>)
    ensures r.Err? <==> '\0' in first + more
  {
    var joined := if more == "" then first else if first == "" then more else first + "/" + more;
    if '\0' in joined then Err(IllegalArgument)
    else
      var c := CollapseSlashes(joined);
      Ok(if |c| > 1 && c[|c| - 1] == '/' then c[..|c| - 1] else c)
  }

  /** ConfigurationUtils.normalizePath. */
  function NormalizePath(path: string, expectedBaseDir: string): (r: Result<string>)
    ensures r.Ok? ==> HasText(path) && HasText(expectedBaseDir)
    ensures r.Ok? ==> '\\' !in r.value
    ensures TrimRelativePath(path).Ok? && TrimRelativePath(expectedBaseDir).Ok? &&
            StartsWith(TrimRelativePath(path).value, TrimRelativePath(expectedBaseDir).value)
            ==> r == TrimRelativePath(path)
  {
    match TrimRelativePath(path)
    case Err(e) => Err(e)
    case Ok(p) =>
      match TrimRelativePath(expectedBaseDir)
      case Err(e) => Err(e)
      case Ok(b) =>
        if !StartsWith(p, b) then
          match UnixPathsGet(b, p)
          case Err(e) => Err(e)
          case Ok(combined) => TrimRelativePath(combined)
        else Ok(p)
  }

  /** A base directory that the trimming leaves as it is and that Paths.get
      does not rewrite. */
  predicate CleanDir(b: string) {
    HasText(b) && '\\' !in b && '\0' !in b && !BeginsWithRelative(b) && b != "." && b[|b| - 1] != '/'
    && forall i :: 0 < i < |b| ==> !(b[i] == '/' && b[i - 1] == '/')
  }

  lemma {:induction false} CollapseClean(s: string)
    requires forall i :: 0 < i < |s| ==> !(s[i] == '/' && s[i - 1] == '/')
    ensures CollapseSlashes(s) == s
    decreases |s|
  {
    if |s| > 1 {
      var p := s[..|s| - 1];
      forall i | 0 < i < |p|
        ensures !(p[i] == '/' && p[i - 1] == '/')
      {
        assert p[i] == s[i] && p[i - 1] == s[i - 1];
      }
      CollapseClean(p);
      assert !(s[|s| - 1] == '/' && s[|s| - 2] == '/');
      assert CollapseSlashes(s) == CollapseSlashes(p) + [s[|s| - 1]];
      assert p + [s[|s| - 1]] == s;
    }
  }

  lemma {:induction false} CollapsePrefix(s: string, t: string)
    ensures |CollapseSlashes(s)| <= |CollapseSlashes(s + t)|
    ensures CollapseSlashes(s + t)[..|CollapseSlashes(s)|] == CollapseSlashes(s)
    decreases |t|
  {
    if t == [] {
      assert s + t == s;
    } else {
      var u := s + t[..|t| - 1];
      CollapsePrefix(s, t[..|t| - 1]);
      assert (s + t)[..|s + t| - 1] == u;
      if |s + t| > 1 {
        var cu := CollapseSlashes(u);
        var c := CollapseSlashes(s + t);
        assert c[..|cu|] == cu;
        assert c[..|CollapseSlashes(s)|] == cu[..|CollapseSlashes(s)|];
      }
    }
  }

  /** The character facts of TrimRelativePath, stated for one index. */
  lemma TrimmedChar(str: string, i: nat)
    requires TrimRelativePath(str).Ok? && i < |TrimRelativePath(str).value|
    ensures var r := TrimRelativePath(str).value;
      r[i] == Slash(str[|str| - |r| + i])
  {
  }

  /** Paths.get keeps a clean base directory as the start of the joined path. */
  lemma JoinUnderBase(base: string, p: string)
    requires CleanDir(base) && |p| > 0 && '\0' !in p
    ensures UnixPathsGet(base, p).Ok?
    ensures |UnixPathsGet(base, p).value| >= |base|
    ensures UnixPathsGet(base, p).value[..|base|] == base
  {
    var joined := base + "/" + p;
    assert '\0' !in joined;
    CollapseClean(base + "/");
    CollapsePrefix(base + "/", p);
    assert joined == (base + "/") + p;
    var c := CollapseSlashes(joined);
    assert c[..|base| + 1] == base + "/";
    assert c[..|base|] == base;
  }

  /** The relative head, character by character. */
  lemma BeginsWithRelativeChars(s: string)
    ensures BeginsWithRelative(s) <==> |s| > 2 && s[0] == '.' && (s[1] == '/' || s[1] == '\\')
  {
    if |s| > 2 {
      assert StartsWith(s, "./") <==> s[0] == '.' && s[1] == '/' by { assert s[..2] == [s[0], s[1]]; }
      assert StartsWith(s, ".\\") <==> s[0] == '.' && s[1] == '\\' by { assert s[..2] == [s[0], s[1]]; }
    }
  }

  /** Trimming a path that starts with a clean base directory keeps that start. */
  lemma TrimKeepsBase(combined: string, base: string)
    requires CleanDir(base) && |combined| >= |base| && combined[..|base|] == base
    ensures TrimRelativePath(combined).Ok?
    ensures StartsWith(TrimRelativePath(combined).value, base)
  {
    UnderBaseNotRelative(combined, base);
    TrimPlainPrefix(combined, |base|);
  }

  /** A path under a clean base directory has text and no relative head. */
  lemma UnderBaseNotRelative(combined: string, base: string)
    requires CleanDir(base) && |combined| >= |base| && combined[..|base|] == base
    ensures HasText(combined) && !BeginsWithRelative(combined)
  {
    var k :| 0 <= k < |base| && !IsWhitespace(base[k]);
    assert combined[k] == base[k];
    BeginsWithRelativeChars(combined);
    BeginsWithRelativeChars(base);
    if |base| >= 2 {
      assert combined[0] == base[0] && combined[1] == base[1];
      if |base| == 2 {
        assert base[1] == base[|base| - 1];
      }
    } else {
      assert combined[0] == base[0];
    }
  }

  /** Without a relative head, a backslash-free start of the text is kept
      as it is. */
  lemma TrimPlainPrefix(str: string, n: nat)
    requires HasText(str) && !BeginsWithRelative(str) && n <= |str| && '\\' !in str[..n]
    ensures TrimRelativePath(str).Ok? && StartsWith(TrimRelativePath(str).value, str[..n])
  {
    var r := TrimRelativePath(str).value;
    assert |r| == |str|;
    forall i | 0 <= i < n ensures r[i] == str[i] {
      TrimmedChar(str, i);
      assert str[..n][i] == str[i];
    }
    assert r[..n] == str[..n];
  }

  /** What the normalisation is for: a path already under a clean base
      directory comes back unchanged, and any other path is placed under
      it. */
  lemma NormalizePathUnderBase(path: string, base: string)
    requires CleanDir(base) && HasText(path) && '\0' !in path
    ensures NormalizePath(path, base).Ok?
    ensures StartsWith(NormalizePath(path, base).value, base)
  {
    TrimRelativePathFixedPoint(base);
    var p := TrimRelativePath(path).value;
    assert '\0' !in p by {
      forall i | 0 <= i < |p| ensures p[i] != '\0' {
        TrimmedChar(path, i);
      }
    }
    if !StartsWith(p, base) {
      JoinUnderBase(base, p);
      TrimKeepsBase(UnixPathsGet(base, p).value, base);
    }
  }

  // --------------------------------------------------------- getFileExtension

  /** ConfigurationUtils.getFileExtension: the text after the last '.',
      when that '.' is not the first character. */
  function FileExtension(path: string): (r: string)
    ensures '.' !in r
    ensures r != [] ==> |r| + 1 < |path| && path[|path| - |r| - 1] == '.' && path[|path| - |r|..] == r
  {
    var i := LastIndexOf(path, '.');
    if i > 0 then path[i + 1..] else ""
  }

  /** The other direction: a name, a '.', and an extension without '.' give
      back that extension. */
  lemma FileExtensionOfName(name: string, ext: string)
    requires |name| > 0 && '.' !in ext
    ensures FileExtension(name + "." + ext) == ext
  {
    var path := name + "." + ext;
    assert path[|name|] == '.';
    assert forall j :: |name| < j < |path| ==> path[j] == ext[j - |name| - 1];
    assert LastIndexOf(path, '.') == |name|;
  }

  /** A hidden file name with no other '.' has no extension. */
  lemma FileExtensionOfHiddenName(rest: string)
    requires '.' !in rest
    ensures FileExtension("." + rest) == ""
  {
    var path := "." + rest;
    assert forall j :: 0 < j < |path| ==> path[j] == rest[j - 1];
  }

  // --------------------------------------------------------- splitCommaAndFilter

  function TrimAll(pieces: seq<string>): (r: seq<string>)
    ensures |r| == |pieces|
    ensures forall i :: 0 <= i < |r| ==> r[i] == JavaTrim(pieces[i])
  {
    if pieces == [] then [] else [JavaTrim(pieces[0])] + TrimAll(pieces[1..])
  }

  function Filter(xs: seq<string>, keep: string -> bool): (r: seq<string>)
    ensures forall x :: x in r <==> x in xs && keep(x)
    ensures |r| <= |xs|
  {
    if xs == [] then []
    else if keep(xs[0]) then [xs[0]] + Filter(xs[1..], keep)
    else Filter(xs[1..], keep)
  }

  /** ConfigurationUtils.splitCommaAndFilter: blank text gives the empty
      list; otherwise the comma pieces, trimmed, that the predicate keeps,
      in order. */
  function SplitCommaAndFilter(str: string, keep: string -> bool): (r: seq<string>)
    ensures !HasText(str) ==> r == []
    ensures forall x :: x in r ==> keep(x)
  {
    if !HasText(str) then [] else Filter(TrimAll(JavaSplit(str, ',')), keep)
  }

  lemma {:induction false} TrimStartKeeps(s: string, drop: char -> bool, c: char)
    requires c !in s
    ensures c !in TrimStart(s, drop)
  {
    if s != [] && drop(s[0]) {
      TrimStartKeeps(s[1..], drop, c);
    }
  }

  lemma {:induction false} TrimEndKeeps(s: string, drop: char -> bool, c: char)
    requires c !in s
    ensures c !in TrimEnd(s, drop)
  {
    if s != [] && drop(s[|s| - 1]) {
      TrimEndKeeps(s[..|s| - 1], drop, c);
    }
  }

  /** An element of the result is exactly a trimmed comma piece that the
      predicate keeps; none holds a comma. */
  lemma SplitCommaAndFilterMembers(str: string, keep: string -> bool, x: string)
    requires HasText(str)
    ensures x in SplitCommaAndFilter(str, keep) <==>
      keep(x) && exists p :: p in JavaSplit(str, ',') && JavaTrim(p) == x
    ensures x in SplitCommaAndFilter(str, keep) ==> ',' !in x
  {
    var pieces := JavaSplit(str, ',');
    var trimmed := TrimAll(pieces);
    if x in trimmed {
      var i :| 0 <= i < |trimmed| && trimmed[i] == x;
      assert pieces[i] in pieces && JavaTrim(pieces[i]) == x;
      assert ',' !in pieces[i] by {
        if ',' in str {
          assert pieces[i] in SplitAll(str, ',');
        } else {
          assert pieces[i] == str;
        }
      }
      TrimStartKeeps(pieces[i], IsTrimmable, ',');
      TrimEndKeeps(TrimStart(pieces[i], IsTrimmable), IsTrimmable, ',');
    }
    if exists p :: p in pieces && JavaTrim(p) == x {
      var p :| p in pieces && JavaTrim(p) == x;
      var i :| 0 <= i < |pieces| && pieces[i] == p;
      assert trimmed[i] == x;
    }
  }

  // ------------------------------------------------------------ getPropertyPrefix

  /** ConfigurationUtils.getPropertyPrefix, given the names of the file's
      path relative to the config-tree root. A single name is returned as it
      is; otherwise the names are joined by '.', the last one without its
      extension (substring(0, -1) throws when it has no '.'), and the result
      is kebab-cased. */
  function PropertyPrefix(names: seq<string>): (r: Result<Option<string>>)
    requires |names| >= 1
    ensures |names| == 1 ==> r == Ok(Some(names[0]))
    ensures |names| > 1 ==> (r.Err? <==> '.' !in names[|names| - 1])
    ensures r.Err? ==> r.error == IndexOutOfBounds
    ensures |names| > 1 && r.Ok? ==> r.value.Some? && NoUpper(r.value.value)
  {
    if |names| == 1 then Ok(Some(names[0]))
    else
      var last := names[|names| - 1];
      var k := LastIndexOf(last, '.');
      if k < 0 then Err(IndexOutOfBounds)
      else
        var joined := Join(names[..|names| - 1] + [last[..k]], '.');
        JoinHasSeparator(names[..|names| - 1] + [last[..k]], '.');
        Ok(KebabCase(joined))
  }

  lemma {:induction false} JoinHasSeparator(pieces: seq<string>, sep: char)
    requires |pieces| >= 2
    ensures sep in Join(pieces, sep)
  {
    assert Join(pieces, sep)[|pieces[0]|] == sep;
  }

  /** Characters that toKebabCase copies unchanged. */
  predicate KebabNeutral(c: char) {
    !IsUpper(c) && c != '_'
  }

  /** A run of neutral characters is appended as it is and clears the
      "previous character was translated" flag. */
  lemma {:induction false} ScanNeutralRun(input: string, n: nat, m: nat)
    requires n < m <= |input|
    requires forall j :: n <= j < m ==> KebabNeutral(input[j]) && (j > 0 || input[j] != '-')
    ensures Scan(input, m) == KebabState(Scan(input, n).out + input[n..m], false)
  {
    if m - 1 > n {
      ScanNeutralRun(input, n, m - 1);
      assert input[n..m] == input[n..m - 1] + [input[m - 1]];
    }
  }

  /** A relative path whose names toKebabCase leaves unchanged gives the
      names joined by '.', the extension dropped. */
  lemma PropertyPrefixOfPlainNames(dirs: seq<string>, stem: string, ext: string)
    requires |dirs| >= 1 && '.' !in ext
    requires var j := Join(dirs + [stem], '.');
      j[0] != '-' && forall i :: 0 <= i < |j| ==> KebabNeutral(j[i])
    ensures PropertyPrefix(dirs + [stem + "." + ext]) == Ok(Some(Join(dirs + [stem], '.')))
  {
    var names := dirs + [stem + "." + ext];
    var last := stem + "." + ext;
    assert last[|stem|] == '.';
    assert forall j :: |stem| < j < |last| ==> last[j] == ext[j - |stem| - 1];
    assert LastIndexOf(last, '.') == |stem|;
    assert last[..|stem|] == stem;
    assert names[..|names| - 1] + [last[..|stem|]] == dirs + [stem];
    var j := Join(dirs + [stem], '.');
    JoinHasSeparator(dirs + [stem], '.');
    var w :| 0 <= w < |j| && j[w] == '.';
    assert !IsWhitespace(j[w]);
    ScanNeutralRun(j, 0, |j|);
    assert j[0..|j|] == j;
    assert Scan(j, |j|).out == j;
  }

  /** A directory name and a file name whose last '.' is at k. */
  lemma PropertyPrefixOfTwoNames(d: string, f: string, k: nat)
    requires k < |f| && f[k] == '.' && '.' !in f[k + 1..]
    ensures PropertyPrefix([d, f]) == Ok(KebabCase(d + "." + f[..k]))
  {
    assert forall j :: k < j < |f| ==> f[j] == f[k + 1..][j - k - 1];
    assert LastIndexOf(f, '.') == k;
    assert [d, f][..1] + [f[..k]] == [d, f[..k]];
    assert Join([d, f[..k]], '.') == d + "." + f[..k];
  }

  predicate AllNeutral(s: string) {
    forall i :: 0 <= i < |s| ==> KebabNeutral(s[i])
  }

  /** A lower-case word, a capital, and a lower-case tail: a '-' goes in
      before the capital, which is lower-cased. */
  lemma KebabCamelJoin(a: string, c: char, b: string)
    requires |a| > 0 && AllNeutral(a) && AllNeutral(b) && a[0] != '-' && a[|a| - 1] != '-'
    requires IsUpper(c)
    ensures KebabCase(a + [c] + b) == Some(a + "-" + [ToLower(c)] + b)
  {
    var input := a + [c] + b;
    assert forall i :: 0 <= i < |a| ==> input[i] == a[i];
    ScanNeutralRun(input, 0, |a|);
    assert input[..|a|] == a && input[|a|] == c;
    assert Scan(input, |a| + 1) == KebabState(a + "-" + [ToLower(c)], true);
    if |b| > 0 {
      assert forall i :: |a| < i < |input| ==> input[i] == b[i - |a| - 1];
      ScanNeutralRun(input, |a| + 1, |input|);
      assert input[|a| + 1..|input|] == b;
    } else {
      assert a + "-" + [ToLower(c)] + b == a + "-" + [ToLower(c)];
    }
    assert Scan(input, |input|).out == a + "-" + [ToLower(c)] + b;
    assert !IsWhitespace(input[|a|]);
  }

  /** A word, an '_' and a tail: the '_' becomes '-'. */
  lemma KebabSnakeJoin(a: string, b: string)
    requires |a| > 0 && AllNeutral(a) && AllNeutral(b) && a[0] != '-' && !IsWhitespace(a[0])
    ensures KebabCase(a + "_" + b) == Some(a + "-" + b)
  {
    var input := a + "_" + b;
    assert forall i :: 0 <= i < |a| ==> input[i] == a[i];
    ScanNeutralRun(input, 0, |a|);
    assert input[..|a|] == a && input[|a|] == '_';
    assert Scan(input, |a| + 1) == KebabState(a + "-", false);
    if |b| > 0 {
      assert forall i :: |a| < i < |input| ==> input[i] == b[i - |a| - 1];
      ScanNeutralRun(input, |a| + 1, |input|);
      assert input[|a| + 1..|input|] == b;
    } else {
      assert a + "-" + b == a + "-";
    }
    assert Scan(input, |input|).out == a + "-" + b;
    assert !IsWhitespace(input[0]);
  }

  /** The module directory "moduleB" with file "abc.yaml" gives "module-b.abc". */
  lemma PropertyPrefixCamelExample(d: string, f: string)
    requires d == "moduleB" && f == "abc.yaml"
    ensures PropertyPrefix([d, f]) == Ok(Some("module-b.abc"))
  {
    assert f[3] == '.' && f[4..] == "yaml" && f[..3] == "abc";
    PropertyPrefixOfTwoNames(d, f, 3);
    assert d + "." + f[..3] == "module" + ['B'] + ".abc";
    KebabCamelJoin("module", 'B', ".abc");
    assert "module" + "-" + [ToLower('B')] + ".abc" == "module-b.abc";
  }

  /** The module directory "module_a" with file "xyz.yaml" gives "module-a.xyz". */
  lemma PropertyPrefixSnakeExample(d: string, f: string)
    requires d == "module_a" && f == "xyz.yaml"
    ensures PropertyPrefix([d, f]) == Ok(Some("module-a.xyz"))
  {
    assert f[3] == '.' && f[4..] == "yaml" && f[..3] == "xyz";
    PropertyPrefixOfTwoNames(d, f, 3);
    assert d + "." + f[..3] == "module" + "_" + "a.xyz";
    KebabSnakeJoin("module", "a.xyz");
    assert "module" + "-" + "a.xyz" == "module-a.xyz";
  }

  // ---------------------------------------------------------- addConfigPropPrefix

  lemma PrefixedKeyInjective(prefix: string, k1: string, k2: string)
    requires prefix + "." + k1 == prefix + "." + k2
    ensures k1 == k2
  {
    assert k1 == (prefix + "." + k1)[|prefix| + 1..];
    assert k2 == (prefix + "." + k2)[|prefix| + 1..];
  }

  /** ConfigurationUtils.addConfigPropPrefix: every key k becomes
      prefix + "." + k with its value, under the same source name. */
  function AddConfigPropPrefix(prop: PropertySource, prefix: string): (r: PropertySource)
    ensures r.name == prop.name
    ensures forall k :: k in prop.source ==> prefix + "." + k in r.source && r.source[prefix + "." + k] == prop.source[k]
    ensures forall key :: key in r.source ==> exists k :: k in prop.source && key == prefix + "." + k
  {
    forall k1, k2 | k1 in prop.source && k2 in prop.source && prefix + "." + k1 == prefix + "." + k2
      ensures k1 == k2
    {
      PrefixedKeyInjective(prefix, k1, k2);
    }
    PropertySource(prop.name, map k | k in prop.source :: prefix + "." + k := prop.source[k])
  }

  /** Lookup through the prefix: a key is present exactly when it starts
      with the prefix and a '.', and what follows is a key of the source,
      whose value it carries. */
  lemma AddConfigPropPrefixLookup(prop: PropertySource, prefix: string, key: string)
    ensures var r := AddConfigPropPrefix(prop, prefix);
      key in r.source <==> StartsWith(key, prefix + ".") && key[|prefix| + 1..] in prop.source
    ensures var r := AddConfigPropPrefix(prop, prefix);
      key in r.source ==> r.source[key] == prop.source[key[|prefix| + 1..]]
  {
    var r := AddConfigPropPrefix(prop, prefix);
    if key in r.source {
      var k :| k in prop.source && key == prefix + "." + k;
      assert key[|prefix| + 1..] == k;
      assert key[..|prefix + "."|] == prefix + ".";
    }
    if StartsWith(key, prefix + ".") && key[|prefix| + 1..] in prop.source {
      var k := key[|prefix| + 1..];
      assert key == prefix + "." + k;
    }
  }

  // ------------------------------------------- isPropertyFile, hasHiddenPathElement

  /** A file-system path: absolute or relative, and its names. */
  datatype FilePath = FilePath(absolute: bool, names: seq<string>)

  /** Path.toString on the Unix file system. */
  function PathString(p: FilePath): string {
    (if p.absolute then "/" else "") + Join(p.names, '/')
  }

  /** Some name of the path starts with "..", as Kubernetes' "..data"
      and time-stamped directories of a mounted ConfigMap do. */
  predicate HasHiddenElement(p: FilePath) {
    exists i :: 0 <= i < |p.names| && StartsWith(p.names[i], "..")
  }

  /** ConfigurationUtils.hasHiddenPathElement. */
  method HasHiddenPathElement(p: FilePath) returns (r: bool)
    ensures r == HasHiddenElement(p)
  {
    for i := 0 to |p.names|
      invariant forall j :: 0 <= j < i ==> !StartsWith(p.names[j], "..")
    {
      if StartsWith(p.names[i], "..") {
        return true;
      }
    }
    return false;
  }

  /** ConfigurationUtils.isPropertyFile, the filter of the config-tree walk,
      with the file attributes as two flags. */
  predicate IsPropertyFile(p: FilePath, isRegularFile: bool, isSymbolicLink: bool) {
    !HasHiddenElement(p) && (isRegularFile || isSymbolicLink)
    && FileExtension(PathString(p)) in ValidExtensions
  }

  /** In a mounted ConfigMap the link "app.yaml" is a property file, and the
      same file under the "..data" directory is not. */
  lemma ConfigMapMountExample(link: FilePath, target: FilePath)
    requires link == FilePath(true, ["etc", "app.yaml"])
    requires target == FilePath(true, ["etc", "..data", "app.yaml"])
    ensures IsPropertyFile(link, false, true)
    ensures !IsPropertyFile(target, true, false)
  {
    var s := PathString(link);
    assert Join(link.names, '/') == "etc" + "/" + "app.yaml";
    assert s == "/etc/app" + "." + "yaml";
    FileExtensionOfName("/etc/app", "yaml");
    assert !HasHiddenElement(link) by {
      assert link.names[0][0] == 'e' && link.names[1][0] == 'a';
      assert !StartsWith(link.names[0], "..") && !StartsWith(link.names[1], "..");
    }
    assert StartsWith(target.names[1], "..");
  }
}
