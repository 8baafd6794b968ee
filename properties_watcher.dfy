/**
 * DynamicConfigPropertiesWatcher: when spring.config.location is set, the
 * file-backed property sources of the environment are recorded under their
 * normalised paths, each with the modification time it was last loaded at
 * (0 at first). A changed file is reloaded when its modification time moved
 * or a reload is forced; the first loader for its extension parses it, the
 * environment's source of that name is replaced and one
 * ConfigurationFileChangedEvent is published. In ConfigMap mode a symbolic
 * link's modification time is polled and every file is force-reloaded when
 * it moves.
 *
 * The file system is a parameter: `mtime` gives a path's modification time
 * (or the IOException reading it), a walk is the list Files.walk yields.
 * The loaders are Spring capabilities: a list of extensions and a load
 * function that gives the parsed sources or an IOException.
 */
module PropertiesWatcher {
  import opened Strings
  import opened PropertySources
  import opened PathUtils

  /** SYMBOL_LINK_DIR: the file name of a ConfigMap's data link. */
  const SymbolLinkDir := "..data"

  /** FILE_COLON_SYMBOL. */
  const FileColonSymbol := "file:"

  /** PropertySourceMeta: the source as first recorded, its path, and the
      modification time it was last loaded at. */
  datatype PropertySourceMeta = PropertySourceMeta(propertySource: PropertySource, filePath: string, lastModifyTime: int)

  /** ConfigurationFileChangedEvent: the application-event source is the path. */
  datatype FileChangedEvent = FileChangedEvent(source: string, previous: Option<PropertySource>, current: PropertySource)

  /** A PropertySourceLoader: its file extensions and its load(name, resource). */
  datatype Loader = Loader(extensions: seq<string>, load: (string, string) -> Result<seq<PropertySource>>)

  /** One path of a directory walk. */
  datatype WalkEntry = WalkEntry(path: string, isDirectory: bool)

  /** What the watcher changes: the environment's sources, the recorded
      files, the symbolic link's last seen time, the published events. */
  datatype Watcher = Watcher(env: Sources, metas: map<string, PropertySourceMeta>, linkTime: int,
                             published: seq<FileChangedEvent>)

  // ------------------------------------------------------ file-source names

  /** The characters `.` does not match. */
  predicate IsLineTerminator(c: char) {
    c == '\n' || c == '\r' || c == '\U{85}' || c == '\U{2028}' || c == '\U{2029}'
  }

  /** The characters `\s` matches. */
  predicate IsRegexSpace(c: char) {
    c == ' ' || c == '\t' || c == '\n' || c == '\U{B}' || c == '\U{C}' || c == '\r'
  }

  /** Every character but the one at `except` is matched by `.`. */
  predicate DotsMatch(name: string, except: int) {
    forall k :: 0 <= k < |name| && k != except ==> !IsLineTerminator(name[k])
  }

  /** name.matches("^.*Config\\sresource.*file.*$"): the whole name is
      matched, `Config`, one space character, `resource`, later `file`. */
  predicate MatchesConfigResource(name: string) {
    exists i, j :: 0 <= i <= |name| && 0 <= j <= |name| && i + 15 <= j
      && OccursAt(name, "Config", i) && IsRegexSpace(name[i + 6]) && OccursAt(name, "resource", i + 7)
      && OccursAt(name, "file", j) && DotsMatch(name, i + 6)
  }

  /** name.matches("^.+Config:\\s\\[file:.*$"): at least one character,
      `Config:`, one space character, `[file:`. */
  predicate MatchesLegacyConfig(name: string) {
    exists i :: 1 <= i <= |name|
      && OccursAt(name, "Config:", i) && OccursAt(name, "[file:", i + 8) && IsRegexSpace(name[i + 7])
      && DotsMatch(name, i + 7)
  }

  predicate IsFileSource(name: string) {
    MatchesLegacyConfig(name) || MatchesConfigResource(name)
  }

  // ------------------------------------------------ normalizeAndRecordPropSource

  /** name.substring(name.indexOf("[") + 1, name.indexOf("]")): from after
      the first '[' (or the start) to the first ']'; the substring throws
      when there is no ']' or it comes before that start. */
  function BracketedPath(name: string): (r: Result<string>)
    ensures r.Ok? ==> ']' !in r.value
    ensures r.Err? <==> ']' !in name || IndexOf(name, ']') < IndexOf(name, '[')
    ensures r.Err? ==> r.error == IndexOutOfBounds
  {
    var beginIndex := IndexOf(name, '[') + 1;
    var endIndex := IndexOf(name, ']');
    if endIndex < beginIndex then Err(IndexOutOfBounds)
    else
      assert forall k :: beginIndex <= k < endIndex ==> name[k] == name[beginIndex..endIndex][k - beginIndex];
      Ok(name[beginIndex..endIndex])
  }

  /** Every "file:" is removed when there is one. */
  function StripFileColon(pathStr: string): string {
    if Contains(pathStr, FileColonSymbol) then RemoveAll(pathStr, FileColonSymbol) else pathStr
  }

  /** The key and the entry the source is recorded under, or the exception
      of the substring, the trimming (blank path) or Paths.get (NUL). */
  function RecordEntry(ps: PropertySource): Result<(string, PropertySourceMeta)> {
    match BracketedPath(ps.name)
    case Err(e) => Err(e)
    case Ok(raw) =>
      var pathStr := StripFileColon(raw);
      match TrimRelativePath(pathStr)
      case Err(e) => Err(e)
      case Ok(key) =>
        match UnixPathsGet(pathStr, "")
        case Err(e) => Err(e)
        case Ok(filePath) => Ok((key, PropertySourceMeta(ps, filePath, 0)))
  }

  /** normalizeAndRecordPropSource on the meta map. */
  function RecordPropSource(metas: map<string, PropertySourceMeta>, ps: PropertySource)
    : (r: Result<map<string, PropertySourceMeta>>)
    ensures r.Err? <==> RecordEntry(ps).Err?
    ensures r.Ok? ==> r.value.Keys == metas.Keys + {RecordEntry(ps).value.0}
  {
    var entry := RecordEntry(ps);
    if entry.Err? then Err(entry.error) else Ok(metas[entry.value.0 := entry.value.1])
  }

  /** A name "…[path]…" is recorded under the trimmed path, with every
      "file:" removed, at modification time 0; the other entries stay. */
  lemma RecordBracketed(metas: map<string, PropertySourceMeta>, ps: PropertySource, a: string, p: string, b: string)
    requires ps.name == a + "[" + p + "]" + b && '[' !in a && ']' !in a && ']' !in p
    requires HasText(StripFileColon(p)) && '\0' !in StripFileColon(p)
    ensures var key := TrimRelativePath(StripFileColon(p)).value;
      && RecordPropSource(metas, ps).Ok?
      && RecordPropSource(metas, ps).value.Keys == metas.Keys + {key}
      && RecordPropSource(metas, ps).value[key].lastModifyTime == 0
      && RecordPropSource(metas, ps).value[key].propertySource == ps
      && forall k :: k in metas && k != key ==> RecordPropSource(metas, ps).value[k] == metas[k]
  {
    BracketedPathOf(a, p, b);
  }

  /** The text between the first '[' and the first ']' comes back. */
  lemma BracketedPathOf(a: string, p: string, b: string)
    requires '[' !in a && ']' !in a && ']' !in p
    ensures BracketedPath(a + "[" + p + "]" + b) == Ok(p)
  {
    var name := a + "[" + p + "]" + b;
    assert name == a + ['['] + (p + "]" + b);
    IndexOfSplit(a, '[', p + "]" + b);
    assert name == (a + "[" + p) + [']'] + b;
    assert ']' !in a + "[" + p by {
      forall k | 0 <= k < |a + "[" + p| ensures (a + "[" + p)[k] != ']' {
        if k < |a| {
          assert (a + "[" + p)[k] == a[k] && a[k] in a;
        } else if k > |a| {
          assert (a + "[" + p)[k] == p[k - |a| - 1] && p[k - |a| - 1] in p;
        }
      }
    }
    IndexOfSplit(a + "[" + p, ']', b);
    assert name[|a| + 1..|a| + 1 + |p|] == p;
  }

  /** A name without ']' cannot be cut: the substring throws. */
  lemma BracketedPathMissing(name: string)
    requires ']' !in name
    ensures RecordEntry(PropertySource(name, map[])).Err?
    ensures BracketedPath(name) == Err(IndexOutOfBounds)
  {
  }

  /** The name ConfigTreeEnvironmentPostProcessor gives the sources it adds,
      "Config resource 'file [p]' via configTree", is a file source. */
  lemma ConfigTreeNameIsFileSource(name: string, a: string, p: string, b: string)
    requires a == "Config resource 'file " && b == "' via configTree" && name == a + "[" + p + "]" + b
    requires forall k :: 0 <= k < |p| ==> !IsLineTerminator(p[k])
    ensures IsFileSource(name)
  {
    var rest := "[" + p + "]" + b;
    assert name == a + rest;
    ConfigTreeWords();
    ConfigTreePlain();
    OccursInPrefix(a, rest, "Config", 0);
    OccursInPrefix(a, rest, "resource", 7);
    OccursInPrefix(a, rest, "file", 17);
    assert NoLineTerminator("[") && NoLineTerminator("]");
    NoLineTerminatorConcat("[", p);
    NoLineTerminatorConcat("[" + p, "]");
    NoLineTerminatorConcat("[" + p + "]", b);
    NoLineTerminatorConcat(a, rest);
    assert DotsMatch(name, 6);
  }

  /** Where the words of the pattern sit in the config-tree name's head. */
  lemma ConfigTreeWords()
    ensures OccursAt("Config resource 'file ", "Config", 0) && OccursAt("Config resource 'file ", "resource", 7)
    ensures OccursAt("Config resource 'file ", "file", 17) && "Config resource 'file "[6] == ' '
  {
  }

  /** The fixed parts of the config-tree name hold no line terminator. */
  lemma ConfigTreePlain()
    ensures NoLineTerminator("Config resource 'file ") && NoLineTerminator("' via configTree")
  {
  }

  /** No character of s is a line terminator. */
  predicate NoLineTerminator(s: string) {
    forall k :: 0 <= k < |s| ==> !IsLineTerminator(s[k])
  }

  lemma NoLineTerminatorConcat(x: string, y: string)
    requires NoLineTerminator(x) && NoLineTerminator(y)
    ensures NoLineTerminator(x + y)
  {
    forall k | 0 <= k < |x + y| ensures !IsLineTerminator((x + y)[k]) {
      if k >= |x| {
        assert (x + y)[k] == y[k - |x|];
      }
    }
  }

  /** What occurs in a prefix occurs in the whole, at the same place. */
  lemma OccursInPrefix(x: string, y: string, pat: string, i: int)
    requires OccursAt(x, pat, i)
    ensures OccursAt(x + y, pat, i)
  {
    assert (x + y)[i..i + |pat|] == x[i..i + |pat|];
  }

  /** Such a source is recorded under p trimmed, with "file:" removed. */
  lemma ConfigTreeSourceRecorded(metas: map<string, PropertySourceMeta>, ps: PropertySource, a: string, p: string, b: string)
    requires a == "Config resource 'file " && b == "' via configTree" && ps.name == a + "[" + p + "]" + b
    requires ']' !in p && forall k :: 0 <= k < |p| ==> !IsLineTerminator(p[k])
    requires HasText(StripFileColon(p)) && '\0' !in StripFileColon(p)
    ensures IsFileSource(ps.name)
    ensures var key := TrimRelativePath(StripFileColon(p)).value;
      && RecordPropSource(metas, ps).Ok?
      && RecordPropSource(metas, ps).value.Keys == metas.Keys + {key}
      && RecordPropSource(metas, ps).value[key].lastModifyTime == 0
  {
    ConfigTreeNameIsFileSource(ps.name, a, p, b);
    RecordBracketed(metas, ps, a, p, b);
  }

  /** The legacy ConfigFileApplicationListener name
      "applicationConfig: [file:p]" is a file source. */
  lemma LegacySourceIsFileSource(a: string, p: string)
    requires a == "applicationConfig: [file:"
    requires forall k :: 0 <= k < |p| ==> !IsLineTerminator(p[k])
    ensures IsFileSource(a + p + "]")
  {
    var name := a + p + "]";
    assert OccursAt(name, "Config:", 11) && name[18] == ' ' && OccursAt(name, "[file:", 19);
    assert DotsMatch(name, 18) by {
      forall k | 0 <= k < |name| ensures !IsLineTerminator(name[k]) {
        if |a| <= k < |a| + |p| {
          assert name[k] == p[k - |a|];
        }
      }
    }
  }

  /** Sources whose names hold no 'C', such as "systemProperties" and
      "systemEnvironment", are not file sources. */
  lemma WithoutConfigNotFileSource(name: string)
    requires 'C' !in name
    ensures !IsFileSource(name)
  {
    forall i | 0 <= i <= |name| && OccursAt(name, "Config", i) ensures false {
      OccursAtHead(name, "Config", i);
    }
    forall i | 1 <= i <= |name| && OccursAt(name, "Config:", i) ensures false {
      OccursAtHead(name, "Config:", i);
    }
  }

  lemma OccursAtHead(s: string, pat: string, i: int)
    requires |pat| > 0 && OccursAt(s, pat, i)
    ensures s[i] == pat[0] && s[i] in s
  {
    assert s[i] == s[i..i + |pat|][0];
  }

  // ----------------------------------------------------- watchConfigDirectory

  /** The loop of watchConfigDirectory over the environment's sources, in
      order: every file source is recorded; the first exception ends it. */
  function RecordAll(metas: map<string, PropertySourceMeta>, sources: seq<PropertySource>)
    : (r: Effect<map<string, PropertySourceMeta>>)
    ensures metas.Keys <= r.state.Keys
    decreases |sources|
  {
    if sources == [] then Effect(metas, Pass)
    else if !IsFileSource(sources[0].name) then RecordAll(metas, sources[1..])
    else
      match RecordPropSource(metas, sources[0])
      case Err(e) => Effect(metas, Fail(e))
      case Ok(m) => RecordAll(m, sources[1..])
  }

  /** ps is a file source that is recorded under the key k. */
  predicate RecordsAs(ps: PropertySource, k: string) {
    IsFileSource(ps.name) && RecordEntry(ps).Ok? && RecordEntry(ps).value.0 == k
  }

  /** Only file sources are recorded: every new key is the key of a file
      source of the environment. */
  lemma {:induction false} RecordAllOnlyFileSources(metas: map<string, PropertySourceMeta>, sources: seq<PropertySource>, k: string)
    requires k in RecordAll(metas, sources).state && k !in metas
    ensures exists i :: 0 <= i < |sources| && RecordsAs(sources[i], k)
    decreases |sources|
  {
    var ps := sources[0];
    var rest := sources[1..];
    if IsFileSource(ps.name) && k in RecordPropSource(metas, ps).value {
      assert RecordsAs(sources[0], k);
    } else {
      var next := if IsFileSource(ps.name) then RecordPropSource(metas, ps).value else metas;
      RecordAllOnlyFileSources(next, rest, k);
      RecordsAsInTail(sources, k);
    }
  }

  /** A source of sources[1..] recorded under k is a source of sources. */
  lemma RecordsAsInTail(sources: seq<PropertySource>, k: string)
    requires sources != [] && exists j :: 0 <= j < |sources[1..]| && RecordsAs(sources[1..][j], k)
    ensures exists i :: 0 <= i < |sources| && RecordsAs(sources[i], k)
  {
    var j :| 0 <= j < |sources[1..]| && RecordsAs(sources[1..][j], k);
    DropOneIndex(sources, j);
    assert RecordsAs(sources[j + 1], k);
  }

  /** Indexing the tail is indexing one further into the whole. */
  lemma DropOneIndex<T>(s: seq<T>, j: int)
    requires 0 <= j < |s| - 1
    ensures s[1..][j] == s[j + 1]
  {
  }

  /** The loop throws exactly when some file source cannot be recorded. */
  lemma {:induction false} RecordAllFails(metas: map<string, PropertySourceMeta>, sources: seq<PropertySource>)
    ensures RecordAll(metas, sources).outcome.Fail? <==>
      exists i :: 0 <= i < |sources| && IsFileSource(sources[i].name) && RecordEntry(sources[i]).Err?
    decreases |sources|
  {
    if sources != [] {
      var ps := sources[0];
      if !IsFileSource(ps.name) {
        RecordAllFails(metas, sources[1..]);
        RecordAllRestIndex(sources);
      } else if RecordEntry(ps).Ok? {
        RecordAllFails(RecordPropSource(metas, ps).value, sources[1..]);
        RecordAllRestIndex(sources);
      }
    }
  }

  /** When it does not throw, every file source is recorded. */
  lemma {:induction false} RecordAllRecordsEvery(metas: map<string, PropertySourceMeta>, sources: seq<PropertySource>)
    requires RecordAll(metas, sources).outcome.Pass?
    ensures forall i :: 0 <= i < |sources| && IsFileSource(sources[i].name) ==>
      RecordEntry(sources[i]).Ok? && RecordEntry(sources[i]).value.0 in RecordAll(metas, sources).state
    decreases |sources|
  {
    if sources != [] {
      var ps := sources[0];
      if !IsFileSource(ps.name) {
        RecordAllRecordsEvery(metas, sources[1..]);
        RecordAllRestIndex(sources);
      } else {
        var m := RecordPropSource(metas, ps).value;
        RecordAllRecordsEvery(m, sources[1..]);
        RecordAllRestIndex(sources);
        assert RecordEntry(ps).value.0 in m;
      }
    }
  }

  /** A statement about sources[1..] at i is one about sources at i + 1. */
  lemma RecordAllRestIndex(sources: seq<PropertySource>)
    requires sources != []
    ensures forall i :: 1 <= i < |sources| ==> sources[1..][i - 1] == sources[i]
    ensures forall i :: 0 <= i < |sources| - 1 ==> sources[1..][i] == sources[i + 1]
  {
  }

  /** An environment without file sources records nothing. */
  lemma {:induction false} RecordAllNoFileSources(metas: map<string, PropertySourceMeta>, sources: seq<PropertySource>)
    requires forall i :: 0 <= i < |sources| ==> !IsFileSource(sources[i].name)
    ensures RecordAll(metas, sources) == Effect(metas, Pass)
    decreases |sources|
  {
    if sources != [] {
      assert forall i :: 0 <= i < |sources[1..]| ==> sources[1..][i] == sources[i + 1];
      RecordAllNoFileSources(metas, sources[1..]);
    }
  }

  // -------------------------------------------------------- reloadChangedFile

  /** Path.getFileName of a Unix path string: null for the root. */
  function FileName(p: string): (r: Option<string>)
    ensures r.Some? ==> '/' !in r.value
  {
    if p == "/" then None else Some(p[LastIndexOf(p, '/') + 1..])
  }

  /** The file name of a child path is its last segment. */
  lemma FileNameOfChild(d: string, n: string)
    requires n != "" && '/' !in n
    ensures FileName(d + "/" + n) == Some(n)
  {
    LastIndexOfSplit(d, '/', n);
    assert d + "/" + n == d + ['/'] + n;
    assert (d + "/" + n)[|d| + 1..] == n;
  }

  /** The first loader that lists the extension; |loaders| when none does. */
  function FirstLoader(loaders: seq<Loader>, ext: string): (i: nat)
    ensures i <= |loaders|
    ensures i < |loaders| ==> ext in loaders[i].extensions
    ensures forall j :: 0 <= j < i ==> ext !in loaders[j].extensions
    decreases |loaders|
  {
    if loaders == [] then 0
    else if ext in loaders[0].extensions then 0
    else 1 + FirstLoader(loaders[1..], ext)
  }

  /** loadPropertiesAndPublishEvent: nothing when the loader yields no
      source; otherwise the event is built with the environment's current
      source of that name, the source is replaced (IllegalArgumentException
      when the environment has none), the time is recorded, and the event
      published. A load failure throws before anything changes. */
  function LoadAndPublish(w: Watcher, loader: Loader, path: string, modifyTime: int): Result<Watcher>
    requires path in w.metas
  {
    var meta := w.metas[path];
    var name := meta.propertySource.name;
    match loader.load(name, path)
    case Err(e) => Err(e)
    case Ok(list) =>
      if |list| < 1 then Ok(w)
      else
        var event := FileChangedEvent(path, GetSource(w.env, name), list[0]);
        match Replace(w.env, name, list[0])
        case Err(e) => Err(e)
        case Ok(env) => Ok(Watcher(env, w.metas[path := meta.(lastModifyTime := modifyTime)], w.linkTime, w.published + [event]))
  }

  /** doReloadConfigFile: the first loader for the file's extension loads
      it; with none, nothing happens. */
  function DoReload(w: Watcher, loaders: seq<Loader>, path: string, modifyTime: int): Result<Watcher>
    requires path in w.metas
  {
    var i := FirstLoader(loaders, FileExtension(path));
    if i == |loaders| then Ok(w) else LoadAndPublish(w, loaders[i], path, modifyTime)
  }

  /** The body of reloadChangedFile's try: an unknown file is ignored; a
      known one is reloaded when forced or when its time moved. Every
      exception in here is caught and leaves the state as it was. */
  function ReloadTracked(w: Watcher, loaders: seq<Loader>, mtime: string -> Result<int>, abs: string, p: string,
                         force: bool): Watcher
  {
    if abs !in w.metas then w
    else
      match mtime(p)
      case Err(_) => w
      case Ok(cur) =>
        if force || w.metas[abs].lastModifyTime != cur then
          match DoReload(w, loaders, abs, cur)
          case Err(_) => w
          case Ok(w') => w'
        else w
  }

  /** reloadChangedFile(rawPath, forceReload): the path is normalised under
      the config location and built with Paths.get before the try, so their
      exceptions (and the NullPointerException of the root's null file name)
      leave the method; the link directory itself is skipped. */
  function ReloadChanged(w: Watcher, configLocation: string, loaders: seq<Loader>, mtime: string -> Result<int>,
                         rawPath: string, force: bool): Effect<Watcher>
  {
    match NormalizePath(rawPath, configLocation)
    case Err(e) => Effect(w, Fail(e))
    case Ok(abs) =>
      match UnixPathsGet(abs, "")
      case Err(e) => Effect(w, Fail(e))
      case Ok(p) =>
        var name := FileName(p);
        if name.None? then Effect(w, Fail(NullPointer))
        else if name.value == SymbolLinkDir then Effect(w, Pass)
        else Effect(ReloadTracked(w, loaders, mtime, abs, p, force), Pass)
  }

  /** A loaded, non-empty file: the environment holds the new source in
      place of the old one, the event carries both, exactly one event is
      published, the file's time is the new one and nothing else changes;
      a missing source in the environment is an IllegalArgumentException. */
  lemma LoadAndPublishSpec(w: Watcher, loader: Loader, path: string, modifyTime: int)
    requires path in w.metas
    requires loader.load(w.metas[path].propertySource.name, path).Ok?
    requires |loader.load(w.metas[path].propertySource.name, path).value| >= 1
    ensures var name := w.metas[path].propertySource.name;
      var newProps := loader.load(name, path).value[0];
      var r := LoadAndPublish(w, loader, path, modifyTime);
      && (r.Err? <==> !HasSource(w.env, name))
      && (r.Err? ==> r.error == IllegalArgument)
      && (r.Ok? ==>
            && r.value.published == w.published + [FileChangedEvent(path, GetSource(w.env, name), newProps)]
            && w.published <= r.value.published
            && GetSource(w.env, name).Some?
            && r.value.env == Replace(w.env, name, newProps).value
            && (newProps.name == name ==> GetSource(r.value.env, name) == Some(newProps))
            && r.value.metas.Keys == w.metas.Keys
            && r.value.metas[path].lastModifyTime == modifyTime
            && (forall k :: k in w.metas && k != path ==> r.value.metas[k] == w.metas[k])
            && r.value.linkTime == w.linkTime)
  {
    var name := w.metas[path].propertySource.name;
    var newProps := loader.load(name, path).value[0];
    if HasSource(w.env, name) && newProps.name == name {
      ReplaceThenGet(w.env, name, newProps);
    }
  }

  /** A load that yields nothing changes nothing: no replacement, no event,
      no new time. */
  lemma LoadNothingChangesNothing(w: Watcher, loader: Loader, path: string, modifyTime: int)
    requires path in w.metas
    requires loader.load(w.metas[path].propertySource.name, path) == Ok([])
    ensures LoadAndPublish(w, loader, path, modifyTime) == Ok(w)
  {
  }

  /** Exactly the first loader for the extension is used, and with none the
      state, time included, stays. */
  lemma DoReloadUsesFirstLoader(w: Watcher, loaders: seq<Loader>, path: string, modifyTime: int, i: nat)
    requires path in w.metas && i < |loaders|
    requires FileExtension(path) in loaders[i].extensions
    requires forall j :: 0 <= j < i ==> FileExtension(path) !in loaders[j].extensions
    ensures DoReload(w, loaders, path, modifyTime) == LoadAndPublish(w, loaders[i], path, modifyTime)
  {
    var f := FirstLoader(loaders, FileExtension(path));
    if f < i {
      assert false;
    }
  }

  lemma DoReloadWithoutLoader(w: Watcher, loaders: seq<Loader>, path: string, modifyTime: int)
    requires path in w.metas
    requires forall j :: 0 <= j < |loaders| ==> FileExtension(path) !in loaders[j].extensions
    ensures DoReload(w, loaders, path, modifyTime) == Ok(w)
  {
  }

  /** The two cases the watcher skips: the link directory's own entry and a
      file that was never recorded. */
  lemma ReloadSkips(w: Watcher, configLocation: string, loaders: seq<Loader>, mtime: string -> Result<int>,
                    rawPath: string, force: bool)
    requires NormalizePath(rawPath, configLocation).Ok?
    requires UnixPathsGet(NormalizePath(rawPath, configLocation).value, "").Ok?
    requires var name := FileName(UnixPathsGet(NormalizePath(rawPath, configLocation).value, "").value);
      name == Some(SymbolLinkDir) || (name.Some? && NormalizePath(rawPath, configLocation).value !in w.metas)
    ensures ReloadChanged(w, configLocation, loaders, mtime, rawPath, force) == Effect(w, Pass)
  {
  }

  /** In particular, the `..data` entry of a ConfigMap mount, whatever the
      directory above it, is skipped: its last path segment is `..data`. */
  lemma ReloadSkipsLinkDir(w: Watcher, configLocation: string, loaders: seq<Loader>, mtime: string -> Result<int>,
                           rawPath: string, force: bool, d: string)
    requires NormalizePath(rawPath, configLocation).Ok?
    requires UnixPathsGet(NormalizePath(rawPath, configLocation).value, "") == Ok(d + "/" + SymbolLinkDir)
    ensures ReloadChanged(w, configLocation, loaders, mtime, rawPath, force) == Effect(w, Pass)
  {
    FileNameOfChild(d, SymbolLinkDir);
    var normalized := NormalizePath(rawPath, configLocation).value;
    assert FileName(UnixPathsGet(normalized, "").value) == Some(SymbolLinkDir);
    ReloadSkips(w, configLocation, loaders, mtime, rawPath, force);
  }

  /** A recorded file is reloaded only when forced or when its time moved:
      otherwise nothing changes; when it is, the state is that of the
      reload, or the old one when the reload threw. */
  lemma ReloadDecision(w: Watcher, loaders: seq<Loader>, mtime: string -> Result<int>, abs: string, p: string,
                       force: bool)
    requires abs in w.metas && mtime(p).Ok?
    ensures var cur := mtime(p).value;
      var r := ReloadTracked(w, loaders, mtime, abs, p, force);
      && (!force && w.metas[abs].lastModifyTime == cur ==> r == w)
      && (force || w.metas[abs].lastModifyTime != cur ==>
            r == if DoReload(w, loaders, abs, cur).Ok? then DoReload(w, loaders, abs, cur).value else w)
  {
  }

  /** Whatever happens, the recorded files stay the same set, only the
      changed file's entry can change, and its time moves only together
      with one published event; the link time stays. */
  lemma ReloadTrackedFrame(w: Watcher, loaders: seq<Loader>, mtime: string -> Result<int>, abs: string, p: string,
                           force: bool)
    ensures var r := ReloadTracked(w, loaders, mtime, abs, p, force);
      && r.metas.Keys == w.metas.Keys
      && (forall k :: k in w.metas && k != abs ==> r.metas[k] == w.metas[k])
      && r.linkTime == w.linkTime
      && w.published <= r.published
      && (r != w ==> |r.published| == |w.published| + 1 && abs in w.metas && mtime(p).Ok?
                     && r.metas[abs].lastModifyTime == mtime(p).value)
  {
    var r := ReloadTracked(w, loaders, mtime, abs, p, force);
    if abs in w.metas && mtime(p).Ok? {
      var cur := mtime(p).value;
      if force || w.metas[abs].lastModifyTime != cur {
        var i := FirstLoader(loaders, FileExtension(abs));
        if i < |loaders| {
          var loaded := loaders[i].load(w.metas[abs].propertySource.name, abs);
          if loaded.Ok? && |loaded.value| >= 1 {
            LoadAndPublishSpec(w, loaders[i], abs, cur);
          }
        }
      }
    }
  }

  /** After a reload that published, the same notification without force
      changes nothing: the recorded time now equals the file's. */
  lemma ReloadSettles(w: Watcher, configLocation: string, loaders: seq<Loader>, mtime: string -> Result<int>,
                      rawPath: string)
    requires |ReloadChanged(w, configLocation, loaders, mtime, rawPath, false).state.published| > |w.published|
    ensures var w1 := ReloadChanged(w, configLocation, loaders, mtime, rawPath, false).state;
      ReloadChanged(w1, configLocation, loaders, mtime, rawPath, false) == Effect(w1, Pass)
  {
    var abs := NormalizePath(rawPath, configLocation).value;
    var p := UnixPathsGet(abs, "").value;
    ReloadTrackedFrame(w, loaders, mtime, abs, p, false);
  }

  // ------------------------------------------------- the periodic reloads

  /** reloadAllConfigFiles(forceReload): every walked path that is not a
      directory, in walk order. An IOException of the walk is caught; an
      exception leaving reloadChangedFile is not, and ends the walk. */
  function ReloadEach(w: Watcher, configLocation: string, loaders: seq<Loader>, mtime: string -> Result<int>,
                      entries: seq<WalkEntry>, force: bool): Effect<Watcher>
    decreases |entries|
  {
    if entries == [] then Effect(w, Pass)
    else if entries[0].isDirectory then ReloadEach(w, configLocation, loaders, mtime, entries[1..], force)
    else
      var e := ReloadChanged(w, configLocation, loaders, mtime, entries[0].path, force);
      if e.outcome.Fail? then e else ReloadEach(e.state, configLocation, loaders, mtime, entries[1..], force)
  }

  function ReloadAll(w: Watcher, configLocation: string, loaders: seq<Loader>, mtime: string -> Result<int>,
                     walk: Result<seq<WalkEntry>>, force: bool): Effect<Watcher>
  {
    match walk
    case Err(_) => Effect(w, Pass)
    case Ok(entries) => ReloadEach(w, configLocation, loaders, mtime, entries, force)
  }

  /** checkSymbolicLink: when the link's time moved, every file is
      force-reloaded and then the new time recorded; an exception from the
      reloads (not an IOException) leaves the time as it was. */
  function CheckLink(w: Watcher, configLocation: string, loaders: seq<Loader>, mtime: string -> Result<int>,
                     linkTime: Result<int>, walk: Result<seq<WalkEntry>>): Effect<Watcher>
  {
    match linkTime
    case Err(_) => Effect(w, Pass)
    case Ok(tmp) =>
      if tmp == w.linkTime then Effect(w, Pass)
      else
        var e := ReloadAll(w, configLocation, loaders, mtime, walk, true);
        if e.outcome.Fail? then e else Effect(e.state.(linkTime := tmp), Pass)
  }

  /** One notification keeps the recorded files and the link time, and
      only adds events. */
  lemma ReloadChangedFrame(w: Watcher, configLocation: string, loaders: seq<Loader>, mtime: string -> Result<int>,
                           rawPath: string, force: bool)
    ensures var r := ReloadChanged(w, configLocation, loaders, mtime, rawPath, force).state;
      r.metas.Keys == w.metas.Keys && r.linkTime == w.linkTime && w.published <= r.published
  {
    var r := ReloadChanged(w, configLocation, loaders, mtime, rawPath, force).state;
    var abs := NormalizePath(rawPath, configLocation);
    if abs.Ok? && UnixPathsGet(abs.value, "").Ok? {
      var p := UnixPathsGet(abs.value, "").value;
      if FileName(p).Some? && FileName(p).value != SymbolLinkDir {
        ReloadTrackedFrame(w, loaders, mtime, abs.value, p, force);
        assert r == ReloadTracked(w, loaders, mtime, abs.value, p, force);
      } else {
        assert r == w;
      }
    } else {
      assert r == w;
    }
  }

  /** So do the reloads of a whole walk. */
  lemma {:induction false} ReloadEachFrame(w: Watcher, configLocation: string, loaders: seq<Loader>,
                                           mtime: string -> Result<int>, entries: seq<WalkEntry>, force: bool)
    ensures var r := ReloadEach(w, configLocation, loaders, mtime, entries, force).state;
      r.metas.Keys == w.metas.Keys && r.linkTime == w.linkTime && w.published <= r.published
    decreases |entries|
  {
    if entries != [] && !entries[0].isDirectory {
      var e := ReloadChanged(w, configLocation, loaders, mtime, entries[0].path, force);
      ReloadChangedFrame(w, configLocation, loaders, mtime, entries[0].path, force);
      if e.outcome.Pass? {
        ReloadEachFrame(e.state, configLocation, loaders, mtime, entries[1..], force);
      }
    } else if entries != [] {
      ReloadEachFrame(w, configLocation, loaders, mtime, entries[1..], force);
    }
  }

  /** The link check does nothing while the link's time stays; once it has
      run through, the time is the link's and a second check with the same
      time does nothing. */
  lemma CheckLinkSettles(w: Watcher, configLocation: string, loaders: seq<Loader>, mtime: string -> Result<int>,
                         tmp: int, walk: Result<seq<WalkEntry>>)
    ensures tmp == w.linkTime ==> CheckLink(w, configLocation, loaders, mtime, Ok(tmp), walk) == Effect(w, Pass)
    ensures var e := CheckLink(w, configLocation, loaders, mtime, Ok(tmp), walk);
      e.outcome.Pass? ==>
        && e.state.linkTime == tmp
        && CheckLink(e.state, configLocation, loaders, mtime, Ok(tmp), walk) == Effect(e.state, Pass)
  {
    if walk.Ok? {
      ReloadEachFrame(w, configLocation, loaders, mtime, walk.value, true);
    }
  }

  // --------------------------------------------------------------- the class

  class DynamicConfigPropertiesWatcher {
    var env: Sources
    /** PROPERTY_SOURCE_META_MAP. */
    var metas: map<string, PropertySourceMeta>
    var symbolicLinkModifiedTime: int
    /** The events handed to the publisher, in order. */
    var published: seq<FileChangedEvent>
    var configLocation: string
    const propertyLoaders: seq<Loader>

    function State(): Watcher
      reads this
    {
      Watcher(env, metas, symbolicLinkModifiedTime, published)
    }

    constructor(env: Sources, loaders: seq<Loader>, configLocation: string)
      ensures State() == Watcher(env, map[], 0, [])
      ensures this.configLocation == configLocation && propertyLoaders == loaders
    {
      this.env := env;
      this.metas := map[];
      this.symbolicLinkModifiedTime := 0;
      this.published := [];
      this.configLocation := configLocation;
      this.propertyLoaders := loaders;
    }

    /** watchConfigDirectory, up to starting the watch thread: nothing
        without a config location; otherwise every file source of the
        environment is recorded. */
    method WatchConfigDirectory() returns (r: Outcome)
      modifies this
      ensures !HasText(configLocation) ==> State() == old(State()) && r == Pass
      ensures HasText(configLocation) ==>
        && Effect(metas, r) == RecordAll(old(metas), old(env))
        && env == old(env) && symbolicLinkModifiedTime == old(symbolicLinkModifiedTime)
        && published == old(published)
      ensures configLocation == old(configLocation)
    {
      if !HasText(configLocation) {
        return Pass;
      }
      var sources := env;
      for i := 0 to |sources|
        invariant RecordAll(metas, sources[i..]) == RecordAll(old(metas), sources)
        invariant env == old(env) && symbolicLinkModifiedTime == old(symbolicLinkModifiedTime)
        invariant published == old(published) && configLocation == old(configLocation)
      {
        var ps := sources[i];
        assert sources[i..][1..] == sources[i + 1..];
        if IsFileSource(ps.name) {
          var outcome := NormalizeAndRecordPropSource(ps);
          if outcome.Fail? {
            return outcome;
          }
        }
      }
      r := Pass;
    }

    /** normalizeAndRecordPropSource. */
    method NormalizeAndRecordPropSource(ps: PropertySource) returns (r: Outcome)
      modifies this
      ensures RecordPropSource(old(metas), ps).Err? ==> r == Fail(RecordPropSource(old(metas), ps).error) && metas == old(metas)
      ensures RecordPropSource(old(metas), ps).Ok? ==> r == Pass && metas == RecordPropSource(old(metas), ps).value
      ensures env == old(env) && symbolicLinkModifiedTime == old(symbolicLinkModifiedTime)
      ensures published == old(published) && configLocation == old(configLocation)
    {
      var name := ps.name;
      var beginIndex := IndexOf(name, '[') + 1;
      var endIndex := IndexOf(name, ']');
      if endIndex < beginIndex {
        return Fail(IndexOutOfBounds);
      }
      var pathStr := name[beginIndex..endIndex];
      if Contains(pathStr, FileColonSymbol) {
        pathStr := RemoveAll(pathStr, FileColonSymbol);
      }
      var key := TrimRelativePath(pathStr);
      if key.Err? {
        return Fail(key.error);
      }
      var filePath := UnixPathsGet(pathStr, "");
      if filePath.Err? {
        return Fail(filePath.error);
      }
      metas := metas[key.value := PropertySourceMeta(ps, filePath.value, 0)];
      r := Pass;
    }

    /** reloadChangedFile. */
    method ReloadChangedFile(rawPath: string, forceReload: bool, mtime: string -> Result<int>) returns (r: Outcome)
      modifies this
      ensures Effect(State(), r) == ReloadChanged(old(State()), configLocation, propertyLoaders, mtime, rawPath, forceReload)
      ensures configLocation == old(configLocation)
    {
      var absPathStr := NormalizePath(rawPath, configLocation);
      if absPathStr.Err? {
        return Fail(absPathStr.error);
      }
      var path := UnixPathsGet(absPathStr.value, "");
      if path.Err? {
        return Fail(path.error);
      }
      var fileName := FileName(path.value);
      if fileName.None? {
        return Fail(NullPointer);
      }
      if fileName.value == SymbolLinkDir {
        return Pass;
      }
      ReloadIfModified(absPathStr.value, path.value, forceReload, mtime);
      r := Pass;
    }

    /** The try block of reloadChangedFile: an unknown file is ignored, a
        known one is reloaded when forced or when its time moved, and every
        exception is caught. */
    method ReloadIfModified(abs: string, p: string, forceReload: bool, mtime: string -> Result<int>)
      modifies this
      ensures State() == ReloadTracked(old(State()), propertyLoaders, mtime, abs, p, forceReload)
      ensures configLocation == old(configLocation)
    {
      if abs !in metas {
        return;
      }
      var currentModTs := mtime(p);
      if currentModTs.Err? {
        return;
      }
      var mdt := metas[abs].lastModifyTime;
      if forceReload || mdt != currentModTs.value {
        var _ := DoReloadConfigFile(abs, currentModTs.value);
      }
    }

    /** doReloadConfigFile. */
    method DoReloadConfigFile(path: string, modifyTime: int) returns (r: Outcome)
      requires path in metas
      modifies this
      ensures DoReload(old(State()), propertyLoaders, path, modifyTime).Ok? ==>
        r == Pass && State() == DoReload(old(State()), propertyLoaders, path, modifyTime).value
      ensures DoReload(old(State()), propertyLoaders, path, modifyTime).Err? ==>
        r == Fail(DoReload(old(State()), propertyLoaders, path, modifyTime).error) && State() == old(State())
      ensures configLocation == old(configLocation)
    {
      var extension := FileExtension(path);
      var i := 0;
      while i < |propertyLoaders|
        invariant i <= FirstLoader(propertyLoaders, extension)
        invariant forall j :: 0 <= j < i ==> extension !in propertyLoaders[j].extensions
      {
        if extension in propertyLoaders[i].extensions {
          r := LoadPropertiesAndPublishEvent(path, propertyLoaders[i], modifyTime);
          return;
        }
        i := i + 1;
      }
      r := Pass;
    }

    /** loadPropertiesAndPublishEvent. */
    method LoadPropertiesAndPublishEvent(path: string, loader: Loader, modifyTime: int) returns (r: Outcome)
      requires path in metas
      modifies this
      ensures LoadAndPublish(old(State()), loader, path, modifyTime).Ok? ==>
        r == Pass && State() == LoadAndPublish(old(State()), loader, path, modifyTime).value
      ensures LoadAndPublish(old(State()), loader, path, modifyTime).Err? ==>
        r == Fail(LoadAndPublish(old(State()), loader, path, modifyTime).error) && State() == old(State())
      ensures configLocation == old(configLocation)
    {
      var propertySourceMeta := metas[path];
      var propertySourceName := propertySourceMeta.propertySource.name;
      var newPropsList := loader.load(propertySourceName, path);
      if newPropsList.Err? {
        return Fail(newPropsList.error);
      }
      if |newPropsList.value| < 1 {
        return Pass;
      }
      var newProps := newPropsList.value[0];
      var event := FileChangedEvent(path, GetSource(env, propertySourceName), newProps);
      var replaced := Replace(env, propertySourceName, newProps);
      if replaced.Err? {
        return Fail(replaced.error);
      }
      env := replaced.value;
      metas := metas[path := propertySourceMeta.(lastModifyTime := modifyTime)];
      published := published + [event];
      r := Pass;
    }

    /** reloadAllConfigFiles(forceReload) over the walk's result. */
    method ReloadAllConfigFiles(forceReload: bool, walk: Result<seq<WalkEntry>>, mtime: string -> Result<int>)
      returns (r: Outcome)
      modifies this
      ensures Effect(State(), r) == ReloadAll(old(State()), configLocation, propertyLoaders, mtime, walk, forceReload)
      ensures configLocation == old(configLocation)
    {
      if walk.Err? {
        return Pass;
      }
      var entries := walk.value;
      for i := 0 to |entries|
        invariant ReloadEach(State(), configLocation, propertyLoaders, mtime, entries[i..], forceReload)
          == ReloadAll(old(State()), configLocation, propertyLoaders, mtime, walk, forceReload)
        invariant configLocation == old(configLocation)
      {
        assert entries[i..][1..] == entries[i + 1..];
        if !entries[i].isDirectory {
          var outcome := ReloadChangedFile(entries[i].path, forceReload, mtime);
          if outcome.Fail? {
            return outcome;
          }
        }
      }
      r := Pass;
    }

    /** checkSymbolicLink, with the link's time as read (or the IOException
        reading it). */
    method CheckSymbolicLink(linkTime: Result<int>, walk: Result<seq<WalkEntry>>, mtime: string -> Result<int>)
      returns (r: Outcome)
      modifies this
      ensures Effect(State(), r) == CheckLink(old(State()), configLocation, propertyLoaders, mtime, linkTime, walk)
    {
      if linkTime.Err? {
        return Pass;
      }
      var tmp := linkTime.value;
      r := Pass;
      if tmp != symbolicLinkModifiedTime {
        r := ReloadAllConfigFiles(true, walk, mtime);
        if r.Fail? {
          return;
        }
        symbolicLinkModifiedTime := tmp;
      }
    }
  }
}
