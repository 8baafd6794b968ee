/**
 * Watch-target resolution: how a spring.config.location or
 * spring.config.import entry becomes a FileSystemWatchTarget (a directory
 * to watch, and for file imports the names to watch in it), and how
 * targets are merged into the directory-keyed WATCHABLE_TARGETS table.
 * Files.exists and the config-tree walk are parameters.
 */
module WatchTargets {
  import opened Strings
  import opened PathUtils

  const OptionalPrefix := "optional:"
  const ConfigTreePrefix := "configtree:"
  const ConfigFilePrefix := "file:"

  /** FileSystemWatchTarget.WatchTargetType. */
  datatype WatchTargetType = ConfigLocation | ConfigImportFile | ConfigImportTree

  // ------------------------------------------------------ the constructor's split

  /** The directory and filter list the constructor derives from a path. */
  datatype Resolved = Resolved(dir: string, filterFiles: Option<seq<string>>)

  function StripPrefix(s: string, prefix: string): (r: string)
    ensures StartsWith(s, prefix) ==> s == prefix + r
    ensures !StartsWith(s, prefix) ==> r == s
  {
    if StartsWith(s, prefix) then s[|prefix|..] else s
  }

  /** The path after a leading "file:" is dropped and it is trimmed. */
  function TargetPath(originalPath: string): Result<string> {
    TrimRelativePath(StripPrefix(originalPath, ConfigFilePrefix))
  }

  /** The FileSystemWatchTarget constructor: locations and config trees
      watch the normalised path itself; a file import watches the text
      before the last '/' for the name after it, and throws when there is
      no '/'. */
  function Resolve(t: WatchTargetType, originalPath: string): (r: Result<Resolved>)
    ensures TargetPath(originalPath).Err? ==> r.Err? && r.error == IllegalArgument
    ensures TargetPath(originalPath).Ok? && t == ConfigImportFile ==>
      (r.Err? <==> '/' !in TargetPath(originalPath).value)
    ensures r.Err? ==> r.error == IllegalArgument || r.error == IndexOutOfBounds
    ensures r.Ok? && t != ConfigImportFile ==> r.value == Resolved(TargetPath(originalPath).value, None)
    ensures r.Ok? && t == ConfigImportFile ==>
      var files := r.value.filterFiles;
      files.Some? && |files.value| == 1 && '/' !in files.value[0]
      && r.value.dir + "/" + files.value[0] == TargetPath(originalPath).value
  {
    match TargetPath(originalPath)
    case Err(e) => Err(e)
    case Ok(p) =>
      if t == ConfigImportFile then
        var idx := LastIndexOf(p, '/');
        if idx < 0 then Err(IndexOutOfBounds)
        else
          SplitAround(p, idx);
          Ok(Resolved(p[..idx], Some([p[idx + 1..]])))
      else Ok(Resolved(p, None))
  }

  /** The split of a file import is the only one with a '/'-free name. */
  lemma ResolveImportFileUnique(originalPath: string, dir: string, name: string)
    requires TargetPath(originalPath) == Ok(dir + "/" + name) && '/' !in name
    ensures Resolve(ConfigImportFile, originalPath) == Ok(Resolved(dir, Some([name])))
  {
    var p := dir + "/" + name;
    LastIndexOfSplit(dir, '/', name);
    assert p[..|dir|] == dir && p[|dir| + 1..] == name;
  }

  /** "./app.yaml" trims to a name with no '/'. */
  lemma RelativeNameHasNoSlash(p: string)
    requires p == "./app.yaml"
    ensures TrimRelativePath(p).Ok? && '/' !in TrimRelativePath(p).value
  {
    assert p[..2] == "./" && !IsWhitespace(p[0]);
    var r := TrimRelativePath(p).value;
    assert |r| == 8;
    forall i | 0 <= i < 8 ensures r[i] != '/' {
      TrimmedChar(p, i);
      assert p[2 + i] in "app.yaml";
    }
  }

  /** A file import given without a directory, such as "file:./app.yaml",
      makes the constructor throw. */
  lemma ImportFileWithoutDirectoryFails(s: string)
    requires s == "file:./app.yaml"
    ensures Resolve(ConfigImportFile, s) == Err(IndexOutOfBounds)
  {
    assert StartsWith(s, ConfigFilePrefix) && s[5..] == "./app.yaml";
    RelativeNameHasNoSlash(s[5..]);
  }

  // ------------------------------------------------------------ the table's view

  /** What a FileSystemWatchTarget holds. */
  datatype TargetView = TargetView(
    kind: WatchTargetType,
    normalizedDir: string,
    filterFiles: Option<seq<string>>,
    rootDir: Option<string>)

  type Table = map<string, TargetView>

  /** Every entry is filed under its own directory. */
  predicate TableKeyed(table: Table) {
    forall k :: k in table ==> table[k].normalizedDir == k
  }

  /** Every import target carries its filter list. */
  predicate ImportsHaveFilters(table: Table) {
    forall k :: k in table && table[k].kind != ConfigLocation ==> table[k].filterFiles.Some?
  }

  /** The file names handed to appendToWatchableTargets, each trimmed; the
      first blank name throws. */
  function TrimNames(names: seq<string>): (r: Result<seq<string>>)
    ensures r.Ok? <==> forall i :: 0 <= i < |names| ==> HasText(names[i])
    ensures r.Ok? ==> |r.value| == |names|
    ensures r.Ok? ==> forall i :: 0 <= i < |names| ==> r.value[i] == TrimRelativePath(names[i]).value
    ensures r.Err? ==> r.error == IllegalArgument
  {
    if names == [] then Ok([])
    else match TrimRelativePath(names[0])
      case Err(e) => Err(e)
      case Ok(n) =>
        match TrimNames(names[1..])
        case Err(e) =>
          Err(e)
        case Ok(ns) => Ok([n] + ns)
  }

  /** The target appendToWatchableTargets builds before it touches the
      table: the constructor's split, the root directory, and the trimmed
      file names when a list is given. Either step may throw. */
  function NewTarget(t: WatchTargetType, target: string,
                     filterNames: Option<seq<string>>, rootDir: Option<string>): (r: Result<TargetView>)
    ensures r.Ok? ==> (Resolve(t, target).Ok? && r.value.kind == t && r.value.rootDir == rootDir
      && r.value.normalizedDir == Resolve(t, target).value.dir)
    ensures r.Ok? && filterNames.Some? ==>
      TrimNames(filterNames.value).Ok? && r.value.filterFiles == Some(TrimNames(filterNames.value).value)
    ensures r.Ok? && filterNames.None? ==> r.value.filterFiles == Resolve(t, target).value.filterFiles
    ensures r.Ok? && (t == ConfigImportFile || filterNames.Some?) ==> r.value.filterFiles.Some?
  {
    match Resolve(t, target)
    case Err(e) => Err(e)
    case Ok(res) =>
      if filterNames.None? then Ok(TargetView(t, res.dir, res.filterFiles, rootDir))
      else match TrimNames(filterNames.value)
        case Err(e) => Err(e)
        case Ok(names) => Ok(TargetView(t, res.dir, Some(names), rootDir))
  }

  /** The table part of appendToWatchableTargets: an unknown directory is
      inserted, a known one of the same type gets the new names appended
      (addAll on a null list throws), and a known one of another type is
      left as it is. */
  function Merge(table: Table, tv: TargetView): Result<Table> {
    var dir := tv.normalizedDir;
    match MergedEntry(if dir in table then Some(table[dir]) else None, tv)
    case Err(e) => Err(e)
    case Ok(entry) => Ok(table[dir := entry])
  }

  /** The entry the merge leaves under the new target's directory. */
  function MergedEntry(existing: Option<TargetView>, tv: TargetView): Result<TargetView> {
    match existing
    case None => Ok(tv)
    case Some(e) =>
      if e.kind != tv.kind then Ok(e)
      else if e.filterFiles.None? || tv.filterFiles.None? then Err(NullPointer)
      else Ok(e.(filterFiles := Some(e.filterFiles.value + tv.filterFiles.value)))
  }

  /** ConfigurationUtils.appendToWatchableTargets. */
  function AppendSpec(table: Table, t: WatchTargetType, target: string,
                      filterNames: Option<seq<string>>, rootDir: Option<string>): Result<Table> {
    match NewTarget(t, target, filterNames, rootDir)
    case Err(e) => Err(e)
    case Ok(tv) => Merge(table, tv)
  }

  /** The three cases of the merge, and that no other entry changes. */
  lemma MergeCases(table: Table, tv: TargetView)
    requires Merge(table, tv).Ok?
    ensures var after, dir := Merge(table, tv).value, tv.normalizedDir;
      after.Keys == table.Keys + {dir}
      && (forall k :: k in table && k != dir ==> after[k] == table[k])
      && (dir !in table ==> after[dir] == tv)
      && (dir in table && table[dir].kind != tv.kind ==> after[dir] == table[dir])
      && (dir in table && table[dir].kind == tv.kind ==>
            after[dir] == table[dir].(filterFiles := Some(table[dir].filterFiles.value + tv.filterFiles.value)))
  {
  }

  /** Merging keeps every entry under its own directory, and keeps the
      filter lists of import targets in place. */
  lemma MergeKeepsTableShape(table: Table, tv: TargetView)
    requires TableKeyed(table) && Merge(table, tv).Ok?
    ensures TableKeyed(Merge(table, tv).value)
    ensures ImportsHaveFilters(table) && (tv.kind == ConfigLocation || tv.filterFiles.Some?) ==>
      ImportsHaveFilters(Merge(table, tv).value)
  {
  }

  /** In a table whose import targets carry their lists, appending a file
      import, or a config-tree group with its names, never hits the null
      list. */
  lemma AppendNoNullPointer(table: Table, t: WatchTargetType, target: string,
                            filterNames: Option<seq<string>>, rootDir: Option<string>)
    requires ImportsHaveFilters(table)
    requires t == ConfigImportFile || (t == ConfigImportTree && filterNames.Some?)
    ensures AppendSpec(table, t, target, filterNames, rootDir) != Err(NullPointer)
  {
    var nt := NewTarget(t, target, filterNames, rootDir);
    if nt.Ok? {
      var tv := nt.value;
      assert tv.filterFiles.Some?;
      var dir := tv.normalizedDir;
      if dir in table && table[dir].kind == tv.kind {
        assert table[dir].filterFiles.Some?;
      }
      assert MergedEntry(if dir in table then Some(table[dir]) else None, tv).Ok?;
    }
  }

  /** Merging targets of two different directories in either order gives
      the same table, so the order in which the config-tree groups come
      does not matter. */
  lemma MergeCommutes(table: Table, a: TargetView, b: TargetView)
    requires a.normalizedDir != b.normalizedDir
    requires Merge(table, a).Ok? && Merge(table, b).Ok?
    ensures Merge(Merge(table, a).value, b).Ok? && Merge(Merge(table, b).value, a).Ok?
    ensures Merge(Merge(table, a).value, b).value == Merge(Merge(table, b).value, a).value
  {
    var da, db := a.normalizedDir, b.normalizedDir;
    var ea := MergedEntry(if da in table then Some(table[da]) else None, a).value;
    var eb := MergedEntry(if db in table then Some(table[db]) else None, b).value;
    var ta, tb := table[da := ea], table[db := eb];
    assert (db in ta) == (db in table) && (db in table ==> ta[db] == table[db]);
    assert (da in tb) == (da in table) && (da in table ==> tb[da] == table[da]);
    assert Merge(ta, b) == Ok(ta[db := eb]);
    assert Merge(tb, a) == Ok(tb[da := ea]);
    assert ta[db := eb] == tb[da := ea];
  }

  // ----------------------------------------------------------- getNeedWatchDirAndPath

  /** The table after a run of the loops, and whether an exception left it. */
  datatype Run = Run(table: Table, outcome: Outcome)

  /** The location filter: non-blank entries not on the class path. */
  predicate IsFileLocation(s: string) {
    HasText(s) && !StartsWith(s, "classpath:")
  }

  /** The location loop: each entry is put, as a fresh location target,
      under its directory, replacing whatever was there. */
  function LocationsFrom(table: Table, locations: seq<string>): (r: Run)
    decreases |locations|
  {
    if locations == [] then Run(table, Pass)
    else match Resolve(ConfigLocation, locations[0])
      case Err(e) => Run(table, Fail(e))
      case Ok(res) =>
        LocationsFrom(table[res.dir := TargetView(ConfigLocation, res.dir, None, None)], locations[1..])
  }

  /** A directory of a config tree and the names of the property files
      found directly in it. */
  datatype TreeGroup = TreeGroup(parent: string, fileNames: seq<string>)

  /** The inner loop over the groups of one config tree. */
  function GroupsFrom(table: Table, groups: seq<TreeGroup>, root: string): (r: Run)
    decreases |groups|
  {
    if groups == [] then Run(table, Pass)
    else match AppendSpec(table, ConfigImportTree, groups[0].parent, Some(groups[0].fileNames), Some(root))
      case Err(e) => Run(table, Fail(e))
      case Ok(next) => GroupsFrom(next, groups[1..], root)
  }

  /** The import loop. exists stands for Files.exists; configTree for
      findAllPropertyFilesInTree grouped by parent directory. */
  function ImportsFrom(table: Table, imports: seq<string>,
                       fileExists: string -> bool, configTree: string -> seq<TreeGroup>): (r: Run)
    decreases |imports|
  {
    if imports == [] then Run(table, Pass)
    else
      var target := StripPrefix(imports[0], OptionalPrefix);
      if StartsWith(target, ConfigTreePrefix) then
        var dir := StripPrefix(target, ConfigTreePrefix);
        if !fileExists(dir) then ImportsFrom(table, imports[1..], fileExists, configTree)
        else
          var g := GroupsFrom(table, configTree(dir), dir);
          if g.outcome.Fail? then g else ImportsFrom(g.table, imports[1..], fileExists, configTree)
      else
        var file := StripPrefix(target, ConfigFilePrefix);
        if !fileExists(file) then ImportsFrom(table, imports[1..], fileExists, configTree)
        else match AppendSpec(table, ConfigImportFile, file, None, None)
          case Err(e) => Run(table, Fail(e))
          case Ok(next) => ImportsFrom(next, imports[1..], fileExists, configTree)
  }

  /** One pass of the import loop: the table after one import, with the
      exception it threw; a missing file or directory is skipped. */
  function ImportStep(table: Table, raw: string,
                      fileExists: string -> bool, configTree: string -> seq<TreeGroup>): Run
  {
    var target := StripPrefix(raw, OptionalPrefix);
    if StartsWith(target, ConfigTreePrefix) then
      var dir := StripPrefix(target, ConfigTreePrefix);
      if !fileExists(dir) then Run(table, Pass) else GroupsFrom(table, configTree(dir), dir)
    else
      var file := StripPrefix(target, ConfigFilePrefix);
      if !fileExists(file) then Run(table, Pass)
      else match AppendSpec(table, ConfigImportFile, file, None, None)
        case Err(e) => Run(table, Fail(e))
        case Ok(next) => Run(next, Pass)
  }

  /** The import loop is its first pass followed, unless that threw, by the
      rest of the loop. */
  lemma ImportsFromStep(table: Table, imports: seq<string>,
                        fileExists: string -> bool, configTree: string -> seq<TreeGroup>)
    requires imports != []
    ensures var s := ImportStep(table, imports[0], fileExists, configTree);
      ImportsFrom(table, imports, fileExists, configTree)
        == if s.outcome.Fail? then s else ImportsFrom(s.table, imports[1..], fileExists, configTree)
  {
  }

  /** ConfigurationUtils.getNeedWatchDirAndPath. */
  function NeedWatch(table: Table, configLocation: string, configImport: string,
                     fileExists: string -> bool, configTree: string -> seq<TreeGroup>): Run {
    var afterLocations :=
      if HasText(configLocation) then LocationsFrom(table, SplitCommaAndFilter(configLocation, IsFileLocation))
      else Run(table, Pass);
    if afterLocations.outcome.Fail? || !HasText(configImport) then afterLocations
    else ImportsFrom(afterLocations.table, SplitCommaAndFilter(configImport, HasText), fileExists, configTree)
  }

  /** Every location that the loop went through is watched as a location,
      with no filter list; entries already in the table are only ever
      replaced by location targets. */
  lemma {:induction false} LocationsWatched(table: Table, locations: seq<string>)
    requires LocationsFrom(table, locations).outcome == Pass
    ensures forall x :: x in locations ==> Resolve(ConfigLocation, x).Ok?
    ensures forall x :: x in locations ==>
      Resolve(ConfigLocation, x).Ok? &&
      var dir := Resolve(ConfigLocation, x).value.dir;
      dir in LocationsFrom(table, locations).table
      && LocationsFrom(table, locations).table[dir] == TargetView(ConfigLocation, dir, None, None)
    ensures table.Keys <= LocationsFrom(table, locations).table.Keys
    ensures forall k :: k in table && LocationsFrom(table, locations).table[k] != table[k] ==>
      LocationsFrom(table, locations).table[k] == TargetView(ConfigLocation, k, None, None)
    decreases |locations|
  {
    if locations != [] {
      var rest := locations[1..];
      var res := Resolve(ConfigLocation, locations[0]).value;
      var next := table[res.dir := TargetView(ConfigLocation, res.dir, None, None)];
      assert LocationsFrom(table, locations) == LocationsFrom(next, rest);
      LocationsWatched(next, rest);
      var final := LocationsFrom(next, rest).table;
      forall x | x in locations
        ensures Resolve(ConfigLocation, x).Ok?
        ensures var dir := Resolve(ConfigLocation, x).value.dir;
          dir in final && final[dir] == TargetView(ConfigLocation, dir, None, None)
      {
        if x !in rest {
          assert x == locations[0];
        }
      }
      forall k | k in table && final[k] != table[k]
        ensures final[k] == TargetView(ConfigLocation, k, None, None)
      {
        if k != res.dir {
          assert next[k] == table[k];
        }
      }
    }
  }

  lemma AppendKeepsKeys(table: Table, t: WatchTargetType, target: string,
                        filterNames: Option<seq<string>>, rootDir: Option<string>)
    requires AppendSpec(table, t, target, filterNames, rootDir).Ok?
    ensures table.Keys <= AppendSpec(table, t, target, filterNames, rootDir).value.Keys
  {
    MergeCases(table, NewTarget(t, target, filterNames, rootDir).value);
  }

  lemma {:induction false} GroupsKeepKeys(table: Table, groups: seq<TreeGroup>, root: string)
    ensures table.Keys <= GroupsFrom(table, groups, root).table.Keys
    decreases |groups|
  {
    if groups != [] {
      var g := groups[0];
      var step := AppendSpec(table, ConfigImportTree, g.parent, Some(g.fileNames), Some(root));
      if step.Ok? {
        AppendKeepsKeys(table, ConfigImportTree, g.parent, Some(g.fileNames), Some(root));
        GroupsKeepKeys(step.value, groups[1..], root);
      }
    }
  }

  lemma {:induction false} ImportsKeepKeys(table: Table, imports: seq<string>,
                                           fileExists: string -> bool, configTree: string -> seq<TreeGroup>)
    ensures table.Keys <= ImportsFrom(table, imports, fileExists, configTree).table.Keys
    decreases |imports|
  {
    if imports != [] {
      var target := StripPrefix(imports[0], OptionalPrefix);
      var rest := imports[1..];
      if StartsWith(target, ConfigTreePrefix) {
        var dir := StripPrefix(target, ConfigTreePrefix);
        if !fileExists(dir) {
          ImportsKeepKeys(table, rest, fileExists, configTree);
        } else {
          var g := GroupsFrom(table, configTree(dir), dir);
          GroupsKeepKeys(table, configTree(dir), dir);
          if g.outcome.Pass? {
            ImportsKeepKeys(g.table, rest, fileExists, configTree);
          }
        }
      } else {
        var file := StripPrefix(target, ConfigFilePrefix);
        if !fileExists(file) {
          ImportsKeepKeys(table, rest, fileExists, configTree);
        } else if AppendSpec(table, ConfigImportFile, file, None, None).Ok? {
          AppendKeepsKeys(table, ConfigImportFile, file, None, None);
          ImportsKeepKeys(AppendSpec(table, ConfigImportFile, file, None, None).value, rest, fileExists, configTree);
        }
      }
    }
  }

  lemma {:induction false} LocationsKeepKeys(table: Table, locations: seq<string>)
    ensures table.Keys <= LocationsFrom(table, locations).table.Keys
    decreases |locations|
  {
    if locations != [] && Resolve(ConfigLocation, locations[0]).Ok? {
      var res := Resolve(ConfigLocation, locations[0]).value;
      LocationsKeepKeys(table[res.dir := TargetView(ConfigLocation, res.dir, None, None)], locations[1..]);
    }
  }

  /** A watched directory stays watched, whatever the configuration and
      whether or not an exception cuts the run short; so once
      hasWatchableConf answers true it keeps answering true. */
  lemma NeedWatchKeepsKeys(table: Table, configLocation: string, configImport: string,
                           fileExists: string -> bool, configTree: string -> seq<TreeGroup>)
    ensures table.Keys <= NeedWatch(table, configLocation, configImport, fileExists, configTree).table.Keys
  {
    var afterLocations :=
      if HasText(configLocation) then LocationsFrom(table, SplitCommaAndFilter(configLocation, IsFileLocation))
      else Run(table, Pass);
    if HasText(configLocation) {
      LocationsKeepKeys(table, SplitCommaAndFilter(configLocation, IsFileLocation));
    }
    if HasText(configImport) {
      ImportsKeepKeys(afterLocations.table, SplitCommaAndFilter(configImport, HasText), fileExists, configTree);
    }
  }

  /** A location list made only of class-path entries watches nothing. */
  lemma ClassPathOnlyLocation(table: Table, configLocation: string, fileExists: string -> bool, configTree: string -> seq<TreeGroup>)
    requires forall p :: p in JavaSplit(configLocation, ',') ==> StartsWith(JavaTrim(p), "classpath:")
    ensures NeedWatch(table, configLocation, "", fileExists, configTree) == Run(table, Pass)
  {
    if HasText(configLocation) {
      var kept := SplitCommaAndFilter(configLocation, IsFileLocation);
      if kept != [] {
        SplitCommaAndFilterMembers(configLocation, IsFileLocation, kept[0]);
      }
    }
  }

  // ---------------------------------------------------------------- the classes

  /** FileSystemWatchTarget. */
  class FileSystemWatchTarget {
    var kind: WatchTargetType
    var normalizedDir: string
    var filterFiles: Option<seq<string>>
    var rootDir: Option<string>

    ghost function View(): TargetView
      reads this
    {
      TargetView(kind, normalizedDir, filterFiles, rootDir)
    }

    constructor Init(t: WatchTargetType, res: Resolved)
      ensures View() == TargetView(t, res.dir, res.filterFiles, None)
    {
      kind := t;
      normalizedDir := res.dir;
      filterFiles := res.filterFiles;
      rootDir := None;
    }

    /** The Java constructor, which throws where Resolve fails. */
    static method Create(t: WatchTargetType, originalPath: string) returns (r: Result<FileSystemWatchTarget>)
      ensures r.Err? ==> Resolve(t, originalPath) == Err(r.error)
      ensures r.Ok? ==> (Resolve(t, originalPath).Ok? && fresh(r.value)
        && r.value.View() == TargetView(t, Resolve(t, originalPath).value.dir,
                                        Resolve(t, originalPath).value.filterFiles, None))
    {
      var res := Resolve(t, originalPath);
      if res.Err? {
        return Err(res.error);
      }
      var target := new FileSystemWatchTarget.Init(t, res.value);
      return Ok(target);
    }

    /** The first half of appendToWatchableTargets: construct, set the root
        directory, and set the trimmed file names when a list is given. */
    static method Build(t: WatchTargetType, target: string,
                        filterNames: Option<seq<string>>, rootDir: Option<string>)
      returns (r: Result<FileSystemWatchTarget>)
      ensures r.Err? ==> NewTarget(t, target, filterNames, rootDir) == Err(r.error)
      ensures r.Ok? ==> (NewTarget(t, target, filterNames, rootDir).Ok? && fresh(r.value)
        && r.value.View() == NewTarget(t, target, filterNames, rootDir).value)
    {
      var created := Create(t, target);
      if created.Err? {
        return Err(created.error);
      }
      ghost var res := Resolve(t, target).value;
      var finalTarget := created.value;
      finalTarget.rootDir := rootDir;
      if filterNames.Some? {
        var names := TrimNames(filterNames.value);
        if names.Err? {
          return Err(names.error);
        }
        finalTarget.filterFiles := Some(names.value);
        assert NewTarget(t, target, filterNames, rootDir) == Ok(TargetView(t, res.dir, Some(names.value), rootDir));
      } else {
        assert NewTarget(t, target, filterNames, rootDir) == Ok(TargetView(t, res.dir, res.filterFiles, rootDir));
      }
      return Ok(finalTarget);
    }

    /** getFilterFiles().addAll(more): a null list on either side throws. */
    method AddFilterFiles(more: Option<seq<string>>) returns (r: Outcome)
      modifies this
      ensures old(filterFiles).None? || more.None? ==> r == Fail(NullPointer) && View() == old(View())
      ensures old(filterFiles).Some? && more.Some? ==>
        r == Pass && View() == old(View()).(filterFiles := Some(old(filterFiles).value + more.value))
    {
      if filterFiles.None? || more.None? {
        return Fail(NullPointer);
      }
      filterFiles := Some(filterFiles.value + more.value);
      return Pass;
    }
  }

  /** WATCHABLE_TARGETS: watch targets keyed by their directory. */
  class WatchableTargets {
    var targets: map<string, FileSystemWatchTarget>

    ghost predicate Valid()
      reads this, targets.Values
    {
      forall k :: k in targets ==> targets[k].normalizedDir == k
    }

    ghost function View(): Table
      reads this, targets.Values
    {
      map k | k in targets :: targets[k].View()
    }

    constructor()
      ensures Valid() && View() == map[]
    {
      targets := map[];
    }

    /** Distinct directories hold distinct objects. */
    lemma DistinctObjects()
      requires Valid()
      ensures forall k1, k2 :: k1 in targets && k2 in targets && k1 != k2 ==> targets[k1] != targets[k2]
    {
    }

    /** WATCHABLE_TARGETS.put(target.getNormalizedDir(), target). */
    method Put(target: FileSystemWatchTarget)
      requires Valid() && target !in targets.Values
      modifies this
      ensures Valid()
      ensures targets.Values <= old(targets.Values) + {target}
      ensures View() == old(View())[target.normalizedDir := target.View()]
    {
      targets := targets[target.normalizedDir := target];
    }

    /** The table half of appendToWatchableTargets, for a target built
        just before. */
    method MergeTarget(finalTarget: FileSystemWatchTarget) returns (r: Outcome)
      requires Valid() && finalTarget !in targets.Values
      modifies this, targets.Values
      ensures Valid()
      ensures targets.Values <= old(targets.Values) + {finalTarget}
      ensures Merge(old(View()), old(finalTarget.View())).Ok? ==>
        r == Pass && View() == Merge(old(View()), old(finalTarget.View())).value
      ensures Merge(old(View()), old(finalTarget.View())).Err? ==>
        r == Fail(Merge(old(View()), old(finalTarget.View())).error) && View() == old(View())
    {
      DistinctObjects();
      var dirKey := finalTarget.normalizedDir;
      if dirKey in targets {
        var existing := targets[dirKey];
        if existing.kind != finalTarget.kind {
          r := Pass;
        } else {
          r := existing.AddFilterFiles(finalTarget.filterFiles);
          assert forall k :: k in targets && k != dirKey ==> targets[k] != existing;
          assert View() == if r.Pass? then old(View())[dirKey := existing.View()] else old(View());
        }
      } else {
        Put(finalTarget);
        r := Pass;
      }
    }

    /** ConfigurationUtils.appendToWatchableTargets. */
    method AppendToWatchableTargets(t: WatchTargetType, target: string,
                                    filterNames: Option<seq<string>>, rootDir: Option<string>)
      returns (r: Outcome)
      requires Valid()
      modifies this, targets.Values
      ensures Valid()
      ensures fresh(targets.Values - old(targets.Values))
      ensures AppendSpec(old(View()), t, target, filterNames, rootDir).Ok? ==>
        r == Pass && View() == AppendSpec(old(View()), t, target, filterNames, rootDir).value
      ensures AppendSpec(old(View()), t, target, filterNames, rootDir).Err? ==>
        r == Fail(AppendSpec(old(View()), t, target, filterNames, rootDir).error) && View() == old(View())
    {
      ghost var before := View();
      var built := FileSystemWatchTarget.Build(t, target, filterNames, rootDir);
      if built.Err? {
        return Fail(built.error);
      }
      assert View() == before;
      assert AppendSpec(before, t, target, filterNames, rootDir) == Merge(before, built.value.View());
      r := MergeTarget(built.value);
    }

    /** The location loop of getNeedWatchDirAndPath. */
    method RecordLocations(locations: seq<string>) returns (r: Outcome)
      requires Valid()
      modifies this, targets.Values
      ensures Valid()
      ensures fresh(targets.Values - old(targets.Values))
      ensures Run(View(), r) == LocationsFrom(old(View()), locations)
    {
      ghost var initial := View();
      for i := 0 to |locations|
        invariant Valid()
        invariant fresh(targets.Values - old(targets.Values))
        invariant LocationsFrom(initial, locations) == LocationsFrom(View(), locations[i..])
      {
        assert locations[i..][1..] == locations[i + 1..];
        var created := FileSystemWatchTarget.Create(ConfigLocation, locations[i]);
        if created.Err? {
          return Fail(created.error);
        }
        Put(created.value);
      }
      return Pass;
    }

    /** The loop over the directory groups of one config tree. */
    method AppendTreeGroups(groups: seq<TreeGroup>, root: string) returns (r: Outcome)
      requires Valid()
      modifies this, targets.Values
      ensures Valid()
      ensures fresh(targets.Values - old(targets.Values))
      ensures Run(View(), r) == GroupsFrom(old(View()), groups, root)
    {
      for j := 0 to |groups|
        invariant Valid()
        invariant fresh(targets.Values - old(targets.Values))
        invariant GroupsFrom(old(View()), groups, root) == GroupsFrom(View(), groups[j..], root)
      {
        assert groups[j..][1..] == groups[j + 1..];
        var o := AppendToWatchableTargets(ConfigImportTree, groups[j].parent, Some(groups[j].fileNames), Some(root));
        if o.Fail? {
          return o;
        }
      }
      return Pass;
    }

    /** The import loop of getNeedWatchDirAndPath. */
    method RecordImports(imports: seq<string>, fileExists: string -> bool, configTree: string -> seq<TreeGroup>)
      returns (r: Outcome)
      requires Valid()
      modifies this, targets.Values
      ensures Valid()
      ensures fresh(targets.Values - old(targets.Values))
      ensures Run(View(), r) == ImportsFrom(old(View()), imports, fileExists, configTree)
    {
      for i := 0 to |imports|
        invariant Valid()
        invariant fresh(targets.Values - old(targets.Values))
        invariant ImportsFrom(old(View()), imports, fileExists, configTree)
               == ImportsFrom(View(), imports[i..], fileExists, configTree)
      {
        assert imports[i..][1..] == imports[i + 1..];
        ImportsFromStep(View(), imports[i..], fileExists, configTree);
        var o := RecordImport(imports[i], fileExists, configTree);
        if o.Fail? {
          return o;
        }
      }
      return Pass;
    }

    /** The body of the import loop: the optional: and configtree: prefixes,
        the existence check, and the tree groups or the single file. */
    method RecordImport(raw: string, fileExists: string -> bool, configTree: string -> seq<TreeGroup>)
      returns (r: Outcome)
      requires Valid()
      modifies this, targets.Values
      ensures Valid()
      ensures fresh(targets.Values - old(targets.Values))
      ensures Run(View(), r) == ImportStep(old(View()), raw, fileExists, configTree)
    {
      var target := raw;
      if StartsWith(target, OptionalPrefix) {
        target := target[|OptionalPrefix|..];
      }
      if StartsWith(target, ConfigTreePrefix) {
        target := target[|ConfigTreePrefix|..];
        if !fileExists(target) {
          return Pass;
        }
        r := AppendTreeGroups(configTree(target), target);
      } else {
        target := StripPrefix(target, ConfigFilePrefix);
        if !fileExists(target) {
          return Pass;
        }
        r := AppendToWatchableTargets(ConfigImportFile, target, None, None);
      }
    }

    /** ConfigurationUtils.getNeedWatchDirAndPath. */
    method GetNeedWatchDirAndPath(configLocation: string, configImport: string,
                                  fileExists: string -> bool, configTree: string -> seq<TreeGroup>)
      returns (r: Outcome)
      requires Valid()
      modifies this, targets.Values
      ensures Valid()
      ensures fresh(targets.Values - old(targets.Values))
      ensures Run(View(), r) == NeedWatch(old(View()), configLocation, configImport, fileExists, configTree)
    {
      r := Pass;
      if HasText(configLocation) {
        r := RecordLocations(SplitCommaAndFilter(configLocation, IsFileLocation));
        if r.Fail? {
          return;
        }
      }
      if HasText(configImport) {
        r := RecordImports(SplitCommaAndFilter(configImport, HasText), fileExists, configTree);
      }
    }

    /** ConfigurationUtils.hasWatchableConf: a non-empty table answers at
        once; otherwise the table is filled and asked again. */
    method HasWatchableConf(configLocation: string, configImport: string,
                            fileExists: string -> bool, configTree: string -> seq<TreeGroup>)
      returns (r: Result<bool>)
      requires Valid()
      modifies this, targets.Values
      ensures Valid()
      ensures old(|View()|) > 0 ==> r == Ok(true) && View() == old(View())
      ensures old(|View()|) == 0 ==>
        var run := NeedWatch(old(View()), configLocation, configImport, fileExists, configTree);
        View() == run.table
        && r == if run.outcome.Fail? then Err(run.outcome.error) else Ok(|run.table| > 0)
    {
      assert View().Keys == targets.Keys;
      if |targets| > 0 {
        return Ok(true);
      }
      var o := GetNeedWatchDirAndPath(configLocation, configImport, fileExists, configTree);
      if o.Fail? {
        return Err(o.error);
      }
      assert View().Keys == targets.Keys;
      return Ok(|targets| > 0);
    }
  }
}
