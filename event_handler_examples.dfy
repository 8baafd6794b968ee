/**
 * The event handler on the configuration-properties bean of the library's
 * own integration tests: prefix "my-prop", fields str, doubleVal, intVal,
 * boxedIntVal, mapVal, listVal, listObj and nested (itself holding mapVal
 * and collectionVal). The raw keys are those a YAML file with a top-level
 * `myProp` produces.
 */
module EventHandlerExamples {
  import opened Strings
  import opened KeyNormalization
  import opened PropertySources
  import opened PropertyDiff
  import opened EventHandler

  function Nested(nestedMap: map<string, Value>): Obj {
    Obj([Field("mapVal", false, false, MapValue(Some(nestedMap))),
         Field("collectionVal", false, false, ObjectValue(Some(Obj([]))))])
  }

  /** The test bean, with its top-level and nested maps. */
  function TestProps(mapVal: map<string, Value>, nestedMap: map<string, Value>): Obj {
    Obj([Field("str", false, false, SimpleValue(Some(Text("s")))),
         Field("doubleVal", false, false, SimpleValue(None)),
         Field("intVal", false, false, SimpleValue(Some(Integer(2)))),
         Field("boxedIntVal", false, false, SimpleValue(Some(Integer(3)))),
         Field("mapVal", false, false, MapValue(Some(mapVal))),
         Field("listVal", false, false, ObjectValue(Some(Obj([])))),
         Field("listObj", false, false, ObjectValue(Some(Obj([])))),
         Field("nested", false, false, ObjectValue(Some(Nested(nestedMap))))])
  }

  // ------------------------------------------------------ normalised keys

  lemma KebabMapVal(s: string)
    requires s == "mapVal"
    ensures KebabCase(s) == Some("map-val")
  {
    assert s == "map" + ['V'] + "al";
    ScanPlainWord("map");
    AppendWord("map", 'V', "al");
    assert "map" + "-" + "v" + "al" == "map-val";
    KebabCaseOfScan(s);
  }

  lemma KebabPlainWord(s: string)
    requires |s| > 0 && !IsWhitespace(s[0]) && s[0] != '-' && Plain(s)
    ensures KebabCase(s) == Some(s)
  {
    ScanPlainWord(s);
    KebabCaseOfScan(s);
  }

  /** The top-level key of the test file. */
  lemma ScanMyProp()
    ensures Scan("myProp", 6) == KebabState("my-prop", false)
  {
    ScanPlainWord("my");
    AppendWord("my", 'P', "rop");
    assert "my" + ['P'] + "rop" == "myProp";
  }

  /** A key of the test file below `myProp` with one camel-case hump:
      `myProp` + `word` + a capital + `rest`. */
  lemma ScanMyPropHump(word: string, c: char, rest: string)
    requires |word| > 0 && Plain(word) && word[|word| - 1] != '-' && IsUpper(c) && Plain(rest)
    ensures var s := "myProp" + word + [c] + rest;
      Scan(s, |s|).out == "my-prop" + word + "-" + [ToLower(c)] + rest
  {
    ScanMyProp();
    AppendPlain("myProp", word);
    assert ("my-prop" + word)[|"my-prop" + word| - 1] == word[|word| - 1];
    AppendWord("myProp" + word, c, rest);
  }

  lemma KebabIntVal(s: string)
    requires s == "myProp.intVal"
    ensures KebabCase(s) == Some("my-prop" + [DotSymbol] + "int-val")
  {
    assert s == "myProp" + ".int" + ['V'] + "al";
    ScanMyPropHump(".int", 'V', "al");
    assert "my-prop" + ".int" + "-" + "v" + "al" == "my-prop" + [DotSymbol] + "int-val";
    KebabCaseOfScan(s);
  }

  lemma KebabMapValK3(s: string)
    requires s == "myProp.map-val.k3"
    ensures KebabCase(s) == Some("my-prop" + [DotSymbol] + "map-val" + [DotSymbol] + "k3")
  {
    assert s == "myProp" + ".map-val.k3";
    ScanMyProp();
    AppendPlain("myProp", ".map-val.k3");
    assert "my-prop" + ".map-val.k3" == "my-prop" + [DotSymbol] + "map-val" + [DotSymbol] + "k3";
    KebabCaseOfScan(s);
  }

  lemma KebabNestedMapValM1(s: string)
    requires s == "myProp.nested.mapVal.m1"
    ensures KebabCase(s) == Some("my-prop" + [DotSymbol] + ("nested" + [DotSymbol] + "map-val") + [DotSymbol] + "m1")
  {
    assert s == "myProp" + ".nested.map" + ['V'] + "al.m1";
    ScanMyPropHump(".nested.map", 'V', "al.m1");
    assert "my-prop" + ".nested.map" + "-" + "v" + "al.m1" == "my-prop" + [DotSymbol] + ("nested" + [DotSymbol] + "map-val") + [DotSymbol] + "m1";
    KebabCaseOfScan(s);
  }

  lemma ScanBoxedInt(s: string)
    requires s == "myProp" + ".boxed" + ['I'] + "nt"
    ensures Scan(s, |s|) == KebabState("my-prop" + ".boxed" + "-" + "i" + "nt", false)
  {
    ScanMyProp();
    AppendPlain("myProp", ".boxed");
    AppendWord("myProp" + ".boxed", 'I', "nt");
  }

  lemma ScanBoxedIntVal(s: string)
    requires s == "myProp" + ".boxed" + ['I'] + "nt" + ['V'] + "al"
    ensures Scan(s, |s|).out == "my-prop" + ".boxed" + "-" + "i" + "nt" + "-" + "v" + "al"
  {
    var a := "myProp" + ".boxed" + ['I'] + "nt";
    ScanBoxedInt(a);
    assert ("my-prop" + ".boxed" + "-" + "i" + "nt")[16] == 't';
    AppendWord(a, 'V', "al");
  }

  lemma KebabBoxedIntVal(s: string)
    requires s == "myProp.boxedIntVal"
    ensures KebabCase(s) == Some("my-prop" + [DotSymbol] + "boxed-int-val")
  {
    assert s == "myProp" + ".boxed" + ['I'] + "nt" + ['V'] + "al";
    ScanBoxedIntVal(s);
    assert "my-prop" + ".boxed" + "-" + "i" + "nt" + "-" + "v" + "al" == "my-prop" + [DotSymbol] + "boxed-int-val";
    KebabCaseOfScan(s);
  }

  /** A key without '[' holds no index, and neither guard skips it. */
  lemma NotIndexed(rawKey: string)
    requires '[' !in rawKey
    ensures !IsIndexedKey(rawKey) && !IsIndexedKeyAsWritten(rawKey)
  {
    forall i | 0 <= i < |rawKey| ensures rawKey[i] != '[' {
      assert rawKey[i] in rawKey;
    }
  }

  /** One deleted key the guard lets through: the loop is one removal at
      its parent path. */
  lemma RemoveOneWith(rawKey: string, obj: Obj, prefix: string, path: string, skip: string -> bool)
    requires !skip(rawKey) && FindParentPath(Some(prefix), rawKey) == Ok(path)
    ensures RemoveMissingWith(map[rawKey := None], [rawKey], obj, Some(prefix), skip) == RemoveMapKey(obj, path, LeafKey(rawKey))
  {
    var diff: Diff := map[rawKey := None];
    var r := RemoveMapKey(obj, path, LeafKey(rawKey));
    assert [rawKey][1..] == [];
    assert RemoveMissingWith(diff, [], r.state, Some(prefix), skip) == Effect(r.state, Pass);
    assert RemoveMissingWith(diff, [rawKey], obj, Some(prefix), skip)
      == if r.outcome.Fail? then r else RemoveMissingWith(diff, [], r.state, Some(prefix), skip);
  }

  /** One deleted key the guard skips: nothing happens. */
  lemma SkipOneWith(rawKey: string, obj: Obj, prefix: string, skip: string -> bool)
    requires skip(rawKey)
    ensures RemoveMissingWith(map[rawKey := None], [rawKey], obj, Some(prefix), skip) == Effect(obj, Pass)
  {
    assert [rawKey][1..] == [];
  }

  lemma RemoveOne(rawKey: string, obj: Obj, prefix: string, path: string)
    requires !IsIndexedKeyAsWritten(rawKey) && FindParentPath(Some(prefix), rawKey) == Ok(path)
    ensures RemoveMissingAsWritten(map[rawKey := None], [rawKey], obj, Some(prefix)) == RemoveMapKey(obj, path, LeafKey(rawKey))
  {
    RemoveOneWith(rawKey, obj, prefix, path, IsIndexedKeyAsWritten);
  }

  // ------------------------------------------------------------ the walks

  lemma TestPropsFieldNames(m: map<string, Value>, n: map<string, Value>)
    ensures forall j :: 0 <= j < |TestProps(m, n).fields| ==> IsFieldName(TestProps(m, n).fields[j].name)
  {
    var fs := TestProps(m, n).fields;
    assert fs[0].name[0] == 's' && fs[1].name[0] == 'd' && fs[2].name[0] == 'i' && fs[3].name[0] == 'b';
    assert fs[4].name[0] == 'm' && fs[5].name[0] == 'l' && fs[6].name[0] == 'l' && fs[7].name[0] == 'n';
  }

  /** 'map-val' names the top-level map. */
  lemma RemoveTopLevelEntry(m: map<string, Value>, n: map<string, Value>, k: string)
    ensures RemoveMapKey(TestProps(m, n), "map-val", k) == Effect(TestProps(m - {k}, n), Pass)
  {
    var obj := TestProps(m, n);
    KebabMapVal("mapVal");
    LeafRemoval(obj, "map-val", k, 4);
    assert obj.fields[4 := obj.fields[4].(value := MapValue(Some(m - {k})))] == TestProps(m - {k}, n).fields;
  }

  /** Inside nested, 'map-val' names its map. */
  lemma RemoveInNested(n: map<string, Value>, k: string)
    ensures RemoveMapKey(Nested(n), "map-val", k) == Effect(Nested(n - {k}), Pass)
  {
    KebabMapVal("mapVal");
    LeafRemoval(Nested(n), "map-val", k, 0);
    assert Nested(n).fields[0 := Nested(n).fields[0].(value := MapValue(Some(n - {k})))] == Nested(n - {k}).fields;
  }

  /** None of the first seven names normalises to a key starting with 'n'. */
  lemma NoMatchBeforeNested(m: map<string, Value>, n: map<string, Value>, path: string)
    requires |path| > 0 && path[0] == 'n'
    ensures forall j :: 0 <= j < 7 ==> !MatchesPath(path, TestProps(m, n).fields[j].name)
  {
    TestPropsFieldNames(m, n);
    forall j | 0 <= j < 7 ensures !MatchesPath(path, TestProps(m, n).fields[j].name) {
      KebabCaseFirst(TestProps(m, n).fields[j].name);
    }
  }

  /** 'nested.map-val' walks past the first seven fields into nested. */
  lemma RemoveNestedEntry(m: map<string, Value>, n: map<string, Value>, path: string, k: string)
    requires path == "nested" + [DotSymbol] + "map-val"
    ensures RemoveMapKey(TestProps(m, n), path, k) == Effect(TestProps(m, n - {k}), Pass)
  {
    var obj := TestProps(m, n);
    NoMatchBeforeNested(m, n, path);
    KebabPlainWord("nested");
    assert path[..6] == "nested";
    IndexOfSplit("nested", DotSymbol, "map-val");
    assert path[7..] == "map-val";
    DescendInto(obj, path, k, 7);
    RemoveInNested(n, k);
    assert obj.fields[7 := obj.fields[7].(value := ObjectValue(Some(Nested(n - {k}))))] == TestProps(m, n - {k}).fields;
  }

  // ------------------------------------------------------- the tests' diffs

  /** intVal sits directly under the prefix: its deletion touches no map. */
  lemma IntValDeletion(obj: Obj)
    requires forall j :: 0 <= j < |obj.fields| ==> IsFieldName(obj.fields[j].name)
    ensures !IsIndexedKeyAsWritten("myProp.intVal")
    ensures FindParentPath(Some("my-prop"), "myProp.intVal") == Ok("")
    ensures RemoveMapKey(obj, "", LeafKey("myProp.intVal")) == Effect(obj, Pass)
  {
    NotIndexed("myProp.intVal");
    KebabIntVal("myProp.intVal");
    FindParentPathDirect("my-prop", "myProp.intVal", "my-prop", "int-val");
    EmptyPathUnchanged(obj, LeafKey("myProp.intVal"));
  }

  /** The deleted top-level entry k3 has the parent path 'map-val'. */
  lemma MapValK3Deletion()
    ensures !IsIndexedKeyAsWritten("myProp.map-val.k3")
    ensures FindParentPath(Some("my-prop"), "myProp.map-val.k3") == Ok("map-val")
    ensures LeafKey("myProp.map-val.k3") == "k3"
  {
    NotIndexed("myProp.map-val.k3");
    KebabMapValK3("myProp.map-val.k3");
    FindParentPathSplit("my-prop", "myProp.map-val.k3", "my-prop", "map-val", "k3");
    LeafKeySplit("myProp.map-val", "k3");
    assert "myProp.map-val" + [DotSymbol] + "k3" == "myProp.map-val.k3";
  }

  /** Deleting the top-level map entry k3 and the scalar intVal, and adding
      k4: k3 leaves the bean's map and intVal keeps its old value, 2. */
  lemma RemoveMapValueExample(m: map<string, Value>, n: map<string, Value>)
    ensures var diff: Diff := map["myProp.intVal" := None, "myProp.map-val.k3" := None, "myProp.map-val.k4" := Some(Text("v4"))];
      RemoveMissingAsWritten(diff, ["myProp.intVal", "myProp.map-val.k3", "myProp.map-val.k4"], TestProps(m, n), Some("my-prop"))
        == Effect(TestProps(m - {"k3"}, n), Pass)
  {
    var diff: Diff := map["myProp.intVal" := None, "myProp.map-val.k3" := None, "myProp.map-val.k4" := Some(Text("v4"))];
    var order := ["myProp.intVal", "myProp.map-val.k3", "myProp.map-val.k4"];
    var after := TestProps(m - {"k3"}, n);
    assert order[2..] == ["myProp.map-val.k4"] && order[2..][1..] == [];
    assert RemoveMissingWith(diff, [], after, Some("my-prop"), IsIndexedKeyAsWritten) == Effect(after, Pass);
    assert RemoveMissingAsWritten(diff, order[2..], after, Some("my-prop")) == Effect(after, Pass);
    MapValK3Deletion();
    RemoveTopLevelEntry(m, n, "k3");
    assert RemoveMissingAsWritten(diff, order[1..], TestProps(m, n), Some("my-prop")) == Effect(after, Pass);
    TestPropsFieldNames(m, n);
    IntValDeletion(TestProps(m, n));
  }

  /** The deleted key is the nested map's path, a dot and the entry name. */
  lemma NestedMapValM1Key()
    ensures "myProp.nested.mapVal" + [DotSymbol] + "m1" == "myProp.nested.mapVal.m1"
  {
  }

  /** Deleting the nested map entry m1 removes it from nested.mapVal. */
  lemma RemoveNestedMapValueExample(m: map<string, Value>, n: map<string, Value>)
    ensures RemoveMissingAsWritten(map["myProp.nested.mapVal.m1" := None], ["myProp.nested.mapVal.m1"], TestProps(m, n), Some("my-prop"))
      == Effect(TestProps(m, n - {"m1"}), Pass)
  {
    var key := "myProp.nested.mapVal.m1";
    NotIndexed(key);
    KebabNestedMapValM1(key);
    var path := "nested" + [DotSymbol] + "map-val";
    FindParentPathSplit("my-prop", key, "my-prop", path, "m1");
    LeafKeySplit("myProp.nested.mapVal", "m1");
    NestedMapValM1Key();
    RemoveOne(key, TestProps(m, n), "my-prop", path);
    RemoveNestedEntry(m, n, path, "m1");
  }

  /** Deleting boxedIntVal leaves the bean as it was: the value stays 3. */
  lemma RemoveBoxedValueExample(m: map<string, Value>, n: map<string, Value>)
    ensures RemoveMissingAsWritten(map["myProp.boxedIntVal" := None], ["myProp.boxedIntVal"], TestProps(m, n), Some("my-prop"))
      == Effect(TestProps(m, n), Pass)
  {
    var key := "myProp.boxedIntVal";
    NotIndexed(key);
    KebabBoxedIntVal(key);
    FindParentPathDirect("my-prop", key, "my-prop", "boxed-int-val");
    RemoveOne(key, TestProps(m, n), "my-prop", "");
    TestPropsFieldNames(m, n);
    EmptyPathUnchanged(TestProps(m, n), LeafKey(key));
  }

  // ------------------------------------------------- the indexed-key guard

  /** A bean with one map field m. */
  function MapHolder(entries: map<string, Value>): Obj {
    Obj([Field("m", false, false, MapValue(Some(entries)))])
  }

  /** 'a.m[0].x' normalises to itself, under the parent path 'm[0]'. */
  lemma IndexedKeyPath()
    ensures FindParentPath(Some("a"), "a.m[0].x") == Ok("m[0]")
    ensures LeafKey("a.m[0].x") == "x"
  {
    KebabPlainWord("a.m[0].x");
    assert "a.m[0].x" == "a" + [DotSymbol] + "m[0]" + [DotSymbol] + "x";
    FindParentPathSplit("a", "a.m[0].x", "a", "m[0]", "x");
    LeafKeySplit("a.m[0]", "x");
  }

  /** The path 'm[0]' names map m: its entry x goes. */
  lemma MapHolderRemoval(entries: map<string, Value>)
    ensures RemoveMapKey(MapHolder(entries), "m[0]", "x") == Effect(MapHolder(entries - {"x"}), Pass)
  {
    KebabPlainWord("m");
    LeafRemoval(MapHolder(entries), "m[0]", "x", 0);
    var f := MapHolder(entries).fields[0];
    assert MapHolder(entries).fields[0 := f.(value := MapValue(Some(entries - {"x"})))] == MapHolder(entries - {"x"}).fields;
  }

  /** As written, the guard lets 'a.m[0].x' through to the removal. */
  lemma IndexedKeyRemovedAsWritten(entries: map<string, Value>)
    ensures RemoveMissingAsWritten(map["a.m[0].x" := None], ["a.m[0].x"], MapHolder(entries), Some("a"))
      == Effect(MapHolder(entries - {"x"}), Pass)
  {
    assert !IsIndexedKeyAsWritten("a.m[0].x") by { assert "a.m[0].x"[0] != '['; }
    IndexedKeyPath();
    RemoveOneWith("a.m[0].x", MapHolder(entries), "a", "m[0]", IsIndexedKeyAsWritten);
    MapHolderRemoval(entries);
  }

  /** Deleting 'a.m[0].x' (an element of a list under m, in the key's own
      words) as written reaches the removal and drops the entry x of map m;
      with the guard the comment describes the key is left to the binder
      and m keeps x. */
  lemma IndexedKeyCounterexample(entries: map<string, Value>)
    ensures RemoveMissingAsWritten(map["a.m[0].x" := None], ["a.m[0].x"], MapHolder(entries), Some("a"))
      == Effect(MapHolder(entries - {"x"}), Pass)
    ensures RemoveMissing(map["a.m[0].x" := None], ["a.m[0].x"], MapHolder(entries), Some("a"))
      == Effect(MapHolder(entries), Pass)
  {
    IndexedKeyRemovedAsWritten(entries);
    assert IndexAt("a.m[0].x", 3, 1);
    SkipOneWith("a.m[0].x", MapHolder(entries), "a", IsIndexedKey);
  }
}
