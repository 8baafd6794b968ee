/**
 * FeatureGate: a comma list in a property turns into the set of entities a
 * feature is enabled for, with "all" enabling it for everyone, and a
 * boolean property switches a feature on. The Spring Environment is a
 * lookup function from property name to value.
 */
module FeatureGate {
  import opened Strings

  /** FEATURE_ENABLE_FOR_ALL. */
  const EnableForAll := "all"

  /** A string with no whitespace at either end, as trimWhitespace leaves it. */
  predicate IsTrimmed(x: string) {
    x != [] ==> !IsWhitespace(x[0]) && !IsWhitespace(x[|x| - 1])
  }

  /** FeatureGate.convert: the comma pieces, whitespace-trimmed, without the
      blank ones; duplicates collapse. */
  function Convert(val: string): (r: set<string>)
    ensures !HasText(val) ==> r == {}
    ensures forall x :: x in r ==> HasText(x) && IsTrimmed(x) && ',' !in x
    ensures HasText(val) ==> forall x :: x in r <==>
      HasText(x) && exists p :: p in JavaSplit(val, ',') && TrimWhitespace(p) == x
  {
    if !HasText(val) then {}
    else
      var pieces := JavaSplit(val, ',');
      forall p | p in pieces
        ensures ',' !in TrimWhitespace(p) && IsTrimmed(TrimWhitespace(p))
      {
        PieceHasNoComma(val, p);
        TrimKeepsOut(p, ',');
        TrimWhitespaceTrimmed(p);
      }
      set p | p in pieces && HasText(TrimWhitespace(p)) :: TrimWhitespace(p)
  }

  lemma PieceHasNoComma(val: string, p: string)
    requires p in JavaSplit(val, ',')
    ensures ',' !in p
  {
    if ',' in val {
      var all := SplitAll(val, ',');
      var kept := DropTrailingEmpty(all);
      var i :| 0 <= i < |kept| && kept[i] == p;
      assert all[i] == p;
    }
  }

  lemma {:induction false} TrimStartKeepsOut(s: string, c: char)
    requires c !in s
    ensures c !in TrimStart(s, IsWhitespace)
  {
    if s != [] && IsWhitespace(s[0]) {
      TrimStartKeepsOut(s[1..], c);
    }
  }

  lemma {:induction false} TrimEndKeepsOut(s: string, c: char)
    requires c !in s
    ensures c !in TrimEnd(s, IsWhitespace)
  {
    if s != [] && IsWhitespace(s[|s| - 1]) {
      TrimEndKeepsOut(s[..|s| - 1], c);
    }
  }

  lemma TrimKeepsOut(s: string, c: char)
    requires c !in s
    ensures c !in TrimWhitespace(s)
  {
    TrimStartKeepsOut(s, c);
    TrimEndKeepsOut(TrimStart(s, IsWhitespace), c);
  }

  /** TrimEnd keeps a prefix of its input. */
  lemma {:induction false} TrimEndIsPrefix(s: string)
    ensures var r := TrimEnd(s, IsWhitespace); r == s[..|r|]
  {
    if s != [] && IsWhitespace(s[|s| - 1]) {
      TrimEndIsPrefix(s[..|s| - 1]);
    }
  }

  lemma TrimWhitespaceTrimmed(s: string)
    ensures IsTrimmed(TrimWhitespace(s))
  {
    var t := TrimStart(s, IsWhitespace);
    TrimEndIsPrefix(t);
  }

  /** FeatureGate.isFeatureEnabled(Set, String). */
  predicate IsFeatureEnabled(featureConfigValues: set<string>, entityId: string) {
    EnableForAll in featureConfigValues || entityId in featureConfigValues
  }

  /** Enabling an entity for a set enables it for every larger set. */
  lemma IsFeatureEnabledMonotone(s: set<string>, t: set<string>, entityId: string)
    requires s <= t && IsFeatureEnabled(s, entityId)
    ensures IsFeatureEnabled(t, entityId)
  {
  }

  /** A list with "all" among its pieces enables every entity. */
  lemma AllEnablesEveryone(val: string, p: string, entityId: string)
    requires HasText(val) && p in JavaSplit(val, ',') && TrimWhitespace(p) == EnableForAll
    ensures IsFeatureEnabled(Convert(val), entityId)
  {
    assert !IsWhitespace(EnableForAll[0]);
  }

  /** The blank list yields the empty set and enables nobody. */
  lemma ConvertBlank(entityId: string)
    ensures Convert("") == {}
    ensures !IsFeatureEnabled(Convert(""), entityId)
  {
  }

  /** Splitting "x,y,z" for pieces without commas. */
  lemma SplitThree(v: string, x: string, y: string, z: string)
    requires v == x + "," + y + "," + z && ',' !in x && ',' !in y && ',' !in z && z != ""
    ensures JavaSplit(v, ',') == [x, y, z]
  {
    var rest := y + [','] + z;
    assert v == x + [','] + rest;
    assert SplitAll(rest, ',') == [y, z] by {
      SplitAllCons(y, ',', z);
      assert SplitAll(z, ',') == [z];
    }
    assert SplitAll(v, ',') == [x, y, z] by {
      SplitAllCons(x, ',', rest);
    }
    assert v[|x|] == ',';
  }

  /** A one-character non-blank piece is its own trim. */
  lemma TrimSingle(x: string)
    requires |x| == 1 && !IsWhitespace(x[0])
    ensures TrimWhitespace(x) == x
  {
  }

  lemma TrimBlankEnds(s: string, core: string)
    requires s == " " + core + " " && |core| == 1 && !IsWhitespace(core[0])
    ensures TrimWhitespace(s) == core
  {
    assert s[0] == ' ' && s[1..] == core + " ";
    assert TrimStart(s, IsWhitespace) == core + " ";
    assert (core + " ")[..1] == core;
    assert TrimEnd(core + " ", IsWhitespace) == TrimEnd(core, IsWhitespace);
  }

  /** A three-piece list converts to the set of its trimmed pieces. */
  lemma ConvertThree(v: string, x: string, y: string, z: string)
    requires v == x + "," + y + "," + z && ',' !in x && ',' !in y && ',' !in z && z != ""
    requires HasText(v)
    requires HasText(TrimWhitespace(x)) && HasText(TrimWhitespace(y)) && HasText(TrimWhitespace(z))
    ensures Convert(v) == {TrimWhitespace(x), TrimWhitespace(y), TrimWhitespace(z)}
  {
    SplitThree(v, x, y, z);
    SetOfTrimmed([x, y, z]);
  }

  /** The set built from three pieces, none of them blank after trimming. */
  lemma SetOfTrimmed(pieces: seq<string>)
    requires |pieces| == 3 && forall p :: p in pieces ==> HasText(TrimWhitespace(p))
    ensures (set p | p in pieces && HasText(TrimWhitespace(p)) :: TrimWhitespace(p))
      == {TrimWhitespace(pieces[0]), TrimWhitespace(pieces[1]), TrimWhitespace(pieces[2])}
  {
    var built := set p | p in pieces && HasText(TrimWhitespace(p)) :: TrimWhitespace(p);
    assert pieces[0] in pieces && pieces[1] in pieces && pieces[2] in pieces;
    forall e | e in built ensures e in {TrimWhitespace(pieces[0]), TrimWhitespace(pieces[1]), TrimWhitespace(pieces[2])} {
      var p :| p in pieces && TrimWhitespace(p) == e;
      var i :| 0 <= i < 3 && pieces[i] == p;
      assert i == 0 || i == 1 || i == 2;
    }
  }

  /** "a, b ,c" converts to {"a", "b", "c"}: "a" is enabled, "d" is not. */
  lemma ConvertExample(v: string)
    requires v == "a, b ,c"
    ensures Convert(v) == {"a", "b", "c"}
    ensures IsFeatureEnabled(Convert(v), "a") && !IsFeatureEnabled(Convert(v), "d")
  {
    assert !IsWhitespace(v[0]);
    TrimSingle("a");
    TrimSingle("c");
    TrimBlankEnds(" b ", "b");
    assert HasText("a") && HasText("b") && HasText("c");
    ConvertThree(v, "a", " b ", "c");
    EnabledAmong(Convert(v));
  }

  lemma EnabledAmong(features: set<string>)
    requires features == {"a", "b", "c"}
    ensures IsFeatureEnabled(features, "a") && !IsFeatureEnabled(features, "d")
  {
    assert "all" != "a" && "all" != "b" && "all" != "c";
  }

  /** "a, b ,all" enables "e", which it does not name. */
  lemma ConvertAllExample(v: string)
    requires v == "a, b ,all"
    ensures IsFeatureEnabled(Convert(v), "e")
  {
    SplitThree(v, "a", " b ", "all");
    assert !IsWhitespace(v[0]);
    assert TrimWhitespace("all") == "all";
    AllEnablesEveryone(v, "all", "e");
  }

  // ----------------------------------------------------- isFeatureEnabled(name)

  /** Boolean.parseBoolean. */
  predicate ParseBoolean(s: string) {
    EqualsIgnoreCase(s, "true")
  }

  /** FeatureGate.isFeatureEnabled(String): a missing or blank property is
      false, any other is parsed as a boolean. */
  predicate IsFeatureEnabledByName(environment: string -> Option<string>, featureName: string) {
    var configVal := environment(featureName);
    configVal.Some? && HasText(configVal.value) && ParseBoolean(configVal.value)
  }

  /** The blank check changes nothing: a feature is on exactly when its
      property is "true" in any letter case. */
  lemma IsFeatureEnabledByNameIff(environment: string -> Option<string>, featureName: string)
    ensures IsFeatureEnabledByName(environment, featureName) <==>
      environment(featureName).Some? && EqualsIgnoreCase(environment(featureName).value, "true")
  {
    var v := environment(featureName);
    if v.Some? && EqualsIgnoreCase(v.value, "true") {
      assert SameIgnoringCase(v.value[0], 't');
      assert !IsWhitespace(v.value[0]);
    }
  }

  /** "True" switches a feature on; "yes" and a missing property do not. */
  lemma IsFeatureEnabledByNameExample(environment: string -> Option<string>)
    requires environment("on") == Some("True")
    requires environment("maybe") == Some("yes")
    requires environment("missing") == None
    ensures IsFeatureEnabledByName(environment, "on")
    ensures !IsFeatureEnabledByName(environment, "maybe")
    ensures !IsFeatureEnabledByName(environment, "missing")
  {
    IsFeatureEnabledByNameIff(environment, "on");
    var t := "True";
    assert SameIgnoringCase(t[0], 't') && SameIgnoringCase(t[1], 'r')
      && SameIgnoringCase(t[2], 'u') && SameIgnoringCase(t[3], 'e');
    assert |"yes"| != |"true"|;
  }
}
