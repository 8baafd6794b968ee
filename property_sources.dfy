/**
 * The Spring Environment as the hot-reload core sees it: named property
 * sources, each a map from property name to value, kept in an ordered list
 * in which a source can be replaced by name.
 */
module PropertySources {
  import opened Strings

  /** A property value as a loader produces it. The properties loader keeps
      text; the YAML loader keeps the scalar's type, so `1.0` and `1.00` are
      the same Double and `1` and `'1'` are an Integer and a String. Two
      values are equal as Java's equals on the wrapped objects says. */
  datatype Value =
    | Text(text: string)
    | Integer(number: int)
    | Bool(truth: bool)
    | Decimal(magnitude: real)

  datatype PropertySource = PropertySource(name: string, source: map<string, Value>)

  /** MutablePropertySources: sources in precedence order. */
  type Sources = seq<PropertySource>

  predicate HasSource(env: Sources, name: string) {
    exists i :: 0 <= i < |env| && env[i].name == name
  }

  /** MutablePropertySources.get: the first source with this name. */
  function GetSource(env: Sources, name: string): (r: Option<PropertySource>)
    ensures r.Some? <==> HasSource(env, name)
    ensures r.Some? ==> r.value.name == name && r.value in env
  {
    if env == [] then None
    else if env[0].name == name then Some(env[0])
    else
      var rest := GetSource(env[1..], name);
      assert HasSource(env, name) ==> env[0].name == name || HasSource(env[1..], name) by {
        if HasSource(env, name) && env[0].name != name {
          var i :| 0 <= i < |env| && env[i].name == name;
          assert env[1..][i - 1].name == name;
        }
      }
      rest
  }

  /** Where the first source with this name sits, -1 when there is none. */
  function IndexOfSource(env: Sources, name: string): (r: int)
    ensures -1 <= r < |env|
    ensures r >= 0 ==> env[r].name == name && forall j :: 0 <= j < r ==> env[j].name != name
    ensures r == -1 <==> !HasSource(env, name)
  {
    if env == [] then -1
    else if env[0].name == name then 0
    else
      var k := IndexOfSource(env[1..], name);
      assert HasSource(env, name) ==> HasSource(env[1..], name) by {
        if HasSource(env, name) {
          var i :| 0 <= i < |env| && env[i].name == name;
          assert env[1..][i - 1].name == name;
        }
      }
      if k == -1 then -1 else k + 1
  }

  /** MutablePropertySources.replace: the first source carrying the name is
      swapped for the new one in place; an unknown name is an
      IllegalArgumentException. */
  function Replace(env: Sources, name: string, ps: PropertySource): (r: Result<Sources>)
    ensures r.Err? <==> !HasSource(env, name)
    ensures r.Err? ==> r.error == IllegalArgument
    ensures r.Ok? ==> (|r.value| == |env|
      && r.value[IndexOfSource(env, name)] == ps
      && forall j :: 0 <= j < |env| && j != IndexOfSource(env, name) ==> r.value[j] == env[j])
  {
    var i := IndexOfSource(env, name);
    if i < 0 then Err(IllegalArgument) else Ok(env[i := ps])
  }

  /** GetSource reads the source IndexOfSource points at. */
  lemma {:induction false} GetSourceAtIndex(env: Sources, name: string)
    requires HasSource(env, name)
    ensures GetSource(env, name) == Some(env[IndexOfSource(env, name)])
  {
    if env[0].name != name {
      assert HasSource(env[1..], name) by {
        var i :| 0 <= i < |env| && env[i].name == name;
        assert env[1..][i - 1].name == name;
      }
      GetSourceAtIndex(env[1..], name);
    }
  }

  /** Replacing a source by a source of the same name and reading it back
      gives the new source. */
  lemma ReplaceThenGet(env: Sources, name: string, ps: PropertySource)
    requires ps.name == name && HasSource(env, name)
    ensures Replace(env, name, ps).Ok?
    ensures GetSource(Replace(env, name, ps).value, name) == Some(ps)
  {
    var i := IndexOfSource(env, name);
    var r := env[i := ps];
    assert HasSource(r, name) by { assert r[i].name == name; }
    GetSourceAtIndex(r, name);
    IndexOfFirst(r, name, i);
  }

  /** The first index carrying the name is the one IndexOfSource reports. */
  lemma IndexOfFirst(env: Sources, name: string, i: nat)
    requires i < |env| && env[i].name == name && forall j :: 0 <= j < i ==> env[j].name != name
    ensures IndexOfSource(env, name) == i
  {
    assert HasSource(env, name);
  }

  /** ...and every other name reads as before. */
  lemma {:induction false} ReplaceOtherName(env: Sources, name: string, ps: PropertySource, other: string)
    requires ps.name == name && other != name && HasSource(env, name)
    ensures GetSource(Replace(env, name, ps).value, other) == GetSource(env, other)
  {
    var i := IndexOfSource(env, name);
    var r := env[i := ps];
    assert Replace(env, name, ps).value == r;
    if i > 0 {
      assert r[0] == env[0];
      if env[0].name != other {
        var tail := env[1..];
        assert env[0].name != name;
        assert IndexOfSource(tail, name) == i - 1;
        assert HasSource(tail, name) by { assert tail[i - 1].name == name; }
        ReplaceOtherName(tail, name, ps, other);
        assert Replace(tail, name, ps).value == tail[i - 1 := ps];
        assert r[1..] == tail[i - 1 := ps];
      }
    } else {
      assert r[0].name != other;
      assert r[1..] == env[1..];
    }
  }
}
