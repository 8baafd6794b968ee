/**
 * ConfigurationChangedEventHandler: applies the diff of a reloaded file to
 * the registered beans. @Value fields are re-set through their binders,
 * @ConfigurationProperties beans whose prefix a changed key falls under are
 * re-bound, and map entries whose keys were deleted are removed from the
 * re-bound bean's map fields.
 *
 * A bean object is a value: the sequence of its declared fields with their
 * current values. The live beans are a table from bean reference to object;
 * a reference absent from it has been cleared by the garbage collector.
 * Spring's capabilities (placeholder resolution, SpEL, type conversion and
 * the ConfigurationProperties binder) are functions handed in.
 */
module EventHandler {
  import opened Strings
  import opened KeyNormalization
  import opened PropertySources
  import opened PropertyDiff
  import opened BindingRegistry

  /** DOT_SYMBOL. */
  const DotSymbol := '.'

  // ----------------------------------------------------------- bean objects

  /** A field's value, by its declared type: a simple value type in the
      sense of BeanUtils.isSimpleValueType, a java.util.Map, or any other
      reference; None is null. */
  datatype FieldValue =
    | SimpleValue(value: Option<Value>)
    | MapValue(entries: Option<map<string, Value>>)
    | ObjectValue(obj: Option<Obj>)

  datatype Field = Field(name: string, isStatic: bool, isFinal: bool, value: FieldValue)

  /** An object: its class's declared fields, in declaration order. */
  datatype Obj = Obj(fields: seq<Field>)

  /** The live beans: a reference maps to its object while it is reachable. */
  type Heap = map<BeanRef, Obj>

  /** The Spring capabilities the handler calls. */
  datatype Spring = Spring(
    resolveEmbeddedValue: Option<string> -> Result<Option<string>>,  // ConfigurableBeanFactory.resolveEmbeddedValue
    evaluate: Option<string> -> Result<Option<Value>>,               // BeanExpressionResolver.evaluate
    convert: (string, Option<Value>) -> Result<FieldValue>,          // TypeConverter.convertIfNecessary for a field
    rebind: (string, Obj) -> Result<Obj>)                            // ConfigurationPropertiesBindingPostProcessor

  /** isIgnorableField: static, final, or of a simple value type. */
  predicate IsIgnorableField(f: Field) {
    f.isStatic || f.isFinal || f.value.SimpleValue?
  }

  /** startsWithIgnoreCase(path, normalizePropKey(fieldName)); Spring answers
      false for a null key. */
  predicate MatchesPath(path: string, fieldName: string) {
    var key := KebabCase(fieldName);
    key.Some? && StartsWithIgnoreCase(path, key.value)
  }

  /** A Java field name: it starts with neither whitespace nor '-'. */
  predicate IsFieldName(name: string) {
    |name| > 0 && !IsWhitespace(name[0]) && name[0] != '-'
  }

  // ------------------------------------------------------------ key to path

  /** findParentPath: the normalised key with the prefix and the following
      '.' cut off, up to its last '.' ("" when it has none). The key is not
      checked to start with the prefix: only the prefix's length is used. */
  function FindParentPath(prefix: Option<string>, rawKey: string): Result<string> {
    var key := KebabCase(rawKey);
    if key.None? || prefix.None? then Err(NullPointer)
    else if |prefix.value| + 1 > |key.value| then Err(IndexOutOfBounds)
    else
      var fieldPath := key.value[|prefix.value| + 1..];
      var pathPos := LastIndexOf(fieldPath, DotSymbol);
      if pathPos != -1 then Ok(fieldPath[..pathPos]) else Ok("")
  }

  /** The map key to remove: the raw key after its last '.'. */
  function LeafKey(rawKey: string): (r: string)
    ensures DotSymbol !in r
  {
    rawKey[LastIndexOf(rawKey, DotSymbol) + 1..]
  }

  /** A key that normalises to prefix '.' parent '.' leaf, with no '.' in
      the leaf, has that parent path. */
  lemma FindParentPathSplit(prefix: string, rawKey: string, p: string, parent: string, leaf: string)
    requires |p| == |prefix| && DotSymbol !in leaf
    requires KebabCase(rawKey) == Some(p + [DotSymbol] + parent + [DotSymbol] + leaf)
    ensures FindParentPath(Some(prefix), rawKey) == Ok(parent)
  {
    var k := KebabCase(rawKey).value;
    assert k[|prefix| + 1..] == parent + [DotSymbol] + leaf;
    LastIndexOfSplit(parent, DotSymbol, leaf);
    assert (parent + [DotSymbol] + leaf)[..|parent|] == parent;
  }

  /** A key directly under the prefix has the empty parent path. */
  lemma FindParentPathDirect(prefix: string, rawKey: string, p: string, leaf: string)
    requires |p| == |prefix| && DotSymbol !in leaf
    requires KebabCase(rawKey) == Some(p + [DotSymbol] + leaf)
    ensures FindParentPath(Some(prefix), rawKey) == Ok("")
  {
    var k := KebabCase(rawKey).value;
    assert k[|prefix| + 1..] == leaf;
  }

  /** The prefix's text is never compared: prefixes of one length give the
      same path. */
  lemma FindParentPathOnlyLength(a: string, b: string, rawKey: string)
    requires |a| == |b|
    ensures FindParentPath(Some(a), rawKey) == FindParentPath(Some(b), rawKey)
  {
  }

  /** A key no longer than the prefix and its dot fails with
      StringIndexOutOfBoundsException; a null prefix or a blank key with
      NullPointerException. */
  lemma FindParentPathErrors(prefix: Option<string>, rawKey: string)
    ensures prefix.None? || !HasText(rawKey) ==> FindParentPath(prefix, rawKey) == Err(NullPointer)
    ensures prefix.Some? && HasText(rawKey) && |KebabCase(rawKey).value| <= |prefix.value| ==>
      FindParentPath(prefix, rawKey) == Err(IndexOutOfBounds)
  {
  }

  /** The leaf of a key is what follows its last '.'. */
  lemma LeafKeySplit(a: string, b: string)
    requires DotSymbol !in b
    ensures LeafKey(a + [DotSymbol] + b) == b
  {
    LastIndexOfSplit(a, DotSymbol, b);
    assert (a + [DotSymbol] + b)[|a| + 1..] == b;
  }

  /** rawKey.matches(INDEXED_PROP_PATTERN): the WHOLE key is `[`, one to
      three digits, `]`. */
  predicate IsIndexedKeyAsWritten(rawKey: string) {
    3 <= |rawKey| <= 5 && rawKey[0] == '[' && rawKey[|rawKey| - 1] == ']'
    && forall i :: 1 <= i < |rawKey| - 1 ==> '0' <= rawKey[i] <= '9'
  }

  /** `[`, one to three digits, `]` at index i. */
  predicate IndexAt(rawKey: string, i: nat, digits: nat) {
    1 <= digits <= 3 && i + digits + 2 <= |rawKey|
    && rawKey[i] == '[' && rawKey[i + digits + 1] == ']'
    && forall j :: i + 1 <= j <= i + digits ==> '0' <= rawKey[j] <= '9'
  }

  /** What the skip is for: a key with an indexed element anywhere in it,
      such as 'a.b[1].c.d', is left to the binder. */
  predicate IsIndexedKey(rawKey: string) {
    exists i: nat, digits: nat :: i < |rawKey| && digits <= 3 && IndexAt(rawKey, i, digits)
  }

  // ------------------------------------------- removing a deleted map key

  /** The field loop of removeMissingMapKeyIfMatch after some fields:
      the fields so far, whether the loop broke, and the outcome. */
  datatype Walk = Walk(fields: seq<Field>, stopped: bool, outcome: Outcome)

  /** removeMissingMapKeyIfMatch on an object. */
  function RemoveMapKey(obj: Obj, path: string, mapKey: string): (r: Effect<Obj>)
    ensures |r.state.fields| == |obj.fields|
    decreases |path|, |obj.fields| + 1
  {
    var w := WalkFields(obj.fields, |obj.fields|, path, mapKey);
    Effect(Obj(w.fields), w.outcome)
  }

  /** The loop after the first n fields. */
  function WalkFields(fields: seq<Field>, n: nat, path: string, mapKey: string): (w: Walk)
    requires n <= |fields|
    ensures |w.fields| == |fields|
    decreases |path|, n
  {
    if n == 0 then Walk(fields, false, Pass)
    else
      var w := WalkFields(fields, n - 1, path, mapKey);
      if w.stopped || w.outcome.Fail? then w
      else VisitField(w.fields, n - 1, path, mapKey)
  }

  /** One field: on a leaf path (no '.') the first matching Map field loses
      the key and the loop breaks; on a longer path every matching field is
      walked into with the path after its first '.'. A null map or object
      met on the way throws. */
  function VisitField(fields: seq<Field>, i: nat, path: string, mapKey: string): (w: Walk)
    requires i < |fields|
    ensures |w.fields| == |fields|
    decreases |path|, i
  {
    var f := fields[i];
    var pos := IndexOf(path, DotSymbol);
    if IsIgnorableField(f) || !MatchesPath(path, f.name) then Walk(fields, false, Pass)
    else if pos == -1 then
      match f.value
      case MapValue(None) => Walk(fields, true, Fail(NullPointer))
      case MapValue(Some(entries)) => Walk(fields[i := f.(value := MapValue(Some(entries - {mapKey})))], true, Pass)
      case _ => Walk(fields, false, Pass)
    else
      match f.value
      case ObjectValue(Some(sub)) =>
        var r := RemoveMapKey(sub, path[pos + 1..], mapKey);
        Walk(fields[i := f.(value := ObjectValue(Some(r.state)))], false, r.outcome)
      case MapValue(Some(_)) => Walk(fields, false, Pass)  // a JDK map's own fields hold no match
      case _ => Walk(fields, false, Fail(NullPointer))
  }

  /** Once the loop has broken or thrown, later fields change nothing. */
  lemma {:induction false} WalkStops(fields: seq<Field>, m: nat, n: nat, path: string, mapKey: string)
    requires m <= n <= |fields|
    requires WalkFields(fields, m, path, mapKey).stopped || WalkFields(fields, m, path, mapKey).outcome.Fail?
    ensures WalkFields(fields, n, path, mapKey) == WalkFields(fields, m, path, mapKey)
    decreases n
  {
    if m < n {
      WalkStops(fields, m, n - 1, path, mapKey);
    }
  }

  // --------------------------------------------------------- what it changes

  /** b keeps a sub-map of a, and every key it lost is in gone. */
  predicate MapShrunk(a: map<string, Value>, b: map<string, Value>, gone: set<string>) {
    (forall k :: k in b ==> k in a && b[k] == a[k])
    && (forall k :: k in a && k !in b ==> k in gone)
  }

  /** The same object tree, except that maps may have lost keys in gone. */
  predicate ObjShrunk(a: Obj, b: Obj, gone: set<string>)
    decreases a
  {
    |a.fields| == |b.fields|
    && forall i :: 0 <= i < |a.fields| ==> FieldShrunk(a.fields[i], b.fields[i], gone)
  }

  predicate FieldShrunk(f: Field, g: Field, gone: set<string>)
    decreases f
  {
    f.name == g.name && f.isStatic == g.isStatic && f.isFinal == g.isFinal && ValueShrunk(f.value, g.value, gone)
  }

  predicate ValueShrunk(a: FieldValue, b: FieldValue, gone: set<string>)
    decreases a
  {
    match a
    case MapValue(Some(m)) => b.MapValue? && b.entries.Some? && MapShrunk(m, b.entries.value, gone)
    case ObjectValue(Some(o)) => b.ObjectValue? && b.obj.Some? && ObjShrunk(o, b.obj.value, gone)
    case _ => b == a
  }

  lemma {:induction false} ObjShrunkRefl(a: Obj, gone: set<string>)
    ensures ObjShrunk(a, a, gone)
    decreases a
  {
    forall i | 0 <= i < |a.fields| ensures FieldShrunk(a.fields[i], a.fields[i], gone) {
      var f := a.fields[i];
      if f.value.ObjectValue? && f.value.obj.Some? {
        ObjShrunkRefl(f.value.obj.value, gone);
      }
    }
  }

  lemma {:induction false} ObjShrunkTrans(a: Obj, b: Obj, c: Obj, g1: set<string>, g2: set<string>)
    requires ObjShrunk(a, b, g1) && ObjShrunk(b, c, g2)
    ensures ObjShrunk(a, c, g1 + g2)
    decreases a
  {
    forall i | 0 <= i < |a.fields| ensures FieldShrunk(a.fields[i], c.fields[i], g1 + g2) {
      var f, g, h := a.fields[i], b.fields[i], c.fields[i];
      assert FieldShrunk(f, g, g1) && FieldShrunk(g, h, g2);
      assert ValueShrunk(f.value, g.value, g1) && ValueShrunk(g.value, h.value, g2);
      match f.value
      case ObjectValue(Some(o)) =>
        assert g.value.ObjectValue? && g.value.obj.Some? && ObjShrunk(o, g.value.obj.value, g1);
        assert h.value.ObjectValue? && h.value.obj.Some?;
        ObjShrunkTrans(o, g.value.obj.value, h.value.obj.value, g1, g2);
      case MapValue(Some(m)) =>
        assert g.value.MapValue? && g.value.entries.Some? && MapShrunk(m, g.value.entries.value, g1);
        assert h.value.MapValue? && h.value.entries.Some?;
      case _ =>
    }
  }

  /** Removing a deleted key only ever drops that key from maps: names,
      modifiers, simple values and every other map entry stay. */
  lemma {:induction false} RemoveMapKeyShrinks(obj: Obj, path: string, mapKey: string)
    ensures ObjShrunk(obj, RemoveMapKey(obj, path, mapKey).state, {mapKey})
    decreases |path|, |obj.fields| + 1
  {
    WalkFieldsShrinks(obj.fields, |obj.fields|, path, mapKey);
  }

  lemma {:induction false} WalkFieldsShrinks(fields: seq<Field>, n: nat, path: string, mapKey: string)
    requires n <= |fields|
    ensures ObjShrunk(Obj(fields), Obj(WalkFields(fields, n, path, mapKey).fields), {mapKey})
    decreases |path|, n
  {
    if n == 0 {
      ObjShrunkRefl(Obj(fields), {mapKey});
    } else {
      var w := WalkFields(fields, n - 1, path, mapKey);
      WalkFieldsShrinks(fields, n - 1, path, mapKey);
      if !(w.stopped || w.outcome.Fail?) {
        VisitFieldShrinks(w.fields, n - 1, path, mapKey);
        ObjShrunkTrans(Obj(fields), Obj(w.fields), Obj(VisitField(w.fields, n - 1, path, mapKey).fields), {mapKey}, {mapKey});
        assert {mapKey} + {mapKey} == {mapKey};
      }
    }
  }

  lemma {:induction false} VisitFieldShrinks(fields: seq<Field>, i: nat, path: string, mapKey: string)
    requires i < |fields|
    ensures ObjShrunk(Obj(fields), Obj(VisitField(fields, i, path, mapKey).fields), {mapKey})
    decreases |path|, i
  {
    var f := fields[i];
    var pos := IndexOf(path, DotSymbol);
    var w := VisitField(fields, i, path, mapKey);
    ObjShrunkRefl(Obj(fields), {mapKey});
    if !IsIgnorableField(f) && MatchesPath(path, f.name) && pos != -1 && f.value.ObjectValue? && f.value.obj.Some? {
      RemoveMapKeyShrinks(f.value.obj.value, path[pos + 1..], mapKey);
    }
    forall j | 0 <= j < |fields| ensures FieldShrunk(fields[j], w.fields[j], {mapKey}) {
      if j != i {
        assert w.fields[j] == fields[j];
      }
    }
  }

  // ------------------------------------------------------ leaf paths exactly

  /** A field the leaf step acts on: not ignorable, matching the path, and
      declared as a Map. */
  predicate IsLeafTarget(f: Field, path: string) {
    !IsIgnorableField(f) && MatchesPath(path, f.name) && f.value.MapValue?
  }

  lemma {:induction false} LeafWalkBefore(fields: seq<Field>, n: nat, path: string, mapKey: string)
    requires DotSymbol !in path && n <= |fields|
    requires forall j :: 0 <= j < n ==> !IsLeafTarget(fields[j], path)
    ensures WalkFields(fields, n, path, mapKey) == Walk(fields, false, Pass)
  {
    if n > 0 {
      LeafWalkBefore(fields, n - 1, path, mapKey);
    }
  }

  /** Fields that are ignorable or do not match the path are passed over. */
  lemma {:induction false} WalkSkips(fields: seq<Field>, n: nat, path: string, mapKey: string)
    requires n <= |fields|
    requires forall j :: 0 <= j < n ==> IsIgnorableField(fields[j]) || !MatchesPath(path, fields[j].name)
    ensures WalkFields(fields, n, path, mapKey) == Walk(fields, false, Pass)
  {
    if n > 0 {
      WalkSkips(fields, n - 1, path, mapKey);
    }
  }

  /** On a leaf path exactly the first non-ignorable matching Map field
      loses the key (or throws when it is null); nothing else changes. */
  lemma LeafRemoval(obj: Obj, path: string, mapKey: string, i: nat)
    requires DotSymbol !in path && i < |obj.fields| && IsLeafTarget(obj.fields[i], path)
    requires forall j :: 0 <= j < i ==> !IsLeafTarget(obj.fields[j], path)
    ensures var f := obj.fields[i];
      RemoveMapKey(obj, path, mapKey) ==
        if f.value.entries.None? then Effect(obj, Fail(NullPointer))
        else Effect(Obj(obj.fields[i := f.(value := MapValue(Some(f.value.entries.value - {mapKey})))]), Pass)
  {
    LeafWalkBefore(obj.fields, i, path, mapKey);
    WalkStops(obj.fields, i + 1, |obj.fields|, path, mapKey);
  }

  /** On a leaf path with no Map field to match, the object is untouched. */
  lemma LeafNoTarget(obj: Obj, path: string, mapKey: string)
    requires DotSymbol !in path
    requires forall j :: 0 <= j < |obj.fields| ==> !IsLeafTarget(obj.fields[j], path)
    ensures RemoveMapKey(obj, path, mapKey) == Effect(obj, Pass)
  {
    LeafWalkBefore(obj.fields, |obj.fields|, path, mapKey);
  }

  /** Fields from m on that the walk passes over leave it as it was. */
  lemma {:induction false} WalkSkipsFrom(fields: seq<Field>, m: nat, n: nat, path: string, mapKey: string)
    requires m <= n <= |fields|
    requires !WalkFields(fields, m, path, mapKey).stopped && WalkFields(fields, m, path, mapKey).outcome.Pass?
    requires forall j :: m <= j < n ==>
      IsIgnorableField(WalkFields(fields, m, path, mapKey).fields[j])
      || !MatchesPath(path, WalkFields(fields, m, path, mapKey).fields[j].name)
    ensures WalkFields(fields, n, path, mapKey) == WalkFields(fields, m, path, mapKey)
    decreases n
  {
    if m < n {
      WalkSkipsFrom(fields, m, n - 1, path, mapKey);
    }
  }

  /** On a longer path with exactly one matching field, holding an object,
      the walk descends into that object with the path after the first '.'
      and nothing else changes. */
  lemma DescendInto(obj: Obj, path: string, mapKey: string, i: nat)
    requires i < |obj.fields| && DotSymbol in path
    requires !IsIgnorableField(obj.fields[i]) && MatchesPath(path, obj.fields[i].name)
    requires obj.fields[i].value.ObjectValue? && obj.fields[i].value.obj.Some?
    requires forall j :: 0 <= j < |obj.fields| && j != i ==>
      IsIgnorableField(obj.fields[j]) || !MatchesPath(path, obj.fields[j].name)
    ensures var f := obj.fields[i];
      var r := RemoveMapKey(f.value.obj.value, path[IndexOf(path, DotSymbol) + 1..], mapKey);
      RemoveMapKey(obj, path, mapKey) == Effect(Obj(obj.fields[i := f.(value := ObjectValue(Some(r.state)))]), r.outcome)
  {
    var fs := obj.fields;
    WalkSkips(fs, i, path, mapKey);
    assert WalkFields(fs, i + 1, path, mapKey) == VisitField(fs, i, path, mapKey);
    if WalkFields(fs, i + 1, path, mapKey).outcome.Fail? {
      WalkStops(fs, i + 1, |fs|, path, mapKey);
    } else {
      WalkSkipsFrom(fs, i + 1, |fs|, path, mapKey);
    }
  }

  /** A key directly under the prefix leaves the parent path empty, and no
      field name matches it: the bean is untouched. */
  lemma EmptyPathUnchanged(obj: Obj, mapKey: string)
    requires forall j :: 0 <= j < |obj.fields| ==> IsFieldName(obj.fields[j].name)
    ensures RemoveMapKey(obj, "", mapKey) == Effect(obj, Pass)
  {
    forall j | 0 <= j < |obj.fields| ensures !MatchesPath("", obj.fields[j].name) {
      KebabCaseFirst(obj.fields[j].name);
    }
    LeafNoTarget(obj, "", mapKey);
  }

  // ------------------------------------------------- the loop over the diff

  /** removeMissingPropsMapFields over the diff's entries in `order`: every
      deleted key that `skip` does not exclude has its leaf removed from the
      map at its parent path. The first exception ends the loop. */
  function RemoveMissingWith(diff: Diff, order: seq<string>, obj: Obj, prefix: Option<string>,
                             skip: string -> bool): Effect<Obj>
    requires forall i :: 0 <= i < |order| ==> order[i] in diff
    decreases |order|
  {
    if order == [] then Effect(obj, Pass)
    else
      var rawKey := order[0];
      if diff[rawKey].Some? || skip(rawKey) then RemoveMissingWith(diff, order[1..], obj, prefix, skip)
      else
        match FindParentPath(prefix, rawKey)
        case Err(e) => Effect(obj, Fail(e))
        case Ok(path) =>
          var r := RemoveMapKey(obj, path, LeafKey(rawKey));
          if r.outcome.Fail? then r else RemoveMissingWith(diff, order[1..], r.state, prefix, skip)
  }

  /** The loop with the guard as written: only a key that is nothing but an
      index is skipped. */
  function RemoveMissingAsWritten(diff: Diff, order: seq<string>, obj: Obj, prefix: Option<string>): Effect<Obj>
    requires forall i :: 0 <= i < |order| ==> order[i] in diff
  {
    RemoveMissingWith(diff, order, obj, prefix, IsIndexedKeyAsWritten)
  }

  /** The loop with the guard its comment describes: a key holding an
      indexed element anywhere is left to the binder. */
  function RemoveMissing(diff: Diff, order: seq<string>, obj: Obj, prefix: Option<string>): Effect<Obj>
    requires forall i :: 0 <= i < |order| ==> order[i] in diff
  {
    RemoveMissingWith(diff, order, obj, prefix, IsIndexedKey)
  }

  /** A diff without deletions leaves the bean as it is, under any guard. */
  lemma {:induction false} RemoveMissingNoDeletions(diff: Diff, order: seq<string>, obj: Obj, prefix: Option<string>,
                                                    skip: string -> bool)
    requires forall i :: 0 <= i < |order| ==> order[i] in diff && diff[order[i]].Some?
    ensures RemoveMissingWith(diff, order, obj, prefix, skip) == Effect(obj, Pass)
    decreases |order|
  {
    if order != [] {
      RemoveMissingNoDeletions(diff, order[1..], obj, prefix, skip);
    }
  }

  /** Without a prefix the loop throws exactly when some deleted key passes
      the guard, and then before touching the bean; under either guard. */
  lemma {:induction false} RemoveMissingNullPrefix(diff: Diff, order: seq<string>, obj: Obj, skip: string -> bool)
    requires forall i :: 0 <= i < |order| ==> order[i] in diff
    ensures var r := RemoveMissingWith(diff, order, obj, None, skip);
      && r.state == obj
      && (r.outcome.Fail? <==> exists i :: 0 <= i < |order| && diff[order[i]].None? && !skip(order[i]))
      && (r.outcome.Fail? ==> r.outcome.error == NullPointer)
    decreases |order|
  {
    if order != [] {
      RemoveMissingNullPrefix(diff, order[1..], obj, skip);
      if exists i :: 1 <= i < |order| && diff[order[i]].None? && !skip(order[i]) {
        var i :| 1 <= i < |order| && diff[order[i]].None? && !skip(order[i]);
        assert order[1..][i - 1] == order[i];
      }
      if exists i :: 0 <= i < |order[1..]| && diff[order[1..][i]].None? && !skip(order[1..][i]) {
        var i :| 0 <= i < |order[1..]| && diff[order[1..][i]].None? && !skip(order[1..][i]);
        assert order[i + 1] == order[1..][i];
      }
    }
  }

  /** The bean only loses map entries, and only under the leaf keys of
      deleted properties; under either guard. */
  lemma {:induction false} RemoveMissingShrinks(diff: Diff, order: seq<string>, obj: Obj, prefix: Option<string>,
                                                skip: string -> bool, gone: set<string>)
    requires forall i :: 0 <= i < |order| ==> order[i] in diff
    requires forall i :: 0 <= i < |order| && diff[order[i]].None? ==> LeafKey(order[i]) in gone
    ensures ObjShrunk(obj, RemoveMissingWith(diff, order, obj, prefix, skip).state, gone)
    decreases |order|
  {
    ObjShrunkRefl(obj, gone);
    if order != [] {
      var rawKey := order[0];
      assert forall i :: 0 <= i < |order[1..]| ==> order[1..][i] == order[i + 1];
      if diff[rawKey].Some? || skip(rawKey) {
        RemoveMissingShrinks(diff, order[1..], obj, prefix, skip, gone);
      } else if FindParentPath(prefix, rawKey).Ok? {
        var path := FindParentPath(prefix, rawKey).value;
        var r := RemoveMapKey(obj, path, LeafKey(rawKey));
        RemoveMapKeyShrinks(obj, path, LeafKey(rawKey));
        assert {LeafKey(rawKey)} + gone == gone;
        if r.outcome.Fail? {
          ObjShrunkTrans(obj, r.state, r.state, {LeafKey(rawKey)}, gone) by { ObjShrunkRefl(r.state, gone); }
        } else {
          RemoveMissingShrinks(diff, order[1..], r.state, prefix, skip, gone);
          ObjShrunkTrans(obj, r.state, RemoveMissingWith(diff, order[1..], r.state, prefix, skip).state, {LeafKey(rawKey)}, gone);
        }
      }
    }
  }

  /** Every key the guard as written skips, the corrected guard skips too. */
  lemma IndexedAsWrittenIsIndexed(rawKey: string)
    requires IsIndexedKeyAsWritten(rawKey)
    ensures IsIndexedKey(rawKey)
  {
    assert IndexAt(rawKey, 0, |rawKey| - 2);
  }

  /** The key the comment names is not skipped as written. */
  lemma IndexedGuardMissesItsExample(rawKey: string)
    requires rawKey == "a.b[1].c.d"
    ensures !IsIndexedKeyAsWritten(rawKey) && IsIndexedKey(rawKey)
  {
    assert IndexAt(rawKey, 3, 1);
  }

  // ------------------------------------------------------ @Value fields

  /** The index of the declared field called name, or -1. */
  function FieldIndex(fields: seq<Field>, name: string): (r: int)
    ensures -1 <= r < |fields|
    ensures r >= 0 ==> fields[r].name == name && forall j :: 0 <= j < r ==> fields[j].name != name
    ensures r == -1 <==> forall j :: 0 <= j < |fields| ==> fields[j].name != name
  {
    if fields == [] then -1
    else if fields[0].name == name then 0
    else
      var k := FieldIndex(fields[1..], name);
      if k == -1 then -1 else k + 1
  }

  /** Field.set: the named field of the object takes the value; a field the
      object's class does not declare is an IllegalArgumentException. */
  function SetField(obj: Obj, name: string, v: FieldValue): (r: Result<Obj>)
    ensures r.Err? <==> FieldIndex(obj.fields, name) == -1
    ensures r.Err? ==> r.error == IllegalArgument
    ensures r.Ok? ==> |r.value.fields| == |obj.fields|
    ensures r.Ok? ==> r.value.fields[FieldIndex(obj.fields, name)] == obj.fields[FieldIndex(obj.fields, name)].(value := v)
    ensures r.Ok? ==> forall j :: 0 <= j < |obj.fields| && j != FieldIndex(obj.fields, name) ==> r.value.fields[j] == obj.fields[j]
  {
    var i := FieldIndex(obj.fields, name);
    if i == -1 then Err(IllegalArgument) else Ok(Obj(obj.fields[i := obj.fields[i].(value := v)]))
  }

  /** Reading a field back after setting it gives the value set, and every
      other field reads as before. */
  lemma SetThenGet(obj: Obj, name: string, v: FieldValue, other: string)
    requires SetField(obj, name, v).Ok?
    ensures var o := SetField(obj, name, v).value;
      && FieldIndex(o.fields, name) == FieldIndex(obj.fields, name)
      && o.fields[FieldIndex(o.fields, name)].value == v
      && (other != name ==> FieldIndex(o.fields, other) == FieldIndex(obj.fields, other))
      && (other != name && FieldIndex(o.fields, other) >= 0 ==>
            o.fields[FieldIndex(o.fields, other)] == obj.fields[FieldIndex(obj.fields, other)])
  {
    var o := SetField(obj, name, v).value;
    assert forall j :: 0 <= j < |o.fields| ==> o.fields[j].name == obj.fields[j].name;
    FieldIndexSameNames(o.fields, obj.fields, name);
    FieldIndexSameNames(o.fields, obj.fields, other);
  }

  lemma {:induction false} FieldIndexSameNames(a: seq<Field>, b: seq<Field>, name: string)
    requires |a| == |b| && forall j :: 0 <= j < |a| ==> a[j].name == b[j].name
    ensures FieldIndex(a, name) == FieldIndex(b, name)
  {
    if a != [] && a[0].name != name {
      FieldIndexSameNames(a[1..], b[1..], name);
    }
  }

  /** The value convertAndBindFieldValue stores: SpEL is evaluated afresh
      from the resolved expression, anything else converts the diff's value. */
  function BoundValue(spring: Spring, val: Option<Value>, expr: string, newExpr: Option<string>,
                      fieldName: string): Result<FieldValue>
  {
    if StartsWith(expr, SpElPrefix) then
      match spring.evaluate(newExpr)
      case Err(e) => Err(e)
      case Ok(evaluated) => spring.convert(fieldName, evaluated)
    else spring.convert(fieldName, val)
  }

  /** convertAndBindFieldValue on a live bean. A null field throws before
      anything else; the expression is resolved before it is checked for
      null; the bean is written only when everything succeeded. */
  function BindField(spring: Spring, val: Option<Value>, binder: Binder, heap: Heap): (r: Effect<Heap>)
    requires binder.bean in heap
    ensures r.state.Keys == heap.Keys
    ensures forall x :: x in heap && x != binder.bean ==> r.state[x] == heap[x]
    ensures r.outcome.Fail? ==> r.state == heap
    ensures binder.field.None? ==> r.outcome == Fail(NullPointer)
  {
    if binder.field.None? then Effect(heap, Fail(NullPointer))
    else
      match spring.resolveEmbeddedValue(binder.expr)
      case Err(e) => Effect(heap, Fail(e))
      case Ok(newExpr) =>
        if binder.expr.None? then Effect(heap, Fail(NullPointer))
        else
          match BoundValue(spring, val, binder.expr.value, newExpr, binder.field.value)
          case Err(e) => Effect(heap, Fail(e))
          case Ok(v) =>
            match SetField(heap[binder.bean], binder.field.value, v)
            case Err(e) => Effect(heap, Fail(e))
            case Ok(o) => Effect(heap[binder.bean := o], Pass)
  }

  /** A plain placeholder field takes the converted value of the diff entry. */
  lemma BindPlainField(spring: Spring, val: Option<Value>, binder: Binder, heap: Heap, v: FieldValue)
    requires binder.bean in heap && binder.field.Some? && binder.expr.Some?
    requires !StartsWith(binder.expr.value, SpElPrefix)
    requires spring.resolveEmbeddedValue(binder.expr).Ok?
    requires spring.convert(binder.field.value, val) == Ok(v)
    requires FieldIndex(heap[binder.bean].fields, binder.field.value) >= 0
    ensures var r := BindField(spring, val, binder, heap);
      var i := FieldIndex(heap[binder.bean].fields, binder.field.value);
      && r.outcome == Pass
      && r.state[binder.bean].fields[i] == heap[binder.bean].fields[i].(value := v)
  {
  }

  /** A SpEL field ignores the diff's value: it is evaluated again. */
  lemma BindSpelIgnoresValue(spring: Spring, v1: Option<Value>, v2: Option<Value>, binder: Binder, heap: Heap)
    requires binder.bean in heap && binder.expr.Some? && StartsWith(binder.expr.value, SpElPrefix)
    ensures BindField(spring, v1, binder, heap) == BindField(spring, v2, binder, heap)
  {
  }

  /** processValueField's loop over the binders of one key: a binder whose
      bean has been collected is skipped; the first exception ends it. */
  function ApplyBinders(spring: Spring, val: Option<Value>, binders: seq<Binder>, heap: Heap): (r: Effect<Heap>)
    ensures r.state.Keys == heap.Keys
    ensures forall x :: x in heap && (forall i :: 0 <= i < |binders| ==> binders[i].bean != x) ==> r.state[x] == heap[x]
    decreases |binders|
  {
    if binders == [] then Effect(heap, Pass)
    else
      var b := binders[0];
      assert forall i :: 0 <= i < |binders[1..]| ==> binders[1..][i] == binders[i + 1];
      if b.bean !in heap then ApplyBinders(spring, val, binders[1..], heap)
      else
        var e := BindField(spring, val, b, heap);
        if e.outcome.Fail? then e else ApplyBinders(spring, val, binders[1..], e.state)
  }

  /** Binders of collected beans do nothing. */
  lemma {:induction false} ApplyBindersAllCollected(spring: Spring, val: Option<Value>, binders: seq<Binder>, heap: Heap)
    requires forall i :: 0 <= i < |binders| ==> binders[i].bean !in heap
    ensures ApplyBinders(spring, val, binders, heap) == Effect(heap, Pass)
    decreases |binders|
  {
    if binders != [] {
      ApplyBindersAllCollected(spring, val, binders[1..], heap);
    }
  }

  /** processValueField: the key normalised by toKebabCase is looked up in
      the field-binder table. A blank key normalises to null, which the
      concurrent map rejects with a NullPointerException. */
  function ValueFieldUpdate(spring: Spring, fieldBinders: map<string, seq<Binder>>, keyRaw: string,
                            val: Option<Value>, heap: Heap): (r: Effect<Heap>)
    ensures r.state.Keys == heap.Keys
    ensures !HasText(keyRaw) ==> r == Effect(heap, Fail(NullPointer))
    ensures HasText(keyRaw) && KebabCase(keyRaw).value !in fieldBinders ==> r == Effect(heap, Pass)
    ensures HasText(keyRaw) ==> forall x :: (x in heap && (forall b :: b in Lookup(fieldBinders, KebabCase(keyRaw).value) ==> b.bean != x)
      ==> r.state[x] == heap[x])
  {
    var key := KebabCase(keyRaw);
    if key.None? then Effect(heap, Fail(NullPointer))
    else if key.value !in fieldBinders then Effect(heap, Pass)
    else ApplyBinders(spring, val, fieldBinders[key.value], heap)
  }

  /** The changed keys in `order`, each through processValueField, until
      the first exception. */
  function DispatchKeys(spring: Spring, fieldBinders: map<string, seq<Binder>>, diff: Diff, order: seq<string>,
                        heap: Heap): (r: Effect<Heap>)
    requires forall i :: 0 <= i < |order| ==> order[i] in diff
    ensures r.state.Keys == heap.Keys
    ensures forall x :: (x in heap && UnboundBean(fieldBinders, order, x)) ==> r.state[x] == heap[x]
    decreases |order|
  {
    if order == [] then Effect(heap, Pass)
    else
      assert forall i :: 0 <= i < |order[1..]| ==> order[1..][i] == order[i + 1];
      var e := ValueFieldUpdate(spring, fieldBinders, order[0], diff[order[0]], heap);
      if e.outcome.Fail? then e else DispatchKeys(spring, fieldBinders, diff, order[1..], e.state)
  }

  /** Extending the changed keys by one schedules that key on top. */
  lemma ScheduleAllSnoc(configPropsBinders: map<string, Binder>, order: seq<string>, keys: seq<string>, i: nat,
                        matches: (string, string) -> bool)
    requires forall j :: 0 <= j < |order| ==> order[j] in configPropsBinders
    requires i < |keys|
    ensures ScheduleAll(configPropsBinders, order, keys[..i + 1], matches)
      == Schedule(ScheduleAll(configPropsBinders, order, keys[..i], matches), configPropsBinders, order, keys[i], matches)
  {
    assert keys[..i + 1][..i] == keys[..i];
  }

  /** No @Value binder of any of the keys references bean x. */
  predicate UnboundBean(fieldBinders: map<string, seq<Binder>>, keys: seq<string>, x: BeanRef) {
    forall i, b :: 0 <= i < |keys| && HasText(keys[i]) && b in Lookup(fieldBinders, KebabCase(keys[i]).value) ==> b.bean != x
  }

  // ---------------------------------------- @ConfigurationProperties beans

  /** processConfigPropsClass's test: the key normalised by toKebabCase
      starts with the prefix, ignoring case; startsWithIgnoreCase answers
      false for the null a blank key normalises to. */
  predicate KebabPrefixMatches(key: string, prefix: string) {
    var k := KebabCase(key);
    k.Some? && StartsWithIgnoreCase(k.value, prefix)
  }

  /** rebindRelatedConfigurationPropsBeans over the refresh table in
      `order`: a live bean is re-bound by the binding post-processor, then
      loses the map entries of deleted keys under the binder's expression
      as prefix. The first exception ends it. */
  function RebindAll(spring: Spring, toRefresh: map<string, Binder>, order: seq<string>, diff: Diff,
                     diffOrder: seq<string>, heap: Heap): (r: Effect<Heap>)
    requires forall i :: 0 <= i < |order| ==> order[i] in toRefresh
    requires forall i :: 0 <= i < |diffOrder| ==> diffOrder[i] in diff
    ensures r.state.Keys == heap.Keys
    ensures forall x :: (x in heap && (forall i :: 0 <= i < |order| ==> toRefresh[order[i]].bean != x)
      ==> r.state[x] == heap[x])
    decreases |order|
  {
    if order == [] then Effect(heap, Pass)
    else
      assert forall i :: 0 <= i < |order[1..]| ==> order[1..][i] == order[i + 1];
      var beanName := order[0];
      var binder := toRefresh[beanName];
      if binder.bean !in heap then RebindAll(spring, toRefresh, order[1..], diff, diffOrder, heap)
      else
        match spring.rebind(beanName, heap[binder.bean])
        case Err(e) => Effect(heap, Fail(e))
        case Ok(bound) =>
          var removed := RemoveMissingAsWritten(diff, diffOrder, bound, binder.expr);
          var h := heap[binder.bean := removed.state];
          if removed.outcome.Fail? then Effect(h, removed.outcome)
          else RebindAll(spring, toRefresh, order[1..], diff, diffOrder, h)
  }

  // ------------------------------------------------------------ handleEvent

  /** The iteration orders handleEvent sees: the prefix table's, the
      diff's, and the refresh table's. */
  predicate HandlerOrders(configPropsBinders: map<string, Binder>, cpbOrder: seq<string>, diff: Diff,
                          diffOrder: seq<string>, refreshOrder: seq<string>) {
    Enumerates(cpbOrder, configPropsBinders.Keys)
    && Enumerates(diffOrder, diff.Keys)
    && Enumerates(refreshOrder, ScheduleAll(configPropsBinders, cpbOrder, diffOrder, KebabPrefixMatches).Keys)
  }

  /** handleEvent: the diff is computed afresh from the event's two
      sources; every changed key schedules the beans whose prefix it falls
      under and re-sets the @Value fields bound to it; then the scheduled
      beans are re-bound. Any exception is caught and logged: what was done
      before it stays. A missing source is such an exception. */
  function HandleEventSpec(spring: Spring, tables: Tables, cpbOrder: seq<string>, event: ConfigurationChangedEvent,
                           diffOrder: seq<string>, refreshOrder: seq<string>, heap: Heap): (r: Heap)
    requires event.previous.Some? && event.current.Some? ==>
      HandlerOrders(tables.configPropsBinders, cpbOrder,
                    DiffOf(event.previous.value.source, event.current.value.source), diffOrder, refreshOrder)
    ensures r.Keys == heap.Keys
  {
    if event.previous.None? || event.current.None? then heap
    else
      var diff := DiffOf(event.previous.value.source, event.current.value.source);
      var dispatched := DispatchKeys(spring, tables.fieldBinders, diff, diffOrder, heap);
      if dispatched.outcome.Fail? then dispatched.state
      else
        var toRefresh := ScheduleAll(tables.configPropsBinders, cpbOrder, diffOrder, KebabPrefixMatches);
        RebindAll(spring, toRefresh, refreshOrder, diff, diffOrder, dispatched.state).state
  }

  /** A reload that changed nothing, or an event without a source, leaves
      every bean as it is. */
  lemma HandleEventNoChange(spring: Spring, tables: Tables, cpbOrder: seq<string>, event: ConfigurationChangedEvent,
                            diffOrder: seq<string>, refreshOrder: seq<string>, heap: Heap)
    requires event.previous.Some? && event.current.Some? ==>
      HandlerOrders(tables.configPropsBinders, cpbOrder,
                    DiffOf(event.previous.value.source, event.current.value.source), diffOrder, refreshOrder)
    requires event.previous.None? || event.current.None? || event.previous.value.source == event.current.value.source
    ensures HandleEventSpec(spring, tables, cpbOrder, event, diffOrder, refreshOrder, heap) == heap
  {
    if event.previous.Some? && event.current.Some? {
      DiffOfEmptyIff(event.previous.value.source, event.current.value.source);
      EnumeratesNothing(diffOrder, DiffOf(event.previous.value.source, event.current.value.source).Keys);
      EnumeratesNothing(refreshOrder, ScheduleAll(tables.configPropsBinders, cpbOrder, diffOrder, KebabPrefixMatches).Keys);
    }
  }

  /** A bean is scheduled for re-binding exactly when some changed key,
      normalised, starts with one of its prefixes. */
  lemma HandlerScheduleIff(configPropsBinders: map<string, Binder>, cpbOrder: seq<string>, diffOrder: seq<string>,
                           beanName: string)
    requires Enumerates(cpbOrder, configPropsBinders.Keys) && DistinctBeanNames(configPropsBinders)
    ensures beanName in ScheduleAll(configPropsBinders, cpbOrder, diffOrder, KebabPrefixMatches) <==>
      exists p, i :: p in configPropsBinders && 0 <= i < |diffOrder|
        && KebabPrefixMatches(diffOrder[i], p) && configPropsBinders[p].beanName == beanName
  {
    ScheduleAllIff(configPropsBinders, cpbOrder, diffOrder, KebabPrefixMatches, beanName);
  }

  /** A bean neither bound to a prefix nor to a changed key by an @Value
      field keeps its state. */
  lemma HandleEventTouchesOnlyBound(spring: Spring, tables: Tables, cpbOrder: seq<string>,
                                    event: ConfigurationChangedEvent, diffOrder: seq<string>,
                                    refreshOrder: seq<string>, heap: Heap, x: BeanRef)
    requires event.previous.Some? && event.current.Some? ==>
      HandlerOrders(tables.configPropsBinders, cpbOrder,
                    DiffOf(event.previous.value.source, event.current.value.source), diffOrder, refreshOrder)
    requires DistinctBeanNames(tables.configPropsBinders)
    requires x in heap
    requires forall p :: p in tables.configPropsBinders ==> tables.configPropsBinders[p].bean != x
    requires UnboundBean(tables.fieldBinders, diffOrder, x)
    ensures HandleEventSpec(spring, tables, cpbOrder, event, diffOrder, refreshOrder, heap)[x] == heap[x]
  {
    if event.previous.Some? && event.current.Some? {
      var cpb := tables.configPropsBinders;
      var toRefresh := ScheduleAll(cpb, cpbOrder, diffOrder, KebabPrefixMatches);
      forall i | 0 <= i < |refreshOrder| ensures toRefresh[refreshOrder[i]].bean != x {
        var n := refreshOrder[i];
        ScheduleAllIff(cpb, cpbOrder, diffOrder, KebabPrefixMatches, n);
        var p, j :| p in cpb && 0 <= j < |diffOrder| && KebabPrefixMatches(diffOrder[j], p) && cpb[p].beanName == n;
        ScheduleAllBinder(cpb, cpbOrder, diffOrder, KebabPrefixMatches, p);
      }
    }
  }

  // ------------------------------------------------------------ the handler

  /** The live bean objects, which the handler writes through reflection. */
  class BeanHeap {
    var objects: Heap

    constructor(objects: Heap)
      ensures this.objects == objects
    {
      this.objects := objects;
    }
  }

  /** ConfigurationChangedEventHandler with the Spring collaborators its
      constructor looks up. */
  class ConfigurationChangedEventHandler {
    const spring: Spring

    constructor(spring: Spring)
      ensures this.spring == spring
    {
      this.spring := spring;
    }

    method ConvertAndBindFieldValue(heap: BeanHeap, val: Option<Value>, binder: Binder) returns (r: Outcome)
      requires binder.bean in heap.objects
      modifies heap
      ensures Effect(heap.objects, r) == BindField(spring, val, binder, old(heap.objects))
    {
      if binder.field.None? {
        return Fail(NullPointer);
      }
      var newExpr := spring.resolveEmbeddedValue(binder.expr);
      if newExpr.Err? {
        return Fail(newExpr.error);
      }
      if binder.expr.None? {
        return Fail(NullPointer);
      }
      var v: Result<FieldValue>;
      if StartsWith(binder.expr.value, SpElPrefix) {
        var evaluated := spring.evaluate(newExpr.value);
        if evaluated.Err? {
          return Fail(evaluated.error);
        }
        v := spring.convert(binder.field.value, evaluated.value);
      } else {
        v := spring.convert(binder.field.value, val);
      }
      if v.Err? {
        return Fail(v.error);
      }
      var written := SetField(heap.objects[binder.bean], binder.field.value, v.value);
      if written.Err? {
        return Fail(written.error);
      }
      heap.objects := heap.objects[binder.bean := written.value];
      return Pass;
    }

    method ProcessValueField(heap: BeanHeap, fieldBinders: map<string, seq<Binder>>, keyRaw: string, val: Option<Value>)
      returns (r: Outcome)
      modifies heap
      ensures Effect(heap.objects, r) == ValueFieldUpdate(spring, fieldBinders, keyRaw, val, old(heap.objects))
    {
      var key := ToKebabCase(keyRaw);
      if key.None? {
        return Fail(NullPointer);
      }
      if key.value !in fieldBinders {
        return Pass;
      }
      var binders := fieldBinders[key.value];
      for i := 0 to |binders|
        invariant ApplyBinders(spring, val, binders[i..], heap.objects) == ApplyBinders(spring, val, binders, old(heap.objects))
      {
        var binder := binders[i];
        assert binders[i..][1..] == binders[i + 1..];
        if binder.bean !in heap.objects {
          continue;
        }
        r := ConvertAndBindFieldValue(heap, val, binder);
        if r.Fail? {
          return;
        }
      }
      return Pass;
    }

    method RemoveMissingMapKeyIfMatch(obj: Obj, path: string, mapKey: string) returns (r: Effect<Obj>)
      ensures r == RemoveMapKey(obj, path, mapKey)
      decreases |path|
    {
      var pos := IndexOf(path, DotSymbol);
      var fields := obj.fields;
      var i := 0;
      while i < |fields|
        invariant 0 <= i <= |fields| == |obj.fields|
        invariant WalkFields(obj.fields, i, path, mapKey) == Walk(fields, false, Pass)
      {
        var f := fields[i];
        if !IsIgnorableField(f) && MatchesPath(path, f.name) {
          if pos == -1 {
            if f.value.MapValue? {
              if f.value.entries.None? {
                WalkStops(obj.fields, i + 1, |obj.fields|, path, mapKey);
                return Effect(Obj(fields), Fail(NullPointer));
              }
              fields := fields[i := f.(value := MapValue(Some(f.value.entries.value - {mapKey})))];
              WalkStops(obj.fields, i + 1, |obj.fields|, path, mapKey);
              return Effect(Obj(fields), Pass);
            }
          } else {
            if f.value.ObjectValue? && f.value.obj.Some? {
              var sr := RemoveMissingMapKeyIfMatch(f.value.obj.value, path[pos + 1..], mapKey);
              fields := fields[i := f.(value := ObjectValue(Some(sr.state)))];
              if sr.outcome.Fail? {
                WalkStops(obj.fields, i + 1, |obj.fields|, path, mapKey);
                return Effect(Obj(fields), sr.outcome);
              }
            } else if !(f.value.MapValue? && f.value.entries.Some?) {
              WalkStops(obj.fields, i + 1, |obj.fields|, path, mapKey);
              return Effect(Obj(fields), Fail(NullPointer));
            }
          }
        }
        i := i + 1;
      }
      return Effect(Obj(fields), Pass);
    }

    method RemoveMissingPropsMapFields(diff: Diff, order: seq<string>, rootBean: Obj, prefix: Option<string>)
      returns (r: Effect<Obj>)
      requires Enumerates(order, diff.Keys)
      ensures r == RemoveMissingAsWritten(diff, order, rootBean, prefix)
    {
      var obj := rootBean;
      for i := 0 to |order|
        invariant RemoveMissingAsWritten(diff, order[i..], obj, prefix) == RemoveMissingAsWritten(diff, order, rootBean, prefix)
      {
        var rawKey := order[i];
        assert order[i..][1..] == order[i + 1..];
        if diff[rawKey].Some? || IsIndexedKeyAsWritten(rawKey) {
          continue;
        }
        var path := FindParentPath(prefix, rawKey);
        if path.Err? {
          return Effect(obj, Fail(path.error));
        }
        var leafKey := LeafKey(rawKey);
        var removed := RemoveMissingMapKeyIfMatch(obj, path.value, leafKey);
        if removed.outcome.Fail? {
          return removed;
        }
        obj := removed.state;
      }
      return Effect(obj, Pass);
    }

    method RebindRelatedConfigurationPropsBeans(heap: BeanHeap, diff: Diff, diffOrder: seq<string>,
                                                toRefresh: map<string, Binder>, refreshOrder: seq<string>)
      returns (r: Outcome)
      requires Enumerates(diffOrder, diff.Keys) && Enumerates(refreshOrder, toRefresh.Keys)
      modifies heap
      ensures Effect(heap.objects, r) == RebindAll(spring, toRefresh, refreshOrder, diff, diffOrder, old(heap.objects))
    {
      for i := 0 to |refreshOrder|
        invariant RebindAll(spring, toRefresh, refreshOrder[i..], diff, diffOrder, heap.objects)
          == RebindAll(spring, toRefresh, refreshOrder, diff, diffOrder, old(heap.objects))
      {
        var beanName := refreshOrder[i];
        var binder := toRefresh[beanName];
        assert refreshOrder[i..][1..] == refreshOrder[i + 1..];
        if binder.bean in heap.objects {
          var bound := spring.rebind(beanName, heap.objects[binder.bean]);
          if bound.Err? {
            return Fail(bound.error);
          }
          var removed := RemoveMissingPropsMapFields(diff, diffOrder, bound.value, binder.expr);
          heap.objects := heap.objects[binder.bean := removed.state];
          if removed.outcome.Fail? {
            return removed.outcome;
          }
        }
      }
      return Pass;
    }

    /** The loop of handleEvent over the diff's entries. */
    method ProcessChangedKeys(heap: BeanHeap, tables: Tables, cpbOrder: seq<string>, diff: Diff, diffOrder: seq<string>)
      returns (toRefresh: map<string, Binder>, r: Outcome)
      requires Enumerates(cpbOrder, tables.configPropsBinders.Keys) && Enumerates(diffOrder, diff.Keys)
      modifies heap
      ensures Effect(heap.objects, r) == DispatchKeys(spring, tables.fieldBinders, diff, diffOrder, old(heap.objects))
      ensures r.Pass? ==> toRefresh == ScheduleAll(tables.configPropsBinders, cpbOrder, diffOrder, KebabPrefixMatches)
    {
      toRefresh := map[];
      for i := 0 to |diffOrder|
        invariant toRefresh == ScheduleAll(tables.configPropsBinders, cpbOrder, diffOrder[..i], KebabPrefixMatches)
        invariant DispatchKeys(spring, tables.fieldBinders, diff, diffOrder[i..], heap.objects)
          == DispatchKeys(spring, tables.fieldBinders, diff, diffOrder, old(heap.objects))
      {
        var key := diffOrder[i];
        assert diffOrder[i..][1..] == diffOrder[i + 1..];
        ScheduleAllSnoc(tables.configPropsBinders, cpbOrder, diffOrder, i, KebabPrefixMatches);
        toRefresh := ProcessConfigPropsClass(tables.configPropsBinders, cpbOrder, toRefresh, key, KebabPrefixMatches);
        r := ProcessValueField(heap, tables.fieldBinders, key, diff[key]);
        if r.Fail? {
          return;
        }
      }
      assert diffOrder[..|diffOrder|] == diffOrder;
      r := Pass;
    }

    method HandleEvent(heap: BeanHeap, tables: Tables, cpbOrder: seq<string>, event: ConfigurationChangedEvent,
                       diffOrder: seq<string>, refreshOrder: seq<string>)
      requires event.previous.Some? && event.current.Some? ==>
        HandlerOrders(tables.configPropsBinders, cpbOrder,
                      DiffOf(event.previous.value.source, event.current.value.source), diffOrder, refreshOrder)
      modifies heap
      ensures heap.objects == HandleEventSpec(spring, tables, cpbOrder, event, diffOrder, refreshOrder, old(heap.objects))
    {
      if event.previous.None? || event.current.None? {
        return;
      }
      var diff := GetPropertyDiff(event.previous.value.source, event.current.value.source);
      var toRefresh, processed := ProcessChangedKeys(heap, tables, cpbOrder, diff, diffOrder);
      if processed.Fail? {
        return;
      }
      var rebound := RebindRelatedConfigurationPropsBeans(heap, diff, diffOrder, toRefresh, refreshOrder);
    }
  }
}
