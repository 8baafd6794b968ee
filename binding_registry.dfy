/**
 * The registry DynamicConfigBeanPostProcessor keeps in three static maps:
 * bean name to bean, normalised property key to the @Value fields bound to
 * it, and @ConfigurationProperties prefix to the bean bound to it. A bean
 * is described by its target class (past AOP proxies and CGLIB subclasses,
 * which the post-processor looks through) and is known by reference.
 */
module BindingRegistry {
  import opened Strings
  import opened KeyNormalization

  /** VALUE_EXPR_PREFIX and SP_EL_PREFIX. */
  const ValueExprPrefix := "$"
  const SpElPrefix := "#"

  /** @ConfigurationProperties: its prefix() and value() attributes. */
  datatype ConfigurationPropertiesAnnotation = ConfigurationPropertiesAnnotation(prefix: string, value: string)

  /** A declared field: its name, its @Value expression when it carries
      one, and whether it carries @DynamicConfig. */
  datatype FieldDecl = FieldDecl(name: string, valueExpr: Option<string>, dynamicConfig: bool)

  /** The bean's target class: @DynamicConfig on the class,
      @ConfigurationProperties on the class, and the declared fields. */
  datatype BeanClass = BeanClass(
    dynamicConfig: bool,
    configurationProperties: Option<ConfigurationPropertiesAnnotation>,
    fields: seq<FieldDecl>)

  /** The identity of a bean object. */
  type BeanRef = nat

  /** ValueBeanFieldBinder: the expression (the @Value text; null for a
      @ConfigurationProperties bean), the bound field (null likewise), the
      referenced bean and its name. */
  datatype Binder = Binder(expr: Option<string>, field: Option<string>, bean: BeanRef, beanName: string)

  /** DYNAMIC_BEAN_MAP, DYNAMIC_FIELD_BINDER_MAP, DYNAMIC_CONFIG_PROPS_BINDER_MAP. */
  datatype Tables = Tables(
    beans: map<string, BeanRef>,
    fieldBinders: map<string, seq<Binder>>,
    configPropsBinders: map<string, Binder>)

  // ------------------------------------------------------------- the key list

  /** One capture of extractValueFromExpr: trimmed, then normalised by the
      regex normaliser, which may throw. */
  function RegexKeyOf(group: string): Result<string> {
    RegexNormalizePropKey(JavaTrim(group))
  }

  /** The values of `keyOf` over the captures, in order, leaving out the
      captures it throws on. */
  function KeepOk(groups: seq<string>, keyOf: string -> Result<string>): (r: seq<string>)
    ensures |r| <= |groups|
  {
    if groups == [] then []
    else
      var key := keyOf(groups[|groups| - 1]);
      KeepOk(groups[..|groups| - 1], keyOf) + (if key.Ok? then [key.value] else [])
  }

  /** A value is kept exactly when some capture yields it. */
  lemma {:induction false} KeepOkMembers(groups: seq<string>, keyOf: string -> Result<string>, k: string)
    ensures k in KeepOk(groups, keyOf) <==> exists i :: 0 <= i < |groups| && keyOf(groups[i]) == Ok(k)
  {
    if groups != [] {
      var n := |groups| - 1;
      var init := groups[..n];
      KeepOkMembers(init, keyOf, k);
      if k in KeepOk(init, keyOf) {
        var i :| 0 <= i < |init| && keyOf(init[i]) == Ok(k);
        assert groups[i] == init[i];
      }
      if exists i :: 0 <= i < |groups| && keyOf(groups[i]) == Ok(k) {
        var i :| 0 <= i < |groups| && keyOf(groups[i]) == Ok(k);
        if i < n {
          assert groups[i] == init[i];
        }
      }
    }
  }

  /** When no capture throws, one value per capture, in order. */
  lemma {:induction false} KeepOkAllOk(groups: seq<string>, keyOf: string -> Result<string>)
    requires forall i :: 0 <= i < |groups| ==> keyOf(groups[i]).Ok?
    ensures |KeepOk(groups, keyOf)| == |groups|
    ensures forall i :: 0 <= i < |groups| ==> keyOf(groups[i]) == Ok(KeepOk(groups, keyOf)[i])
  {
    if groups != [] {
      var init := groups[..|groups| - 1];
      forall i | 0 <= i < |init| ensures keyOf(init[i]).Ok? {
        assert init[i] == groups[i];
      }
      KeepOkAllOk(init, keyOf);
      forall i | 0 <= i < |groups| ensures keyOf(groups[i]) == Ok(KeepOk(groups, keyOf)[i]) {
        if i < |init| {
          assert init[i] == groups[i];
        }
      }
    }
  }

  /** The post-processor's extractValueFromExpr: the normalised key of each
      placeholder, in order; a capture whose normalisation throws is caught
      and left out. */
  function RegexKeys(groups: seq<string>): (r: seq<string>)
    ensures |r| <= |groups|
  {
    KeepOk(groups, RegexKeyOf)
  }

  /** A key is extracted exactly when some capture normalises to it. */
  lemma RegexKeysMembers(groups: seq<string>, k: string)
    ensures k in RegexKeys(groups) <==> exists i :: 0 <= i < |groups| && RegexKeyOf(groups[i]) == Ok(k)
  {
    KeepOkMembers(groups, RegexKeyOf, k);
  }

  /** When no capture throws, there is one key per capture, in order. */
  lemma RegexKeysAllOk(groups: seq<string>)
    requires forall i :: 0 <= i < |groups| ==> RegexKeyOf(groups[i]).Ok?
    ensures |RegexKeys(groups)| == |groups|
    ensures forall i :: 0 <= i < |groups| ==> RegexKeyOf(groups[i]) == Ok(RegexKeys(groups)[i])
  {
    KeepOkAllOk(groups, RegexKeyOf);
  }

  /** `${a$B}` yields no key: its normalisation throws and the catch drops it. */
  lemma RegexKeysDropThrowing(g: string)
    requires g == "a$B"
    ensures RegexKeys([g]) == []
  {
    assert TrimStart(g, IsTrimmable) == g;
    assert TrimEnd(g, IsTrimmable) == g;
    assert g[1] == '$' && IsUpper(g[2]);
    RegexNormalizeThrowsIff(g);
    assert RegexKeyOf(g).Err?;
    assert [g][..0] == [];
  }

  /** DynamicConfigBeanPostProcessor.extractValueFromExpr: the matcher loop,
      whose catch drops a key that cannot be normalised. */
  method ExtractRegexKeys(valueExpr: string) returns (keys: seq<string>)
    ensures keys == RegexKeys(Placeholders(valueExpr))
  {
    keys := [];
    var pos := 0;
    ghost var done: seq<string> := [];
    while true
      invariant 0 <= pos <= |valueExpr|
      invariant Placeholders(valueExpr) == done + PlaceholdersFrom(valueExpr, pos)
      invariant keys == RegexKeys(done)
      decreases |valueExpr| - pos
    {
      var found := FindPlaceholder(valueExpr, pos);
      if found.None? {
        assert done + [] == done;
        break;
      }
      var m := found.value;
      ExtractStep(valueExpr, pos, done, m);
      var key := RegexNormalizePropKey(JavaTrim(m.key));
      if key.Ok? {
        keys := keys + [key.value];
      }
      done := done + [m.key];
      pos := m.end;
    }
  }

  /** One turn of the matcher loop: the match moves from what is left to
      what is done, and its normalised key, if any, onto the key list. */
  lemma ExtractStep(valueExpr: string, pos: nat, done: seq<string>, m: PlaceholderMatch)
    requires pos <= |valueExpr| && FindPlaceholder(valueExpr, pos) == Some(m)
    ensures m.end <= |valueExpr|
    ensures done + PlaceholdersFrom(valueExpr, pos) == (done + [m.key]) + PlaceholdersFrom(valueExpr, m.end)
    ensures RegexKeys(done + [m.key])
      == RegexKeys(done) + (if RegexKeyOf(m.key).Ok? then [RegexKeyOf(m.key).value] else [])
  {
    PlaceholdersStep(valueExpr, pos, done, m);
    assert (done + [m.key])[..|done|] == done;
  }

  // ------------------------------------------------------ registering fields

  /** A field is dynamic when it carries @Value and @DynamicConfig is on its
      class or on the field itself. */
  predicate IsDynamicField(f: FieldDecl, classLevel: bool) {
    f.valueExpr.Some? && (classLevel || f.dynamicConfig)
  }

  /** ...and it is bound when its expression is a placeholder or SpEL. */
  predicate IsBoundField(f: FieldDecl, classLevel: bool) {
    IsDynamicField(f, classLevel)
    && (StartsWith(f.valueExpr.value, ValueExprPrefix) || StartsWith(f.valueExpr.value, SpElPrefix))
  }

  function FieldKeys(f: FieldDecl): seq<string>
    requires f.valueExpr.Some?
  {
    RegexKeys(Placeholders(f.valueExpr.value))
  }

  function FieldBinder(f: FieldDecl, bean: BeanRef, beanName: string): Binder {
    Binder(f.valueExpr, Some(f.name), bean, beanName)
  }

  /** The binder list of a key, empty when the key has none. */
  function Lookup(fieldBinders: map<string, seq<Binder>>, key: string): seq<Binder> {
    if key in fieldBinders then fieldBinders[key] else []
  }

  /** One binder appended to the list of each key, in order. */
  function AddKeys(fieldBinders: map<string, seq<Binder>>, keys: seq<string>, b: Binder)
    : map<string, seq<Binder>>
  {
    if keys == [] then fieldBinders
    else
      var before := AddKeys(fieldBinders, keys[..|keys| - 1], b);
      var key := keys[|keys| - 1];
      before[key := Lookup(before, key) + [b]]
  }

  /** The field loop of handleDynamicBean over fields in declaration order. */
  function AddFields(fieldBinders: map<string, seq<Binder>>, fields: seq<FieldDecl>, classLevel: bool,
                     bean: BeanRef, beanName: string): map<string, seq<Binder>>
  {
    if fields == [] then fieldBinders
    else
      var before := AddFields(fieldBinders, fields[..|fields| - 1], classLevel, bean, beanName);
      var f := fields[|fields| - 1];
      if IsBoundField(f, classLevel) then AddKeys(before, FieldKeys(f), FieldBinder(f, bean, beanName))
      else before
  }

  /** One more field: its binder is added under its keys when it is bound. */
  lemma AddFieldsSnoc(fieldBinders: map<string, seq<Binder>>, fields: seq<FieldDecl>, i: nat, classLevel: bool,
                      bean: BeanRef, beanName: string)
    requires i < |fields|
    ensures var before := AddFields(fieldBinders, fields[..i], classLevel, bean, beanName);
      AddFields(fieldBinders, fields[..i + 1], classLevel, bean, beanName)
      == if IsBoundField(fields[i], classLevel)
         then AddKeys(before, FieldKeys(fields[i]), FieldBinder(fields[i], bean, beanName))
         else before
  {
    AddFieldsLast(fieldBinders, fields[..i + 1], classLevel, bean, beanName);
    assert fields[..i + 1][..i] == fields[..i];
  }

  /** The prefix a @ConfigurationProperties class binds: prefix() when it
      has text, else value(). */
  function EffectivePrefix(a: ConfigurationPropertiesAnnotation): string {
    if HasText(a.prefix) then a.prefix else a.value
  }

  /** bindConfigurationProperties: putIfAbsent, so the first bean wins. */
  function BindProps(configPropsBinders: map<string, Binder>, a: ConfigurationPropertiesAnnotation,
                     bean: BeanRef, beanName: string): map<string, Binder>
  {
    var prefix := EffectivePrefix(a);
    if prefix in configPropsBinders then configPropsBinders
    else configPropsBinders[prefix := Binder(None, None, bean, beanName)]
  }

  /** handleDynamicBean. */
  function Register(t: Tables, bean: BeanRef, cls: BeanClass, beanName: string): Tables {
    if beanName in t.beans then t
    else
      var t1 := t.(beans := t.beans[beanName := bean]);
      if cls.dynamicConfig && cls.configurationProperties.Some? then
        t1.(configPropsBinders := BindProps(t.configPropsBinders, cls.configurationProperties.value, bean, beanName))
      else
        t1.(fieldBinders := AddFields(t.fieldBinders, cls.fields, cls.dynamicConfig, bean, beanName))
  }

  /** handleDynamicConfigurationBeans over the beans in the order the
      application context hands them out. */
  function RegisterAll(t: Tables, dynamicBeans: seq<(string, BeanRef, BeanClass)>): Tables {
    if dynamicBeans == [] then t
    else
      var (name, bean, cls) := dynamicBeans[|dynamicBeans| - 1];
      Register(RegisterAll(t, dynamicBeans[..|dynamicBeans| - 1]), bean, cls, name)
  }

  // ---------------------------------------------------------------- the class

  /** The three static tables. */
  class Registry {
    var beans: map<string, BeanRef>
    var fieldBinders: map<string, seq<Binder>>
    var configPropsBinders: map<string, Binder>

    ghost function View(): Tables
      reads this
    {
      Tables(beans, fieldBinders, configPropsBinders)
    }

    /** The static initialisers: three empty maps. */
    constructor()
      ensures View() == Tables(map[], map[], map[])
    {
      beans := map[];
      fieldBinders := map[];
      configPropsBinders := map[];
    }

    /** The DynamicConfigBeanPostProcessor constructor: it rejects a bean
        factory that is not a ConfigurableListableBeanFactory, and otherwise
        clears the three tables. */
    method Reset(configurableFactory: bool) returns (r: Outcome)
      modifies this
      ensures !configurableFactory ==> r == Fail(IllegalArgument) && View() == old(View())
      ensures configurableFactory ==> r == Pass && View() == Tables(map[], map[], map[])
    {
      if !configurableFactory {
        return Fail(IllegalArgument);
      }
      beans := map[];
      fieldBinders := map[];
      configPropsBinders := map[];
      return Pass;
    }

    /** bindConfigurationProperties. */
    method BindConfigurationProperties(a: ConfigurationPropertiesAnnotation, bean: BeanRef, beanName: string)
      modifies this
      ensures View() == old(View()).(configPropsBinders := BindProps(old(configPropsBinders), a, bean, beanName))
    {
      var prefix := a.prefix;
      if !HasText(prefix) {
        prefix := a.value;
      }
      if prefix !in configPropsBinders {
        configPropsBinders := configPropsBinders[prefix := Binder(None, None, bean, beanName)];
      }
    }

    /** The inner loop: one binder appended for each extracted key. */
    method AppendForKeys(keys: seq<string>, b: Binder)
      modifies this
      ensures View() == old(View()).(fieldBinders := AddKeys(old(fieldBinders), keys, b))
    {
      ghost var start := fieldBinders;
      for j := 0 to |keys|
        invariant beans == old(beans) && configPropsBinders == old(configPropsBinders)
        invariant fieldBinders == AddKeys(start, keys[..j], b)
      {
        var key := keys[j];
        if key !in fieldBinders {
          fieldBinders := fieldBinders[key := []];
        }
        fieldBinders := fieldBinders[key := fieldBinders[key] + [b]];
        assert keys[..j + 1][..j] == keys[..j];
      }
      assert keys[..|keys|] == keys;
    }

    /** handleDynamicBean. */
    method HandleDynamicBean(bean: BeanRef, cls: BeanClass, beanName: string)
      modifies this
      ensures View() == Register(old(View()), bean, cls, beanName)
    {
      if beanName in beans {
        return;
      }
      beans := beans[beanName := bean];
      var classLevel := cls.dynamicConfig;
      if classLevel && cls.configurationProperties.Some? {
        BindConfigurationProperties(cls.configurationProperties.value, bean, beanName);
        return;
      }
      ghost var start := fieldBinders;
      for i := 0 to |cls.fields|
        invariant beans == old(beans)[beanName := bean] && configPropsBinders == old(configPropsBinders)
        invariant fieldBinders == AddFields(start, cls.fields[..i], classLevel, bean, beanName)
      {
        var f := cls.fields[i];
        AddFieldsSnoc(start, cls.fields, i, classLevel, bean, beanName);
        var isDynamic := f.valueExpr.Some? && (classLevel || f.dynamicConfig);
        if isDynamic {
          var valueExpr := f.valueExpr.value;
          if StartsWith(valueExpr, ValueExprPrefix) || StartsWith(valueExpr, SpElPrefix) {
            var propKeyList := ExtractRegexKeys(valueExpr);
            AppendForKeys(propKeyList, Binder(f.valueExpr, Some(f.name), bean, beanName));
          }
        }
      }
      assert cls.fields[..|cls.fields|] == cls.fields;
    }

    /** handleDynamicConfigurationBeans. */
    method HandleDynamicConfigurationBeans(dynamicBeans: seq<(string, BeanRef, BeanClass)>)
      modifies this
      ensures View() == RegisterAll(old(View()), dynamicBeans)
    {
      for i := 0 to |dynamicBeans|
        invariant View() == RegisterAll(old(View()), dynamicBeans[..i])
      {
        var (name, bean, cls) := dynamicBeans[i];
        assert dynamicBeans[..i + 1][..i] == dynamicBeans[..i];
        HandleDynamicBean(bean, cls, name);
      }
      assert dynamicBeans[..|dynamicBeans|] == dynamicBeans;
    }

    /** postProcessBeforeInitialization: register, hand the bean back. */
    method PostProcessBeforeInitialization(bean: BeanRef, cls: BeanClass, beanName: string) returns (r: BeanRef)
      modifies this
      ensures r == bean && View() == Register(old(View()), bean, cls, beanName)
    {
      HandleDynamicBean(bean, cls, beanName);
      return bean;
    }
  }

  // --------------------------------------------------------------- properties

  /** A second registration under a known bean name changes nothing, whatever
      bean and class it brings. */
  lemma RegisterIdempotent(t: Tables, bean: BeanRef, cls: BeanClass, beanName: string,
                           bean2: BeanRef, cls2: BeanClass)
    ensures Register(Register(t, bean, cls, beanName), bean2, cls2, beanName) == Register(t, bean, cls, beanName)
  {
  }

  /** b, n times. */
  function Repeat(b: Binder, n: nat): (r: seq<Binder>)
    ensures |r| == n && forall i :: 0 <= i < n ==> r[i] == b
  {
    if n == 0 then [] else Repeat(b, n - 1) + [b]
  }

  /** How many times key occurs in keys. */
  function Count(keys: seq<string>, key: string): nat {
    if keys == [] then 0
    else Count(keys[..|keys| - 1], key) + (if keys[|keys| - 1] == key then 1 else 0)
  }

  /** The binders a field list contributes to one key, in field order: each
      bound field's binder once per occurrence of the key in its expression. */
  function KeyBinders(fields: seq<FieldDecl>, classLevel: bool, bean: BeanRef, beanName: string, key: string)
    : seq<Binder>
  {
    if fields == [] then []
    else
      var f := fields[|fields| - 1];
      KeyBinders(fields[..|fields| - 1], classLevel, bean, beanName, key)
      + (if IsBoundField(f, classLevel) then Repeat(FieldBinder(f, bean, beanName), Count(FieldKeys(f), key)) else [])
  }

  /** Appending for a key list adds the binder to one key as many times as
      the key occurs, and to no other key. */
  lemma {:induction false} AddKeysLookup(fieldBinders: map<string, seq<Binder>>, keys: seq<string>, b: Binder, key: string)
    ensures Lookup(AddKeys(fieldBinders, keys, b), key) == Lookup(fieldBinders, key) + Repeat(b, Count(keys, key))
  {
    if keys != [] {
      AddKeysLookup(fieldBinders, keys[..|keys| - 1], b, key);
      if keys[|keys| - 1] == key {
        assert Repeat(b, Count(keys, key)) == Repeat(b, Count(keys[..|keys| - 1], key)) + [b];
      }
    }
  }

  /** The field loop leaves every key's list as it was, followed by the
      binders of the bound fields that name it. */
  lemma {:induction false} AddFieldsLookup(fieldBinders: map<string, seq<Binder>>, fields: seq<FieldDecl>,
                                           classLevel: bool, bean: BeanRef, beanName: string, key: string)
    ensures Lookup(AddFields(fieldBinders, fields, classLevel, bean, beanName), key)
      == Lookup(fieldBinders, key) + KeyBinders(fields, classLevel, bean, beanName, key)
  {
    if fields != [] {
      var init := fields[..|fields| - 1];
      var f := fields[|fields| - 1];
      var before := AddFields(fieldBinders, init, classLevel, bean, beanName);
      var b := FieldBinder(f, bean, beanName);
      AddFieldsLookup(fieldBinders, init, classLevel, bean, beanName, key);
      AddFieldsLast(fieldBinders, fields, classLevel, bean, beanName);
      KeyBindersLast(fields, classLevel, bean, beanName, key);
      if IsBoundField(f, classLevel) {
        AddKeysLookup(before, FieldKeys(f), b, key);
      }
    }
  }

  /** AddFields unfolded once at the last field. */
  lemma AddFieldsLast(fieldBinders: map<string, seq<Binder>>, fields: seq<FieldDecl>, classLevel: bool,
                      bean: BeanRef, beanName: string)
    requires fields != []
    ensures var f := fields[|fields| - 1];
      var before := AddFields(fieldBinders, fields[..|fields| - 1], classLevel, bean, beanName);
      AddFields(fieldBinders, fields, classLevel, bean, beanName)
      == if IsBoundField(f, classLevel) then AddKeys(before, FieldKeys(f), FieldBinder(f, bean, beanName)) else before
  {
  }

  /** KeyBinders unfolded once at the last field. */
  lemma KeyBindersLast(fields: seq<FieldDecl>, classLevel: bool, bean: BeanRef, beanName: string, key: string)
    requires fields != []
    ensures var f := fields[|fields| - 1];
      KeyBinders(fields, classLevel, bean, beanName, key)
      == KeyBinders(fields[..|fields| - 1], classLevel, bean, beanName, key)
         + if IsBoundField(f, classLevel) then Repeat(FieldBinder(f, bean, beanName), Count(FieldKeys(f), key)) else []
  {
  }

  /** Binder lists only grow: every key keeps its list as a prefix, and the
      other two tables keep every entry. */
  lemma RegisterGrows(t: Tables, bean: BeanRef, cls: BeanClass, beanName: string, key: string)
    ensures var r := Register(t, bean, cls, beanName);
      && Lookup(t.fieldBinders, key) <= Lookup(r.fieldBinders, key)
      && (forall n :: n in t.beans ==> n in r.beans && r.beans[n] == t.beans[n])
      && (forall p :: p in t.configPropsBinders ==>
            (p in r.configPropsBinders && r.configPropsBinders[p] == t.configPropsBinders[p]))
  {
    if beanName !in t.beans && !(cls.dynamicConfig && cls.configurationProperties.Some?) {
      AddFieldsLookup(t.fieldBinders, cls.fields, cls.dynamicConfig, bean, beanName, key);
    }
  }

  /** A new bean of a @DynamicConfig @ConfigurationProperties class binds
      only its prefix, and only when no bean holds that prefix yet. */
  lemma ConfigPropsClassBindsOnlyPrefix(t: Tables, bean: BeanRef, cls: BeanClass, beanName: string)
    requires beanName !in t.beans && cls.dynamicConfig && cls.configurationProperties.Some?
    ensures var r := Register(t, bean, cls, beanName);
      var prefix := EffectivePrefix(cls.configurationProperties.value);
      && r.fieldBinders == t.fieldBinders
      && r.beans == t.beans[beanName := bean]
      && r.configPropsBinders.Keys == t.configPropsBinders.Keys + {prefix}
      && (prefix in t.configPropsBinders ==> r.configPropsBinders == t.configPropsBinders)
      && (prefix !in t.configPropsBinders ==> r.configPropsBinders[prefix] == Binder(None, None, bean, beanName))
  {
  }

  /** A new bean of any other class binds exactly its bound fields: a field
      without @Value, without @DynamicConfig on it or its class, or whose
      expression starts with neither '$' nor '#' adds no binder. */
  lemma OtherClassBindsFields(t: Tables, bean: BeanRef, cls: BeanClass, beanName: string, key: string)
    requires beanName !in t.beans && !(cls.dynamicConfig && cls.configurationProperties.Some?)
    ensures var r := Register(t, bean, cls, beanName);
      && r.configPropsBinders == t.configPropsBinders
      && Lookup(r.fieldBinders, key) == Lookup(t.fieldBinders, key) + KeyBinders(cls.fields, cls.dynamicConfig, bean, beanName, key)
  {
    AddFieldsLookup(t.fieldBinders, cls.fields, cls.dynamicConfig, bean, beanName, key);
  }

  /** A class whose fields are all unbound adds no binder to any key. */
  lemma {:induction false} UnboundFieldsAddNothing(fields: seq<FieldDecl>, classLevel: bool, bean: BeanRef,
                                                   beanName: string, key: string)
    requires forall i :: 0 <= i < |fields| ==> !IsBoundField(fields[i], classLevel)
    ensures KeyBinders(fields, classLevel, bean, beanName, key) == []
  {
    if fields != [] {
      UnboundFieldsAddNothing(fields[..|fields| - 1], classLevel, bean, beanName, key);
    }
  }

  // ------------------------------------------------------- the table invariant

  /** Every binder names a registered bean by its registered reference, and
      no two prefixes are bound to the same bean name. */
  ghost predicate Valid(t: Tables) {
    (forall k, i :: k in t.fieldBinders && 0 <= i < |t.fieldBinders[k]| ==>
       t.fieldBinders[k][i].beanName in t.beans && t.beans[t.fieldBinders[k][i].beanName] == t.fieldBinders[k][i].bean)
    && (forall p :: p in t.configPropsBinders ==>
       t.configPropsBinders[p].beanName in t.beans && t.beans[t.configPropsBinders[p].beanName] == t.configPropsBinders[p].bean)
    && DistinctBeanNames(t.configPropsBinders)
  }

  predicate DistinctBeanNames(configPropsBinders: map<string, Binder>) {
    forall p1, p2 :: p1 in configPropsBinders && p2 in configPropsBinders && p1 != p2 ==>
      configPropsBinders[p1].beanName != configPropsBinders[p2].beanName
  }

  /** The binders a field list contributes all reference the bean. */
  lemma {:induction false} KeyBindersOwn(fields: seq<FieldDecl>, classLevel: bool, bean: BeanRef,
                                         beanName: string, key: string)
    ensures forall b :: b in KeyBinders(fields, classLevel, bean, beanName, key) ==>
      b.bean == bean && b.beanName == beanName
  {
    if fields != [] {
      KeyBindersOwn(fields[..|fields| - 1], classLevel, bean, beanName, key);
    }
  }

  /** Registration keeps the invariant. */
  lemma RegisterKeepsValid(t: Tables, bean: BeanRef, cls: BeanClass, beanName: string)
    requires Valid(t)
    ensures Valid(Register(t, bean, cls, beanName))
  {
    var r := Register(t, bean, cls, beanName);
    if beanName !in t.beans && !(cls.dynamicConfig && cls.configurationProperties.Some?) {
      forall k, i | k in r.fieldBinders && 0 <= i < |r.fieldBinders[k]|
        ensures r.fieldBinders[k][i].beanName in r.beans
        ensures r.beans[r.fieldBinders[k][i].beanName] == r.fieldBinders[k][i].bean
      {
        AddFieldsLookup(t.fieldBinders, cls.fields, cls.dynamicConfig, bean, beanName, k);
        KeyBindersOwn(cls.fields, cls.dynamicConfig, bean, beanName, k);
        assert r.fieldBinders[k] == Lookup(r.fieldBinders, k);
        if i >= |Lookup(t.fieldBinders, k)| {
          assert r.fieldBinders[k][i] in KeyBinders(cls.fields, cls.dynamicConfig, bean, beanName, k);
        }
      }
    }
  }

  // ------------------------------------------------- matching by prefix

  /** processConfigPropsClass for one changed key: the prefix table is
      visited in `order`, and every prefix that `matches` accepts puts its
      binder into the refresh table under the binder's bean name. */
  function Schedule(result: map<string, Binder>, configPropsBinders: map<string, Binder>, order: seq<string>,
                    key: string, matches: (string, string) -> bool): map<string, Binder>
    requires forall i :: 0 <= i < |order| ==> order[i] in configPropsBinders
  {
    if order == [] then result
    else
      var before := Schedule(result, configPropsBinders, order[..|order| - 1], key, matches);
      var prefix := order[|order| - 1];
      if matches(key, prefix) then before[configPropsBinders[prefix].beanName := configPropsBinders[prefix]]
      else before
  }

  method ProcessConfigPropsClass(configPropsBinders: map<string, Binder>, order: seq<string>,
                                 result: map<string, Binder>, key: string, matches: (string, string) -> bool)
    returns (r: map<string, Binder>)
    requires Enumerates(order, configPropsBinders.Keys)
    ensures r == Schedule(result, configPropsBinders, order, key, matches)
  {
    r := result;
    for i := 0 to |order|
      invariant r == Schedule(result, configPropsBinders, order[..i], key, matches)
    {
      var prefix := order[i];
      var binder := configPropsBinders[prefix];
      assert order[..i + 1][..i] == order[..i];
      if matches(key, prefix) {
        r := r[binder.beanName := binder];
      }
    }
    assert order[..|order|] == order;
  }

  /** The refresh table holds a bean name exactly when it held it before or
      a matching prefix is bound to that bean; with distinct bean names the
      entry is that prefix's binder, and untouched entries keep their value.
      Over an enumeration of the prefix table this does not depend on the
      visiting order. */
  lemma {:induction false} ScheduleIff(result: map<string, Binder>, configPropsBinders: map<string, Binder>,
                                       order: seq<string>, key: string, matches: (string, string) -> bool, n: string)
    requires forall i :: 0 <= i < |order| ==> order[i] in configPropsBinders
    requires DistinctBeanNames(configPropsBinders)
    ensures var r := Schedule(result, configPropsBinders, order, key, matches);
      && (n in r <==>
            (n in result || exists i :: 0 <= i < |order| && matches(key, order[i]) && configPropsBinders[order[i]].beanName == n))
      && (forall i :: 0 <= i < |order| && matches(key, order[i]) && configPropsBinders[order[i]].beanName == n ==>
            r[n] == configPropsBinders[order[i]])
      && ((n in result && forall i :: 0 <= i < |order| ==> !(matches(key, order[i]) && configPropsBinders[order[i]].beanName == n))
            ==> r[n] == result[n])
  {
    if order != [] {
      var init := order[..|order| - 1];
      var last := |order| - 1;
      ScheduleIff(result, configPropsBinders, init, key, matches, n);
      var r := Schedule(result, configPropsBinders, order, key, matches);
      if n in r && n !in result && !(matches(key, order[last]) && configPropsBinders[order[last]].beanName == n) {
        var i :| 0 <= i < |init| && matches(key, init[i]) && configPropsBinders[init[i]].beanName == n;
        assert order[i] == init[i];
      }
      forall i | 0 <= i < |order| && matches(key, order[i]) && configPropsBinders[order[i]].beanName == n
        ensures n in r && r[n] == configPropsBinders[order[i]]
      {
        if i < last {
          assert order[i] == init[i];
          if matches(key, order[last]) && configPropsBinders[order[last]].beanName == n {
            assert order[i] == order[last];
          }
        }
      }
      if n in result && forall i :: 0 <= i < |order| ==> !(matches(key, order[i]) && configPropsBinders[order[i]].beanName == n) {
        forall i | 0 <= i < |init| ensures !(matches(key, init[i]) && configPropsBinders[init[i]].beanName == n) {
          assert init[i] == order[i];
        }
      }
    }
  }

  /** The membership half of ScheduleIff. */
  lemma ScheduleHas(result: map<string, Binder>, configPropsBinders: map<string, Binder>,
                    order: seq<string>, key: string, matches: (string, string) -> bool, n: string)
    requires forall i :: 0 <= i < |order| ==> order[i] in configPropsBinders
    requires DistinctBeanNames(configPropsBinders)
    ensures n in Schedule(result, configPropsBinders, order, key, matches) <==>
      (n in result || exists i :: 0 <= i < |order| && matches(key, order[i]) && configPropsBinders[order[i]].beanName == n)
  {
    ScheduleIff(result, configPropsBinders, order, key, matches, n);
  }

  /** The refresh table built over the keys of a diff, in their iteration
      order, starting empty. */
  function ScheduleAll(configPropsBinders: map<string, Binder>, order: seq<string>, changedKeys: seq<string>,
                       matches: (string, string) -> bool): map<string, Binder>
    requires forall i :: 0 <= i < |order| ==> order[i] in configPropsBinders
  {
    if changedKeys == [] then map[]
    else
      Schedule(ScheduleAll(configPropsBinders, order, changedKeys[..|changedKeys| - 1], matches),
               configPropsBinders, order, changedKeys[|changedKeys| - 1], matches)
  }

  /** A bean is scheduled exactly when some changed key matches one of its
      prefixes. */
  lemma ScheduleAllIff(configPropsBinders: map<string, Binder>, order: seq<string>,
                       changedKeys: seq<string>, matches: (string, string) -> bool, n: string)
    requires Enumerates(order, configPropsBinders.Keys) && DistinctBeanNames(configPropsBinders)
    ensures n in ScheduleAll(configPropsBinders, order, changedKeys, matches) <==>
      exists p, i :: p in configPropsBinders && 0 <= i < |changedKeys|
        && matches(changedKeys[i], p) && configPropsBinders[p].beanName == n
  {
    if n in ScheduleAll(configPropsBinders, order, changedKeys, matches) {
      ScheduleAllSound(configPropsBinders, order, changedKeys, matches, n);
    }
    if exists p, i :: p in configPropsBinders && 0 <= i < |changedKeys|
         && matches(changedKeys[i], p) && configPropsBinders[p].beanName == n
    {
      var p, i :| p in configPropsBinders && 0 <= i < |changedKeys|
        && matches(changedKeys[i], p) && configPropsBinders[p].beanName == n;
      ScheduleAllComplete(configPropsBinders, order, changedKeys, matches, p, i);
    }
  }

  /** Every scheduled bean has a prefix that some changed key matches. */
  lemma {:induction false} ScheduleAllSound(configPropsBinders: map<string, Binder>, order: seq<string>,
                                            changedKeys: seq<string>, matches: (string, string) -> bool, n: string)
    requires Enumerates(order, configPropsBinders.Keys) && DistinctBeanNames(configPropsBinders)
    requires n in ScheduleAll(configPropsBinders, order, changedKeys, matches)
    ensures exists p, i ::
              p in configPropsBinders && 0 <= i < |changedKeys|
              && matches(changedKeys[i], p) && configPropsBinders[p].beanName == n
  {
    var init := changedKeys[..|changedKeys| - 1];
    var last := |changedKeys| - 1;
    var before := ScheduleAll(configPropsBinders, order, init, matches);
    ScheduleHas(before, configPropsBinders, order, changedKeys[last], matches, n);
    if n in before {
      ScheduleAllSound(configPropsBinders, order, init, matches, n);
      var p, i :| p in configPropsBinders && 0 <= i < |init|
        && matches(init[i], p) && configPropsBinders[p].beanName == n;
      assert changedKeys[i] == init[i];
    } else {
      var j :| 0 <= j < |order| && matches(changedKeys[last], order[j]) && configPropsBinders[order[j]].beanName == n;
      assert order[j] in configPropsBinders;
    }
  }

  /** A bean whose prefix p matches the i-th changed key is scheduled. */
  lemma {:induction false} ScheduleAllComplete(configPropsBinders: map<string, Binder>, order: seq<string>,
                                               changedKeys: seq<string>, matches: (string, string) -> bool,
                                               p: string, i: nat)
    requires Enumerates(order, configPropsBinders.Keys) && DistinctBeanNames(configPropsBinders)
    requires p in configPropsBinders && i < |changedKeys| && matches(changedKeys[i], p)
    ensures configPropsBinders[p].beanName in ScheduleAll(configPropsBinders, order, changedKeys, matches)
  {
    var n := configPropsBinders[p].beanName;
    var init := changedKeys[..|changedKeys| - 1];
    var last := |changedKeys| - 1;
    var before := ScheduleAll(configPropsBinders, order, init, matches);
    ScheduleHas(before, configPropsBinders, order, changedKeys[last], matches, n);
    if i < last {
      assert init[i] == changedKeys[i];
      ScheduleAllComplete(configPropsBinders, order, init, matches, p, i);
    } else {
      var j :| 0 <= j < |order| && order[j] == p;
    }
  }

  /** ...and then under the binder of its own prefix. */
  lemma {:induction false} ScheduleAllBinder(configPropsBinders: map<string, Binder>, order: seq<string>,
                                             changedKeys: seq<string>, matches: (string, string) -> bool, p: string)
    requires Enumerates(order, configPropsBinders.Keys) && DistinctBeanNames(configPropsBinders)
    requires p in configPropsBinders
    ensures var r := ScheduleAll(configPropsBinders, order, changedKeys, matches);
      configPropsBinders[p].beanName in r ==> r[configPropsBinders[p].beanName] == configPropsBinders[p]
  {
    if changedKeys != [] {
      var n := configPropsBinders[p].beanName;
      var init := changedKeys[..|changedKeys| - 1];
      var key := changedKeys[|changedKeys| - 1];
      var before := ScheduleAll(configPropsBinders, order, init, matches);
      ScheduleAllBinder(configPropsBinders, order, init, matches, p);
      ScheduleIff(before, configPropsBinders, order, key, matches, n);
      var j :| 0 <= j < |order| && order[j] == p;
      if exists i :: 0 <= i < |order| && matches(key, order[i]) && configPropsBinders[order[i]].beanName == n {
        var i :| 0 <= i < |order| && matches(key, order[i]) && configPropsBinders[order[i]].beanName == n;
        assert order[i] == p;
      }
    }
  }

  /** The post-processor's match: the regex-normalised key starts with the
      regex-normalised prefix, ignoring case; a key or prefix that cannot be
      normalised matches nothing. */
  predicate RegexPrefixMatches(key: string, prefix: string) {
    var k := RegexNormalizePropKey(key);
    var q := RegexNormalizePropKey(prefix);
    k.Ok? && q.Ok? && StartsWithIgnoreCase(k.value, q.value)
  }

  /** The post-processor's processConfigPropsClass: the prefix table's
      forEach normalises the key and the prefix at every entry, and the
      first exception leaves the forEach. */
  function OlderSchedule(result: map<string, Binder>, configPropsBinders: map<string, Binder>, order: seq<string>,
                         key: string): Result<map<string, Binder>>
    requires forall i :: 0 <= i < |order| ==> order[i] in configPropsBinders
  {
    if order == [] then Ok(result)
    else
      var before := OlderSchedule(result, configPropsBinders, order[..|order| - 1], key);
      var prefix := order[|order| - 1];
      var k := RegexNormalizePropKey(key);
      var q := RegexNormalizePropKey(prefix);
      if before.Err? then before
      else if k.Err? then Err(k.error)
      else if q.Err? then Err(q.error)
      else if StartsWithIgnoreCase(k.value, q.value) then
        Ok(before.value[configPropsBinders[prefix].beanName := configPropsBinders[prefix]])
      else before
  }

  /** The exception a failing field write of processValueField throws:
      resolveEmbeddedValue, the SpEL evaluation, convertIfNecessary or
      Field.set, none of which is modelled here. */
  const FieldWriteError := Capability("processValueField")

  /** The loop of the post-processor's handleEvent over the changed keys:
      processConfigPropsClass, then processValueField, which normalises the
      key and then writes the bound fields; `writeFails(key)` says whether
      those writes throw for the changed key and its new value. An exception
      ends the loop in the handler's catch. */
  function OlderRefresh(configPropsBinders: map<string, Binder>, order: seq<string>,
                        changedKeys: seq<string>, writeFails: string -> bool): Result<map<string, Binder>>
    requires forall i :: 0 <= i < |order| ==> order[i] in configPropsBinders
  {
    if changedKeys == [] then Ok(map[])
    else
      var before := OlderRefresh(configPropsBinders, order, changedKeys[..|changedKeys| - 1], writeFails);
      var key := changedKeys[|changedKeys| - 1];
      if before.Err? then before
      else
        var r := OlderSchedule(before.value, configPropsBinders, order, key);
        var k := RegexNormalizePropKey(key);
        if r.Err? then r
        else if k.Err? then Err(k.error)
        else if writeFails(key) then Err(FieldWriteError)
        else r
  }

  /** The older handler gives up when a changed key cannot be normalised,
      when some key changed and a registered prefix cannot be, or when the
      field writes for a changed key that can be normalised throw. */
  predicate OlderAborts(configPropsBinders: map<string, Binder>, changedKeys: seq<string>, writeFails: string -> bool) {
    (exists i :: 0 <= i < |changedKeys| && RegexNormalizePropKey(changedKeys[i]).Err?)
    || (|changedKeys| > 0 && exists p :: p in configPropsBinders && RegexNormalizePropKey(p).Err?)
    || (exists i :: 0 <= i < |changedKeys| && writeFails(changedKeys[i]))
  }

  /** processConfigPropsClass throws exactly when the prefix table is not
      empty and the key or a prefix cannot be normalised; otherwise it is
      Schedule under the regex match. */
  lemma {:induction false} OlderScheduleAgrees(result: map<string, Binder>, configPropsBinders: map<string, Binder>,
                                               order: seq<string>, key: string)
    requires forall i :: 0 <= i < |order| ==> order[i] in configPropsBinders
    ensures var r := OlderSchedule(result, configPropsBinders, order, key);
      && (r.Err? <==> |order| > 0 && (RegexNormalizePropKey(key).Err?
                                       || exists i :: 0 <= i < |order| && RegexNormalizePropKey(order[i]).Err?))
      && (r.Ok? ==> r.value == Schedule(result, configPropsBinders, order, key, RegexPrefixMatches))
  {
    if order != [] {
      var init := order[..|order| - 1];
      var last := |order| - 1;
      OlderScheduleAgrees(result, configPropsBinders, init, key);
      var r := OlderSchedule(result, configPropsBinders, order, key);
      if exists i :: 0 <= i < |init| && RegexNormalizePropKey(init[i]).Err? {
        var i :| 0 <= i < |init| && RegexNormalizePropKey(init[i]).Err?;
        assert order[i] == init[i];
      }
      if r.Ok? {
        forall i | 0 <= i < |order| ensures RegexNormalizePropKey(order[i]).Ok? {
          if i < last {
            assert order[i] == init[i];
          }
        }
      }
    }
  }

  /** The handler's loop throws exactly when OlderAborts says; otherwise its
      refresh table is ScheduleAll under the regex match. */
  lemma {:induction false} OlderRefreshAgrees(configPropsBinders: map<string, Binder>, order: seq<string>,
                                              changedKeys: seq<string>, writeFails: string -> bool)
    requires Enumerates(order, configPropsBinders.Keys)
    ensures var r := OlderRefresh(configPropsBinders, order, changedKeys, writeFails);
      && (r.Err? <==> OlderAborts(configPropsBinders, changedKeys, writeFails))
      && (r.Ok? ==> r.value == ScheduleAll(configPropsBinders, order, changedKeys, RegexPrefixMatches))
  {
    if changedKeys != [] {
      var init := changedKeys[..|changedKeys| - 1];
      var key := changedKeys[|changedKeys| - 1];
      OlderRefreshAgrees(configPropsBinders, order, init, writeFails);
      var before := OlderRefresh(configPropsBinders, order, init, writeFails);
      PrefixErrIff(configPropsBinders, order);
      if before.Ok? {
        OlderScheduleAgrees(before.value, configPropsBinders, order, key);
      }
      assert changedKeys == init + [key];
      KeyErrSnoc(init, key);
      WriteFailsSnoc(init, key, writeFails);
    }
  }

  /** A prefix of the table that cannot be normalised sits somewhere in
      `order`, and conversely. */
  lemma PrefixErrIff(configPropsBinders: map<string, Binder>, order: seq<string>)
    requires Enumerates(order, configPropsBinders.Keys)
    ensures (exists p :: p in configPropsBinders && RegexNormalizePropKey(p).Err?) <==>
      (|order| > 0 && exists i :: 0 <= i < |order| && RegexNormalizePropKey(order[i]).Err?)
  {
    if exists p :: p in configPropsBinders && RegexNormalizePropKey(p).Err? {
      var p :| p in configPropsBinders && RegexNormalizePropKey(p).Err?;
      var i :| 0 <= i < |order| && order[i] == p;
    }
  }

  /** A changed key that cannot be normalised is among the earlier keys or
      is the last one. */
  lemma KeyErrSnoc(init: seq<string>, key: string)
    ensures (exists i :: 0 <= i < |init + [key]| && RegexNormalizePropKey((init + [key])[i]).Err?) <==>
      ((exists i :: 0 <= i < |init| && RegexNormalizePropKey(init[i]).Err?) || RegexNormalizePropKey(key).Err?)
  {
    var keys := init + [key];
    if exists i :: 0 <= i < |keys| && RegexNormalizePropKey(keys[i]).Err? {
      var i :| 0 <= i < |keys| && RegexNormalizePropKey(keys[i]).Err?;
      if i < |init| {
        assert init[i] == keys[i];
      }
    }
    if exists i :: 0 <= i < |init| && RegexNormalizePropKey(init[i]).Err? {
      var i :| 0 <= i < |init| && RegexNormalizePropKey(init[i]).Err?;
      assert init[i] == keys[i];
    }
    assert keys[|init|] == key;
  }

  /** A changed key whose field writes throw is among the earlier keys or
      is the last one. */
  lemma WriteFailsSnoc(init: seq<string>, key: string, writeFails: string -> bool)
    ensures (exists i :: 0 <= i < |init + [key]| && writeFails((init + [key])[i])) <==>
      ((exists i :: 0 <= i < |init| && writeFails(init[i])) || writeFails(key))
  {
    var keys := init + [key];
    if exists i :: 0 <= i < |keys| && writeFails(keys[i]) {
      var i :| 0 <= i < |keys| && writeFails(keys[i]);
      if i < |init| {
        assert init[i] == keys[i];
      }
    }
    if exists i :: 0 <= i < |init| && writeFails(init[i]) {
      var i :| 0 <= i < |init| && writeFails(init[i]);
      assert init[i] == keys[i];
    }
    assert keys[|init|] == key;
  }

  /** The bean names the post-processor's handleEvent re-binds: entries of
      its refresh table whose bean is still live; none when the loop threw. */
  function OlderRebound(configPropsBinders: map<string, Binder>, order: seq<string>, changedKeys: seq<string>,
                        writeFails: string -> bool, live: set<BeanRef>): Result<set<string>>
    requires forall i :: 0 <= i < |order| ==> order[i] in configPropsBinders
  {
    match OlderRefresh(configPropsBinders, order, changedKeys, writeFails)
    case Err(e) => Err(e)
    case Ok(toRefresh) => Ok(set n | n in toRefresh && toRefresh[n].bean in live)
  }

  /** The older handler re-binds nothing, by throwing into its catch, exactly
      when a changed key or (some key having changed) a registered prefix
      cannot be normalised, or the field writes of a changed key throw; the
      exception is IllegalArgument unless a field write threw. Otherwise a
      bean is re-bound exactly when some changed key matches one of its
      prefixes and its reference is live. */
  lemma OlderReboundIff(configPropsBinders: map<string, Binder>, order: seq<string>, changedKeys: seq<string>,
                        writeFails: string -> bool, live: set<BeanRef>, n: string)
    requires Enumerates(order, configPropsBinders.Keys) && DistinctBeanNames(configPropsBinders)
    ensures var r := OlderRebound(configPropsBinders, order, changedKeys, writeFails, live);
      && (r.Err? <==> OlderAborts(configPropsBinders, changedKeys, writeFails))
      && (r.Err? ==> r.error == IllegalArgument || r.error == FieldWriteError)
      && (r.Err? && (forall i :: 0 <= i < |changedKeys| ==> !writeFails(changedKeys[i])) ==>
            r.error == IllegalArgument)
      && (r.Ok? ==> (n in r.value <==>
            exists p, i :: p in configPropsBinders && 0 <= i < |changedKeys|
              && RegexPrefixMatches(changedKeys[i], p) && configPropsBinders[p].beanName == n
              && configPropsBinders[p].bean in live))
  {
    OlderRefreshAgrees(configPropsBinders, order, changedKeys, writeFails);
    OlderRefreshErrors(configPropsBinders, order, changedKeys, writeFails);
    ScheduleAllIff(configPropsBinders, order, changedKeys, RegexPrefixMatches, n);
    var toRefresh := ScheduleAll(configPropsBinders, order, changedKeys, RegexPrefixMatches);
    if n in toRefresh {
      var p, i :| p in configPropsBinders && 0 <= i < |changedKeys|
        && RegexPrefixMatches(changedKeys[i], p) && configPropsBinders[p].beanName == n;
      ScheduleAllBinder(configPropsBinders, order, changedKeys, RegexPrefixMatches, p);
    }
  }

  /** The older handler's loop throws the normaliser's IllegalArgument or a
      field write's exception, and the latter only when some write fails. */
  lemma {:induction false} OlderRefreshErrors(configPropsBinders: map<string, Binder>, order: seq<string>,
                                              changedKeys: seq<string>, writeFails: string -> bool)
    requires forall i :: 0 <= i < |order| ==> order[i] in configPropsBinders
    ensures var r := OlderRefresh(configPropsBinders, order, changedKeys, writeFails);
      && (r.Err? ==> r.error == IllegalArgument || r.error == FieldWriteError)
      && (r.Err? && (forall i :: 0 <= i < |changedKeys| ==> !writeFails(changedKeys[i])) ==>
            r.error == IllegalArgument)
  {
    if changedKeys != [] {
      var init := changedKeys[..|changedKeys| - 1];
      OlderRefreshErrors(configPropsBinders, order, init, writeFails);
      var before := OlderRefresh(configPropsBinders, order, init, writeFails);
      if before.Ok? {
        ScheduleErrorsAreIllegalArgument(before.value, configPropsBinders, order, changedKeys[|changedKeys| - 1]);
      }
      if forall i :: 0 <= i < |changedKeys| ==> !writeFails(changedKeys[i]) {
        forall i | 0 <= i < |init| ensures !writeFails(init[i]) {
          assert init[i] == changedKeys[i];
        }
      }
    }
  }

  lemma {:induction false} ScheduleErrorsAreIllegalArgument(result: map<string, Binder>,
                                                            configPropsBinders: map<string, Binder>,
                                                            order: seq<string>, key: string)
    requires forall i :: 0 <= i < |order| ==> order[i] in configPropsBinders
    ensures var r := OlderSchedule(result, configPropsBinders, order, key);
      r.Err? ==> r.error == IllegalArgument
  {
    if order != [] {
      ScheduleErrorsAreIllegalArgument(result, configPropsBinders, order[..|order| - 1], key);
    }
  }
}
