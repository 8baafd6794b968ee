# spring-boot-dynamic-config, hot-reload core, in Dafny

This project models how the Spring Boot add-on spring-boot-dynamic-config
reloads configuration while the application runs, and proves properties of
that model. The reload runs in these stages:

- **Watch targets** (module `WatchTargets`). `spring.config.location` and
  `spring.config.import` are resolved into a table of watched directories,
  keyed by normalised directory. `FileSystemWatchTarget` splits a path into
  a directory and a filter list. `appendToWatchableTargets` merges a new
  target into the table, and `getNeedWatchDirAndPath` / `hasWatchableConf`
  fill the table.
- **Keys and paths** (modules `KeyNormalization`, `PathUtils`):
  - the kebab-case key normaliser `toKebabCase`;
  - `${key:default}` placeholder extraction;
  - the older regex normaliser of the bean post-processor;
  - relative-path and backslash trimming, `normalizePath`, file extensions, comma lists;
  - the config-tree key prefix, prefixing of a property source, and the hidden-path filter.
- **Snapshot diff** (module `PropertyDiff`). `ConfigurationChangedEvent.getPropertyDiff`
  gives added, changed and deleted keys, with `None` for "deleted". The handler
  holds a copy of it. The post-processor holds an older add/update-only copy.
  The module also holds the event record.
- **Binding registry** (module `BindingRegistry`). The post-processor keeps
  three tables: bean name to bean, property key to `@Value` field binders,
  and `@ConfigurationProperties` prefix to bean. The module covers how
  `handleDynamicBean` fills them, and the prefix matching that decides which
  beans are re-bound.
- **Event handler** (module `EventHandler`). `ConfigurationChangedEventHandler`
  applies a diff: it re-sets `@Value` fields through their binders, re-binds
  prefix-matched beans, and removes deleted map keys from the re-bound
  bean's field tree. `EventHandlerExamples` replays the removal scenarios of
  the library's integration tests.
- **Feature gate** (module `FeatureGate`): comma list to set, with the
  `all` wildcard, and the boolean feature switch.
- **Watcher** (module `PropertiesWatcher`). `DynamicConfigPropertiesWatcher`:
  - records the file-backed property sources;
  - decides per changed file whether to reload it (modification time moved, or a forced reload);
  - loads it with the first matching loader, replaces the environment's source and publishes one event;
  - polls the ConfigMap symbolic link.
- **Shared helpers**: `PropertySources` is the environment's ordered source
  list (`get` and `replace`). `Strings` holds the Java string operations used
  throughout (trim, split, indexOf, case).

Java exceptions become `Result`/`Outcome` values, named after the exception
class (`IllegalArgument`, `NullPointer`, `IndexOutOfBounds`).
Where the Java code changes state before it throws, the model keeps those
changes. An `Effect(state, outcome)` pairs the state reached with the
exception, if any.

The code that changes objects in place is modelled as classes whose methods
change fields:
- the watch-target table and a target's filter list;
- the post-processor's registry;
- the live bean objects the handler writes into;
- the watcher.

Each such method's `ensures` ties the new state to a function of the old
state. The properties are proved about those functions.

Hash-map iteration order cannot be predicted, so it is an explicit
parameter: a sequence that enumerates the map's keys.

The file system is a parameter. So are Spring's capabilities:
- property source loaders;
- placeholder resolution;
- SpEL evaluation;
- type conversion;
- the configuration-properties binder.

Where the source files disagree, the model follows each file as written:
- `ConfigurationUtils` refers to a `WATCHABLE_TARGETS` table that the watcher shown does not declare. It is modelled as its own class.
- The handler reads registry tables that the post-processor shown keeps private. They are passed to the handler explicitly.
- The watcher publishes `ConfigurationFileChangedEvent`, while the handler listens for `ConfigurationChangedEvent`. The two are modelled separately.

## Model

| member | source | states |
|---|---|---|
| KeyNormalization.KebabCase | src/main/java/top/code2life/config/ConfigurationUtils.java:249-280 | blank input gives null; otherwise the result has no upper-case letter and no `_` after its first character; the loop builds nothing exactly for the input `-`, which is then returned as it is |
| KeyNormalization.ToKebabCase | src/main/java/top/code2life/config/ConfigurationUtils.java:249-280 | the character loop with its translated flag and output length computes exactly KebabCase |
| KeyNormalization.KebabCaseIdempotent | src/main/java/top/code2life/config/ConfigurationUtils.java:257-279 | normalising a non-blank key that does not start with `-` twice gives the same as once |
| KeyNormalization.KebabCaseFixed | src/main/java/top/code2life/config/ConfigurationUtils.java:257-279 | a non-blank lower-case key with no leading `-` and no `_` after index 0 is returned unchanged |
| KeyNormalization.KebabCaseFirst | src/main/java/top/code2life/config/ConfigurationUtils.java:264-276 | the first output character is the lower-cased first input character when that is not `-` |
| KeyNormalization.LeadingDashDropped | src/main/java/top/code2life/config/ConfigurationUtils.java:264 | a leading `-` is dropped: the output starts with the lower-cased second character |
| KeyNormalization.KebabCaseNotIdempotentOnLeadingDashes | src/main/java/top/code2life/config/ConfigurationUtils.java:257-279 | `--a` becomes `-a`, which becomes `a`: not idempotent in general |
| KeyNormalization.KebabCaseExample | src/test/java/top/code2life/config/FeatureGateTest.java:37-39 | `Abc_EfG-xA-bbcc_EF-z.ac.%` becomes `abc-ef-g-x-a-bbcc-ef-z.ac.%` |
| KeyNormalization.FindPlaceholderSpec | src/main/java/top/code2life/config/ConfigurationUtils.java:37-52 | the matcher's next match from a position is the leftmost `${` with a non-empty key, ending at the first `}`; none is found only when no `${` remains |
| KeyNormalization.PlaceholderKeysWellFormed | src/main/java/top/code2life/config/ConfigurationUtils.java:37 | every captured key is non-empty and holds neither `:` nor `}` |
| KeyNormalization.NoPlaceholderNoKeys | src/main/java/top/code2life/config/ConfigurationUtils.java:49-61 | text without `${` yields no key |
| KeyNormalization.KebabKeysAt | src/main/java/top/code2life/config/ConfigurationUtils.java:55 | the i-th key is the kebab case of the trimmed i-th capture, null exactly when the capture is blank |
| KeyNormalization.ExtractValueFromExpr | src/main/java/top/code2life/config/ConfigurationUtils.java:49-61 | the matcher loop returns one normalised key per placeholder, left to right |
| KeyNormalization.SinglePlaceholder | src/main/java/top/code2life/config/ConfigurationUtils.java:37 | `${key}` and `${key:default}` both yield exactly `key` |
| KeyNormalization.PlaceholderSpelExample | src/main/java/top/code2life/config/ConfigurationUtils.java:37-61 | the SpEL expression `#{${x} / ${y}}` yields the keys `x`, `y` |
| KeyNormalization.RegexNormalizePropKey | src/main/java/top/code2life/config/DynamicConfigBeanPostProcessor.java:244-252 | the regex normaliser as written throws IllegalArgument exactly when a `$` stands before a capital; any result it gives has no upper-case letter and no `_` |
| KeyNormalization.RegexNormalizeAgrees | src/main/java/top/code2life/config/DynamicConfigBeanPostProcessor.java:244-252 | without `$` or `\` before a capital the normaliser is the literal camel split followed by `_` to `-` and lower-casing |
| KeyNormalization.CamelSplitAsWrittenThrowsIff | src/main/java/top/code2life/config/DynamicConfigBeanPostProcessor.java:245-250 | the appendReplacement loop throws exactly when a `$` stands before a capital: such a pair is always matched |
| KeyNormalization.CamelSplitNoUpper | src/main/java/top/code2life/config/DynamicConfigBeanPostProcessor.java:245-250 | a key without capitals passes the camel-case replacement unchanged |
| KeyNormalization.RegexNormalizeIdempotent | src/main/java/top/code2life/config/DynamicConfigBeanPostProcessor.java:244-252 | normalising a key the regex normaliser accepts gives its result, and normalising that result again gives the same |
| KeyNormalization.NormalizersDiffer | src/main/java/top/code2life/config/DynamicConfigBeanPostProcessor.java:251 | on `a_B` the kebab normaliser gives `a-b` and the regex normaliser, which does not throw on it, `a--b` |
| KeyNormalization.CamelSplitAsWrittenAgrees | src/main/java/top/code2life/config/DynamicConfigBeanPostProcessor.java:245-250 | the appendReplacement loop as written equals the literal camel split unless a `$` or `\` stands before a capital |
| KeyNormalization.CamelSplitDollarCounterexample | src/main/java/top/code2life/config/DynamicConfigBeanPostProcessor.java:248 | on `a$B` the loop as written throws IllegalArgumentException, where `a$-b` is meant |
| KeyNormalization.CamelSplitBackslashCounterexample | src/main/java/top/code2life/config/DynamicConfigBeanPostProcessor.java:248 | on `a\B` the loop as written drops the backslash (`a-b`), where `a\-b` is meant |
| PathUtils.TrimRelativePath | src/main/java/top/code2life/config/ConfigurationUtils.java:91-100 | throws IllegalArgument exactly on blank input; strips two characters exactly when the text is longer than 2 and starts with `./` or `.\`; keeps every other character, with each `\` turned into `/` |
| PathUtils.TrimRelativePathFixedPoint | src/main/java/top/code2life/config/ConfigurationUtils.java:91-100 | the text comes back unchanged exactly when it has text, no backslash and no relative head |
| PathUtils.TrimRelativePathNotIdempotent | src/main/java/top/code2life/config/ConfigurationUtils.java:95-97 | only one `./` is stripped per call: `././a` gives `./a`, which gives `a` |
| PathUtils.UnixPathsGet | src/main/java/top/code2life/config/ConfigurationUtils.java:85 | Paths.get rejects the joined path exactly when it holds a NUL character |
| PathUtils.NormalizePath | src/main/java/top/code2life/config/ConfigurationUtils.java:81-89 | succeeds only when both texts have text; the result has no backslash; a trimmed path already under the trimmed base is returned as it is |
| PathUtils.NormalizePathUnderBase | src/main/java/top/code2life/config/ConfigurationUtils.java:81-89 | against a clean base directory every non-blank path without NUL normalises to a path starting with the base |
| PathUtils.FileExtension | src/main/java/top/code2life/config/ConfigurationUtils.java:103-110 | the extension holds no `.`; a non-empty one is the text after a `.` at index greater than 0 that ends the path |
| PathUtils.FileExtensionOfName | src/main/java/top/code2life/config/ConfigurationUtils.java:103-110 | a non-empty name, a dot and a dot-free extension give back that extension |
| PathUtils.FileExtensionOfHiddenName | src/main/java/top/code2life/config/ConfigurationUtils.java:106 | a name whose only dot is its first character has the empty extension |
| PathUtils.SplitCommaAndFilter | src/main/java/top/code2life/config/ConfigurationUtils.java:178-185 | blank text gives the empty list; every element satisfies the predicate |
| PathUtils.SplitCommaAndFilterMembers | src/main/java/top/code2life/config/ConfigurationUtils.java:178-185 | an element is in the result exactly when it is a trimmed comma piece that the predicate keeps; no element holds a comma |
| PathUtils.PropertyPrefix | src/main/java/top/code2life/config/ConfigurationUtils.java:230-247 | a one-name relative path is returned verbatim; a longer one throws IndexOutOfBounds exactly when its last name has no dot, and otherwise gives a key with no upper-case letter |
| PathUtils.PropertyPrefixOfPlainNames | src/main/java/top/code2life/config/ConfigurationUtils.java:236-246 | the directory names and the file stem, joined by `.` with the extension removed, form the key when kebab case leaves them alone |
| PathUtils.PropertyPrefixCamelExample | src/test/java/top/code2life/config/ImportConfigTreeTests.java:209 | `moduleB/abc.yaml` gives `module-b.abc` |
| PathUtils.PropertyPrefixSnakeExample | src/main/java/top/code2life/config/ConfigurationUtils.java:230-247 | `module_a/xyz.yaml` gives `module-a.xyz` |
| PathUtils.AddConfigPropPrefix | src/main/java/top/code2life/config/ConfigurationUtils.java:214-221 | the source keeps its name; each key `k` becomes `prefix.k` with the same value; no other key appears |
| PathUtils.AddConfigPropPrefixLookup | src/main/java/top/code2life/config/ConfigurationUtils.java:214-221 | a key is present exactly when it is `prefix.` followed by an original key, and then maps to that key's value |
| PathUtils.HasHiddenPathElement | src/main/java/top/code2life/config/ConfigurationUtils.java:282-289 | the loop answers whether some name of the path starts with `..` |
| PathUtils.ConfigMapMountExample | src/main/java/top/code2life/config/ConfigurationUtils.java:223-228 | a mounted ConfigMap link `/etc/app.yaml` is a property file, and the same file under `..data` is not |
| WatchTargets.Resolve | src/main/java/top/code2life/config/FileSystemWatchTarget.java:28-46 | after `file:` is stripped and the path is trimmed, a location or tree keeps the path as its directory with no filter; an import file fails with IndexOutOfBounds exactly when no `/` remains, and otherwise splits at the last `/` into directory and one slash-free file name that join back to the path; blank paths throw IllegalArgument |
| WatchTargets.ResolveImportFileUnique | src/main/java/top/code2life/config/FileSystemWatchTarget.java:38-42 | an import file `dir/name` resolves to directory `dir` with the single filter `name` |
| WatchTargets.ImportFileWithoutDirectoryFails | src/main/java/top/code2life/config/FileSystemWatchTarget.java:39-40 | `file:./app.yaml` has no `/` after trimming, and the constructor throws IndexOutOfBounds |
| WatchTargets.FileSystemWatchTarget.Create | src/main/java/top/code2life/config/FileSystemWatchTarget.java:28-46 | the constructor fails exactly as Resolve does, and otherwise holds Resolve's directory and filter, with no root directory |
| WatchTargets.TrimNames | src/main/java/top/code2life/config/ConfigurationUtils.java:295-299 | the filter files are trimmed name by name, and the whole call throws IllegalArgument exactly when one name is blank |
| WatchTargets.NewTarget | src/main/java/top/code2life/config/ConfigurationUtils.java:293-299 | the appended target has the given kind and root directory, Resolve's directory, and the trimmed filter names when given, else Resolve's filter |
| WatchTargets.FileSystemWatchTarget.Build | src/main/java/top/code2life/config/ConfigurationUtils.java:293-299 | building the target object fails or succeeds exactly as NewTarget |
| WatchTargets.FileSystemWatchTarget.AddFilterFiles | src/main/java/top/code2life/config/ConfigurationUtils.java:306 | appending to a null filter list, or appending a null list, throws NullPointer and changes nothing; otherwise the new names are appended |
| WatchTargets.MergeCases | src/main/java/top/code2life/config/ConfigurationUtils.java:300-310 | a new directory key is inserted; a key of the same kind gets the filter files appended; a key of another kind is left as it was; no other entry changes |
| WatchTargets.MergeKeepsTableShape | src/main/java/top/code2life/config/ConfigurationUtils.java:300-310 | every entry stays keyed by its own directory, and import entries keep a filter list |
| WatchTargets.AppendNoNullPointer | src/main/java/top/code2life/config/ConfigurationUtils.java:292-311 | appending an import file, or a tree group with files, to a table whose imports have filter lists never throws NullPointer |
| WatchTargets.MergeCommutes | src/main/java/top/code2life/config/ConfigurationUtils.java:300-310 | merging targets for two different directories gives the same table in either order |
| WatchTargets.WatchableTargets.Put | src/main/java/top/code2life/config/ConfigurationUtils.java:309 | the table maps the target's directory to the target and keeps every other entry |
| WatchTargets.WatchableTargets.MergeTarget | src/main/java/top/code2life/config/ConfigurationUtils.java:300-310 | the table becomes Merge of the old table and the target, or stays as it was with the exception |
| WatchTargets.WatchableTargets.AppendToWatchableTargets | src/main/java/top/code2life/config/ConfigurationUtils.java:292-315 | the table becomes the result of building the target and merging it, or stays as it was with the exception |
| WatchTargets.LocationsWatched | src/main/java/top/code2life/config/ConfigurationUtils.java:129-135 | after the location loop every location is in the table as a location entry under its resolved directory, and entries it replaced became location entries |
| WatchTargets.NeedWatchKeepsKeys | src/main/java/top/code2life/config/ConfigurationUtils.java:128-176 | collecting watch targets never removes a directory from the table |
| WatchTargets.ClassPathOnlyLocation | src/main/java/top/code2life/config/ConfigurationUtils.java:129-135 | a location of classpath entries only, with no import, adds nothing |
| WatchTargets.WatchableTargets.RecordLocations | src/main/java/top/code2life/config/ConfigurationUtils.java:131-134 | the location loop leaves the table and outcome LocationsFrom describes |
| WatchTargets.WatchableTargets.AppendTreeGroups | src/main/java/top/code2life/config/ConfigurationUtils.java:166-169 | the loop over a config tree's directories leaves the table GroupsFrom describes |
| WatchTargets.WatchableTargets.RecordImports | src/main/java/top/code2life/config/ConfigurationUtils.java:137-175 | the import loop (optional and configtree prefixes, missing files skipped, empty trees skipped) leaves the table ImportsFrom describes |
| WatchTargets.WatchableTargets.RecordImport | src/main/java/top/code2life/config/ConfigurationUtils.java:138-174 | one import: `optional:` is dropped, a `configtree:` directory that exists adds its file groups, an existing `file:` adds one import-file target, anything missing is skipped; the table becomes ImportStep's result |
| WatchTargets.WatchableTargets.GetNeedWatchDirAndPath | src/main/java/top/code2life/config/ConfigurationUtils.java:128-176 | locations, then imports, leave the table NeedWatch describes |
| WatchTargets.WatchableTargets.HasWatchableConf | src/main/java/top/code2life/config/ConfigurationUtils.java:120-126 | a non-empty table answers true and is untouched; otherwise the targets are collected and the answer is whether any was found |
| FeatureGate.Convert | src/main/java/top/code2life/config/FeatureGate.java:46-51 | blank text gives the empty set; otherwise an element is in the set exactly when it is the non-blank trim of some comma piece; every element is trimmed and free of commas |
| FeatureGate.ConvertThree | src/main/java/top/code2life/config/FeatureGate.java:50 | three comma pieces with text give exactly the set of the three trimmed pieces, duplicates collapsing |
| FeatureGate.AllEnablesEveryone | src/main/java/top/code2life/config/FeatureGate.java:50-63 | a piece `all` in the list enables the feature for every entity |
| FeatureGate.IsFeatureEnabledMonotone | src/main/java/top/code2life/config/FeatureGate.java:61-63 | an entity enabled by a set stays enabled by every larger set |
| FeatureGate.ConvertBlank | src/test/java/top/code2life/config/FeatureGateTest.java:17-20 | the empty value gives the empty set, which enables no one |
| FeatureGate.ConvertExample | src/test/java/top/code2life/config/FeatureGateTest.java:23-27 | `a, b ,c` gives `{a, b, c}`: `a` is enabled and `d` is not |
| FeatureGate.ConvertAllExample | src/test/java/top/code2life/config/FeatureGateTest.java:30-34 | `a, b ,all` enables `e` |
| FeatureGate.IsFeatureEnabledByNameIff | src/main/java/top/code2life/config/FeatureGate.java:72-78 | the switch is on exactly when the property exists and equals `true` ignoring case; a missing or blank property is off |
| FeatureGate.IsFeatureEnabledByNameExample | src/test/java/top/code2life/config/DynamicConfigTests.java:234-238 | `True` turns a feature on; `yes` and a missing property do not |
| PropertyDiff.FilterAddOrUpdatedKeys | src/main/java/top/code2life/config/ConfigurationChangedEvent.java:64-78 | the loop adds to the diff exactly the added and changed keys with their current values |
| PropertyDiff.FilterMissingKeys | src/main/java/top/code2life/config/ConfigurationChangedEvent.java:80-88 | the loop adds exactly the deleted keys, each mapped to null |
| PropertyDiff.GetPropertyDiff | src/main/java/top/code2life/config/ConfigurationChangedEvent.java:57-62 | the event's diff (and the handler's copy) is DiffOf the two snapshots |
| PropertyDiff.DiffOfEntries | src/main/java/top/code2life/config/ConfigurationChangedEvent.java:64-88 | an added key maps to its current value; a key in both maps is present exactly when its value changed, with the current value; a deleted key maps to null; no other key appears |
| PropertyDiff.ApplyDiffOf | src/main/java/top/code2life/config/ConfigurationChangedEvent.java:57-62 | applying the diff to the previous snapshot gives the current one |
| PropertyDiff.DiffOfIsMinimal | src/main/java/top/code2life/config/ConfigurationChangedEvent.java:57-62 | every diff that turns previous into current mentions at least the keys of DiffOf |
| PropertyDiff.DiffOfEmptyIff | src/main/java/top/code2life/config/ConfigurationChangedEvent.java:57-88 | the diff is empty exactly when the snapshots are equal |
| PropertyDiff.TypedValuesCompare | src/main/java/top/code2life/config/ConfigurationChangedEvent.java:64-70 | values compare as the loaded objects: a YAML `1.0` to `1.00` or `true` to `True` edit is no change, `1` to `'1'` is one |
| PropertyDiff.GetAddedOrChangedDiff | src/main/java/top/code2life/config/DynamicConfigBeanPostProcessor.java:203-223 | the post-processor's older loop collects exactly the added and changed keys with their current values |
| PropertyDiff.OlderDiffIsValuedPart | src/main/java/top/code2life/config/DynamicConfigBeanPostProcessor.java:199-223 | the older diff is the non-null part of the event diff; a removed key never appears in it |
| PropertyDiff.OlderDiffKeepsDeleted | src/main/java/top/code2life/config/DynamicConfigBeanPostProcessor.java:199-202 | applying the older diff keeps deleted keys: the previous snapshot overridden by the current one |
| PropertyDiff.NewConfigurationChangedEvent | src/main/java/top/code2life/config/ConfigurationChangedEvent.java:45-51 | the event stores path, previous, current and diff unchanged, with the path as its source |
| BindingRegistry.RegexKeys | src/main/java/top/code2life/config/DynamicConfigBeanPostProcessor.java:225-237 | no more keys than captures |
| BindingRegistry.RegexKeysMembers | src/main/java/top/code2life/config/DynamicConfigBeanPostProcessor.java:225-237 | a key is extracted exactly when some capture, trimmed, normalises to it without throwing |
| BindingRegistry.RegexKeysAllOk | src/main/java/top/code2life/config/DynamicConfigBeanPostProcessor.java:225-237 | when no capture's normalisation throws there is one key per capture, in order, each the capture's normalised form |
| BindingRegistry.RegexKeysDropThrowing | src/main/java/top/code2life/config/DynamicConfigBeanPostProcessor.java:230-234 | a capture `a$B`, whose normalisation throws, is caught and yields no key |
| BindingRegistry.ExtractRegexKeys | src/main/java/top/code2life/config/DynamicConfigBeanPostProcessor.java:225-237 | the post-processor's matcher loop, whose catch skips a key that throws, returns RegexKeys of the placeholders, left to right |
| BindingRegistry.Registry.Reset | src/main/java/top/code2life/config/DynamicConfigBeanPostProcessor.java:59-72 | without a configurable bean factory the constructor throws IllegalArgument; otherwise all three tables are emptied |
| BindingRegistry.Registry.BindConfigurationProperties | src/main/java/top/code2life/config/DynamicConfigBeanPostProcessor.java:125-132 | the prefix (prefix(), or value() when prefix() is blank) is bound to the bean only if no bean holds it yet |
| BindingRegistry.Registry.AppendForKeys | src/main/java/top/code2life/config/DynamicConfigBeanPostProcessor.java:111-116 | one binder is appended to each listed key's list, creating missing lists |
| BindingRegistry.Registry.HandleDynamicBean | src/main/java/top/code2life/config/DynamicConfigBeanPostProcessor.java:89-123 | the tables become Register of the old tables and the bean |
| BindingRegistry.Registry.HandleDynamicConfigurationBeans | src/main/java/top/code2life/config/DynamicConfigBeanPostProcessor.java:74-81 | every annotated bean is registered in turn |
| BindingRegistry.Registry.PostProcessBeforeInitialization | src/main/java/top/code2life/config/DynamicConfigBeanPostProcessor.java:83-87 | the bean is returned as it is, after registration |
| BindingRegistry.RegisterIdempotent | src/main/java/top/code2life/config/DynamicConfigBeanPostProcessor.java:89-94 | registering a second bean under a known name changes nothing |
| BindingRegistry.AddKeysLookup | src/main/java/top/code2life/config/DynamicConfigBeanPostProcessor.java:110-116 | each key's list grows by exactly one binder per occurrence of the key in the extracted keys |
| BindingRegistry.AddFieldsLookup | src/main/java/top/code2life/config/DynamicConfigBeanPostProcessor.java:105-122 | each key's list grows by exactly the binders of the class's registered fields for that key, in field order |
| BindingRegistry.RegisterGrows | src/main/java/top/code2life/config/DynamicConfigBeanPostProcessor.java:89-132 | registration only appends: lists only grow, and no known bean or prefix binding changes |
| BindingRegistry.ConfigPropsClassBindsOnlyPrefix | src/main/java/top/code2life/config/DynamicConfigBeanPostProcessor.java:100-104 | a @DynamicConfig @ConfigurationProperties class adds no field binder, records the bean, and binds its effective prefix only when the prefix is new |
| BindingRegistry.OtherClassBindsFields | src/main/java/top/code2life/config/DynamicConfigBeanPostProcessor.java:105-122 | any other class leaves the prefix table alone and appends its field binders |
| BindingRegistry.UnboundFieldsAddNothing | src/main/java/top/code2life/config/DynamicConfigBeanPostProcessor.java:105-109 | fields that lack @Value, lack @DynamicConfig on field and class, or whose expression starts with neither `$` nor `#` add no binder |
| BindingRegistry.KeyBindersOwn | src/main/java/top/code2life/config/DynamicConfigBeanPostProcessor.java:115 | every binder a bean adds refers to that bean and its name |
| BindingRegistry.RegisterKeepsValid | src/main/java/top/code2life/config/DynamicConfigBeanPostProcessor.java:89-132 | every binder in the tables refers to a registered bean under its registered name, before and after a registration |
| BindingRegistry.ProcessConfigPropsClass | src/main/java/top/code2life/config/ConfigurationChangedEventHandler.java:114-121 | the loop over the prefix table leaves the refresh table that Schedule describes |
| BindingRegistry.ScheduleIff | src/main/java/top/code2life/config/DynamicConfigBeanPostProcessor.java:164-171 | after one key a bean name is scheduled exactly when it was already, or one of its prefixes matches the key; a matching prefix's binder is the one recorded |
| BindingRegistry.ScheduleAllIff | src/main/java/top/code2life/config/ConfigurationChangedEventHandler.java:65-68 | over all changed keys, a bean name is scheduled exactly when some key matches some prefix bound to that name |
| BindingRegistry.ScheduleAllBinder | src/main/java/top/code2life/config/ConfigurationChangedEventHandler.java:114-121 | a scheduled name maps to the binder of its prefix: one entry per bean name |
| BindingRegistry.OlderScheduleAgrees | src/main/java/top/code2life/config/DynamicConfigBeanPostProcessor.java:164-171 | the prefix loop for one key throws exactly when the prefix table is not empty and the key or some prefix cannot be normalised; otherwise it schedules as Schedule does under the regex match |
| BindingRegistry.OlderRefreshAgrees | src/main/java/top/code2life/config/DynamicConfigBeanPostProcessor.java:136-156 | the key loop throws exactly when a changed key cannot be normalised, a key changed and a registered prefix cannot be, or the field writes of processValueField throw for a changed key; otherwise it builds the refresh table ScheduleAll describes |
| BindingRegistry.OlderReboundIff | src/main/java/top/code2life/config/DynamicConfigBeanPostProcessor.java:136-197 | the older handler re-binds nothing, its loop having thrown into the catch, exactly when a changed key or (a key having changed) a registered prefix cannot be normalised, or processValueField's field writes throw for a changed key; the exception is IllegalArgument when no write failed; otherwise it re-binds a bean exactly when a regex-normalised changed key starts with its regex-normalised prefix, ignoring case, and the bean is still live |
| EventHandler.LeafKey | src/main/java/top/code2life/config/ConfigurationChangedEventHandler.java:186 | the leaf key holds no dot |
| EventHandler.LeafKeySplit | src/main/java/top/code2life/config/ConfigurationChangedEventHandler.java:186 | the leaf key of `a.b` with a dot-free `b` is `b` |
| EventHandler.FindParentPathSplit | src/main/java/top/code2life/config/ConfigurationChangedEventHandler.java:222-231 | for a key normalising to prefix, path and leaf, the parent path is the path (`my-prop.map-val.k3` gives `map-val`) |
| EventHandler.FindParentPathDirect | src/main/java/top/code2life/config/ConfigurationChangedEventHandler.java:227-229 | a key directly under the prefix gives the empty path |
| EventHandler.FindParentPathOnlyLength | src/main/java/top/code2life/config/ConfigurationChangedEventHandler.java:223 | only the prefix's length matters, not its text |
| EventHandler.FindParentPathErrors | src/main/java/top/code2life/config/ConfigurationChangedEventHandler.java:222-223 | a null prefix or blank key throws NullPointer; a normalised key no longer than the prefix throws IndexOutOfBounds |
| EventHandler.RemoveMapKey | src/main/java/top/code2life/config/ConfigurationChangedEventHandler.java:191-214 | the walk never adds or removes fields |
| EventHandler.WalkStops | src/main/java/top/code2life/config/ConfigurationChangedEventHandler.java:201-206 | once a leaf removal breaks the loop, or an exception is thrown, later fields are not visited |
| EventHandler.RemoveMapKeyShrinks | src/main/java/top/code2life/config/ConfigurationChangedEventHandler.java:191-214 | the walk changes nothing but removing the given key from maps somewhere in the tree |
| EventHandler.LeafRemoval | src/main/java/top/code2life/config/ConfigurationChangedEventHandler.java:201-206 | on a leaf path the first non-ignorable map field whose normalised name prefixes the path, ignoring case, loses the key, and the loop stops; a null map throws NullPointer |
| EventHandler.LeafNoTarget | src/main/java/top/code2life/config/ConfigurationChangedEventHandler.java:195-213 | on a leaf path with no matching map field nothing changes |
| EventHandler.DescendInto | src/main/java/top/code2life/config/ConfigurationChangedEventHandler.java:207-212 | on a non-leaf path the one matching field's object is walked with the path after the first dot |
| EventHandler.EmptyPathUnchanged | src/main/java/top/code2life/config/ConfigurationChangedEventHandler.java:191-214 | the empty path removes nothing, so deleting a scalar key leaves its field alone |
| EventHandler.RemoveMissingNoDeletions | src/main/java/top/code2life/config/ConfigurationChangedEventHandler.java:174-177 | a diff without null values changes nothing, under either indexed-key guard |
| EventHandler.RemoveMissingNullPrefix | src/main/java/top/code2life/config/ConfigurationChangedEventHandler.java:185 | with a null prefix the bean is untouched, and NullPointer is thrown exactly when some deleted key passes the indexed-key guard, for the guard as written and the corrected one alike |
| EventHandler.RemoveMissingShrinks | src/main/java/top/code2life/config/ConfigurationChangedEventHandler.java:170-189 | reconciliation only removes the leaf keys of deleted properties from maps, under either indexed-key guard |
| EventHandler.IndexedAsWrittenIsIndexed | src/main/java/top/code2life/config/ConfigurationChangedEventHandler.java:180 | every key that the full-string match of the indexed-key pattern (line 35) skips is an indexed key |
| EventHandler.IndexedGuardMissesItsExample | src/main/java/top/code2life/config/ConfigurationChangedEventHandler.java:179-180 | the commented example `a.b[1].c.d` is indexed, yet the guard as written does not skip it |
| EventHandler.FieldIndex | src/main/java/top/code2life/config/ConfigurationChangedEventHandler.java:140 | the binder's field is the first declared field of that name, or -1 when there is none |
| EventHandler.SetField | src/main/java/top/code2life/config/ConfigurationChangedEventHandler.java:146-148 | Field.set writes exactly the named field; a field the object lacks throws IllegalArgument |
| EventHandler.SetThenGet | src/main/java/top/code2life/config/ConfigurationChangedEventHandler.java:146-148 | after the write the field reads back the value, and every other field is as before |
| EventHandler.BindField | src/main/java/top/code2life/config/ConfigurationChangedEventHandler.java:139-153 | only the binder's bean changes, and nothing changes on an exception; a binder without field throws NullPointer |
| EventHandler.BindPlainField | src/main/java/top/code2life/config/ConfigurationChangedEventHandler.java:147-148 | a `$` binder sets the field to the converted diff value |
| EventHandler.BindSpelIgnoresValue | src/main/java/top/code2life/config/ConfigurationChangedEventHandler.java:144-146 | a `#` binder's result does not depend on the diff value: the whole expression is evaluated |
| EventHandler.ApplyBinders | src/main/java/top/code2life/config/ConfigurationChangedEventHandler.java:130-136 | beans that no binder in the list refers to are untouched |
| EventHandler.ApplyBindersAllCollected | src/main/java/top/code2life/config/ConfigurationChangedEventHandler.java:131-134 | binders whose beans were collected are skipped |
| EventHandler.ValueFieldUpdate | src/main/java/top/code2life/config/ConfigurationChangedEventHandler.java:123-137 | a blank key throws NullPointer; a key with no binder list changes nothing; beans not bound to the key are untouched |
| EventHandler.DispatchKeys | src/main/java/top/code2life/config/ConfigurationChangedEventHandler.java:65-69 | beans bound to none of the changed keys are untouched |
| EventHandler.RebindAll | src/main/java/top/code2life/config/ConfigurationChangedEventHandler.java:155-168 | with the indexed-key guard as written, beans outside the refresh table are untouched and no bean is added or dropped |
| EventHandler.HandleEventNoChange | src/main/java/top/code2life/config/ConfigurationChangedEventHandler.java:61-75 | an event with equal snapshots, or a missing one, changes no bean |
| EventHandler.HandlerScheduleIff | src/main/java/top/code2life/config/ConfigurationChangedEventHandler.java:114-121 | a bean is scheduled exactly when some kebab-normalised changed key starts with one of its prefixes, ignoring case |
| EventHandler.HandleEventTouchesOnlyBound | src/main/java/top/code2life/config/ConfigurationChangedEventHandler.java:61-75 | a bean with no prefix binding and no field bound to a changed key is left as it was |
| EventHandler.HandleEventSpec | src/main/java/top/code2life/config/ConfigurationChangedEventHandler.java:61-75 | handling an event never adds or drops a live bean |
| EventHandler.ConfigurationChangedEventHandler.ConvertAndBindFieldValue | src/main/java/top/code2life/config/ConfigurationChangedEventHandler.java:139-153 | the live beans become BindField's result |
| EventHandler.ConfigurationChangedEventHandler.ProcessValueField | src/main/java/top/code2life/config/ConfigurationChangedEventHandler.java:123-137 | the loop over the key's binders leaves the beans ValueFieldUpdate describes |
| EventHandler.ConfigurationChangedEventHandler.RemoveMissingMapKeyIfMatch | src/main/java/top/code2life/config/ConfigurationChangedEventHandler.java:191-214 | the recursive field loop computes RemoveMapKey |
| EventHandler.ConfigurationChangedEventHandler.RemoveMissingPropsMapFields | src/main/java/top/code2life/config/ConfigurationChangedEventHandler.java:170-189 | the loop over the diff computes RemoveMissingAsWritten: only a key that is nothing but an index is skipped |
| EventHandler.ConfigurationChangedEventHandler.RebindRelatedConfigurationPropsBeans | src/main/java/top/code2life/config/ConfigurationChangedEventHandler.java:155-168 | the loop leaves the beans RebindAll describes |
| EventHandler.ConfigurationChangedEventHandler.ProcessChangedKeys | src/main/java/top/code2life/config/ConfigurationChangedEventHandler.java:65-69 | the diff loop leaves the beans DispatchKeys describes and, when nothing was thrown, the refresh table ScheduleAll describes |
| EventHandler.ConfigurationChangedEventHandler.HandleEvent | src/main/java/top/code2life/config/ConfigurationChangedEventHandler.java:61-75 | the beans become HandleEventSpec's result; every exception is caught, and work done before it stays |
| EventHandlerExamples.RemoveMapValueExample | src/test/java/top/code2life/config/DynamicConfigTests.java:178-193 | deleting `intVal` and `map-val.k3` and adding `k4` removes `k3` from `mapVal` and leaves `intVal` as it was |
| EventHandlerExamples.RemoveNestedMapValueExample | src/test/java/top/code2life/config/DynamicConfigTests.java:163-174 | deleting `nested.mapVal.m1` removes `m1` from the nested map only |
| EventHandlerExamples.RemoveBoxedValueExample | src/test/java/top/code2life/config/DynamicConfigTests.java:119-130 | deleting `boxedIntVal` leaves the bean as it was |
| EventHandlerExamples.IndexedKeyCounterexample | src/main/java/top/code2life/config/ConfigurationChangedEventHandler.java:179-182 | on the deleted key `a.m[0].x` the guard as written removes `x` from map field `m`, while the intended skip leaves it |
| EventHandlerExamples.MapHolderRemoval | src/main/java/top/code2life/config/ConfigurationChangedEventHandler.java:201-206 | the leaf removal of `x` on a bean whose one map field is `m` drops exactly the entry `x` |
| EventHandlerExamples.IndexedKeyRemovedAsWritten | src/main/java/top/code2life/config/ConfigurationChangedEventHandler.java:179-187 | with the guard as written, deleting `a.m[0].x` under prefix `a` drops `x` from map `m` and throws nothing |
| PropertySources.GetSource | src/main/java/top/code2life/config/DynamicConfigPropertiesWatcher.java:233 | the environment gives a source exactly when one has that name, and the one it gives has that name |
| PropertySources.Replace | src/main/java/top/code2life/config/DynamicConfigPropertiesWatcher.java:234 | replacing a missing name throws IllegalArgument; otherwise only the first source of that name is replaced, in place |
| PropertySources.ReplaceThenGet | src/main/java/top/code2life/config/DynamicConfigPropertiesWatcher.java:233-234 | after replacing a name with a source of that name, getting the name gives the new source |
| PropertySources.ReplaceOtherName | src/main/java/top/code2life/config/DynamicConfigPropertiesWatcher.java:234 | replacing one name leaves what every other name gives |
| PropertySources.GetSourceAtIndex | src/main/java/top/code2life/config/DynamicConfigPropertiesWatcher.java:233 | when a source of the name exists, get gives the first source carrying it |
| PropertiesWatcher.BracketedPath | src/main/java/top/code2life/config/DynamicConfigPropertiesWatcher.java:106-111 | the substring between the first `[` and the first `]`; it throws IndexOutOfBounds exactly when there is no `]` or it comes before the first `[` |
| PropertiesWatcher.BracketedPathOf | src/main/java/top/code2life/config/DynamicConfigPropertiesWatcher.java:106-111 | a name `a[p]b` with no bracket in `a` and no `]` in `p` gives `p` |
| PropertiesWatcher.BracketedPathMissing | src/main/java/top/code2life/config/DynamicConfigPropertiesWatcher.java:108-111 | a source name without `]` cannot be recorded: taking the bracketed part throws IndexOutOfBounds |
| PropertiesWatcher.RecordPropSource | src/main/java/top/code2life/config/DynamicConfigPropertiesWatcher.java:104-117 | recording fails exactly when the key cannot be built, and otherwise adds exactly that key |
| PropertiesWatcher.RecordBracketed | src/main/java/top/code2life/config/DynamicConfigPropertiesWatcher.java:104-117 | a source named `a[p]b` is recorded under the trimmed `p` with every `file:` removed, with time 0 and this source; other entries stay |
| PropertiesWatcher.ConfigTreeNameIsFileSource | src/main/java/top/code2life/config/ConfigTreeEnvironmentPostProcessor.java:47 | a config-tree source name `Config resource 'file [p]' via configTree` matches the file-source pattern |
| PropertiesWatcher.ConfigTreeSourceRecorded | src/main/java/top/code2life/config/DynamicConfigPropertiesWatcher.java:86-89 | such a source is recognised and recorded under its normalised path with time 0 |
| PropertiesWatcher.LegacySourceIsFileSource | src/main/java/top/code2life/config/DynamicConfigPropertiesWatcher.java:50 | `applicationConfig: [file:p]` matches the legacy pattern |
| PropertiesWatcher.WithoutConfigNotFileSource | src/main/java/top/code2life/config/DynamicConfigPropertiesWatcher.java:49-50 | a name without a capital `C` matches neither pattern |
| PropertiesWatcher.RecordAll | src/main/java/top/code2life/config/DynamicConfigPropertiesWatcher.java:86-91 | recording never drops a known file |
| PropertiesWatcher.RecordAllOnlyFileSources | src/main/java/top/code2life/config/DynamicConfigPropertiesWatcher.java:86-90 | every newly recorded key comes from a source whose name matches a file-source pattern |
| PropertiesWatcher.RecordAllFails | src/main/java/top/code2life/config/DynamicConfigPropertiesWatcher.java:86-90 | recording throws exactly when some matching source cannot be recorded: no `]` after the first `[`, a path blank once `file:` is removed, or a NUL in it |
| PropertiesWatcher.RecordAllRecordsEvery | src/main/java/top/code2life/config/DynamicConfigPropertiesWatcher.java:86-90 | when nothing is thrown every matching source is recorded |
| PropertiesWatcher.RecordAllNoFileSources | src/main/java/top/code2life/config/DynamicConfigPropertiesWatcher.java:86-90 | with no matching source nothing is recorded |
| PropertiesWatcher.FileName | src/main/java/top/code2life/config/DynamicConfigPropertiesWatcher.java:193 | the file name holds no `/`; what it is, the last segment, is stated by FileNameOfChild |
| PropertiesWatcher.FileNameOfChild | src/main/java/top/code2life/config/DynamicConfigPropertiesWatcher.java:193 | the file name of `d/n`, for a non-empty segment `n` without `/`, is `n`, whatever the directory `d` |
| PropertiesWatcher.FirstLoader | src/main/java/top/code2life/config/DynamicConfigPropertiesWatcher.java:215-216 | the index of the first loader listing the extension, or the number of loaders when none does |
| PropertiesWatcher.LoadAndPublishSpec | src/main/java/top/code2life/config/DynamicConfigPropertiesWatcher.java:224-237 | a non-empty load publishes exactly one event carrying the old and new sources, replaces the source (IllegalArgument when the environment lacks the name), leaving the environment exactly as Replace describes, so every other source keeps its place, sets this file's time, and changes no other file or the link time |
| PropertiesWatcher.LoadNothingChangesNothing | src/main/java/top/code2life/config/DynamicConfigPropertiesWatcher.java:228-231 | an empty load changes nothing |
| PropertiesWatcher.DoReloadUsesFirstLoader | src/main/java/top/code2life/config/DynamicConfigPropertiesWatcher.java:214-221 | only the first loader for the extension is used |
| PropertiesWatcher.DoReloadWithoutLoader | src/main/java/top/code2life/config/DynamicConfigPropertiesWatcher.java:215-221 | with no loader for the extension nothing changes |
| PropertiesWatcher.ReloadSkips | src/main/java/top/code2life/config/DynamicConfigPropertiesWatcher.java:191-201 | a path named `..data`, or one not recorded, changes nothing |
| PropertiesWatcher.ReloadSkipsLinkDir | src/main/java/top/code2life/config/DynamicConfigPropertiesWatcher.java:191-196 | a path that Paths.get reads as `d/..data`, for any directory `d`, changes nothing |
| PropertiesWatcher.ReloadDecision | src/main/java/top/code2life/config/DynamicConfigPropertiesWatcher.java:202-209 | a recorded file is reloaded exactly when forced or its time moved; a failed reload is caught and leaves the state |
| PropertiesWatcher.ReloadTrackedFrame | src/main/java/top/code2life/config/DynamicConfigPropertiesWatcher.java:196-209 | a reload check touches only its own file's entry, appends at most one event, and moves the file's time only to the time read |
| PropertiesWatcher.ReloadSettles | src/main/java/top/code2life/config/DynamicConfigPropertiesWatcher.java:202-206 | after a reload that published, the same unforced check publishes nothing more |
| PropertiesWatcher.ReloadChangedFrame | src/main/java/top/code2life/config/DynamicConfigPropertiesWatcher.java:190-210 | a changed-file check keeps the recorded files and the link time, and only appends events |
| PropertiesWatcher.ReloadEachFrame | src/main/java/top/code2life/config/DynamicConfigPropertiesWatcher.java:180-188 | reloading all walked files keeps the recorded files and the link time, and only appends events |
| PropertiesWatcher.CheckLinkSettles | src/main/java/top/code2life/config/DynamicConfigPropertiesWatcher.java:163-174 | an unchanged link time does nothing; after a check the link time is the one read, and checking again does nothing |
| PropertiesWatcher.DynamicConfigPropertiesWatcher.WatchConfigDirectory | src/main/java/top/code2life/config/DynamicConfigPropertiesWatcher.java:80-91 | a blank location records nothing; otherwise the loop records as RecordAll does and changes nothing else |
| PropertiesWatcher.DynamicConfigPropertiesWatcher.NormalizeAndRecordPropSource | src/main/java/top/code2life/config/DynamicConfigPropertiesWatcher.java:104-117 | the recorded files become RecordPropSource's result, or stay with the exception |
| PropertiesWatcher.DynamicConfigPropertiesWatcher.ReloadChangedFile | src/main/java/top/code2life/config/DynamicConfigPropertiesWatcher.java:190-210 | the state becomes ReloadChanged's result |
| PropertiesWatcher.DynamicConfigPropertiesWatcher.ReloadIfModified | src/main/java/top/code2life/config/DynamicConfigPropertiesWatcher.java:196-209 | the try block leaves the state ReloadTracked describes: unknown files and unreadable times are ignored, and a reload that throws is caught |
| PropertiesWatcher.DynamicConfigPropertiesWatcher.DoReloadConfigFile | src/main/java/top/code2life/config/DynamicConfigPropertiesWatcher.java:212-222 | the loader loop leaves the state DoReload describes |
| PropertiesWatcher.DynamicConfigPropertiesWatcher.LoadPropertiesAndPublishEvent | src/main/java/top/code2life/config/DynamicConfigPropertiesWatcher.java:224-237 | the state becomes LoadAndPublish's result, or stays with the exception |
| PropertiesWatcher.DynamicConfigPropertiesWatcher.ReloadAllConfigFiles | src/main/java/top/code2life/config/DynamicConfigPropertiesWatcher.java:180-188 | the walk loop leaves the state ReloadAll describes; a failed walk is caught |
| PropertiesWatcher.DynamicConfigPropertiesWatcher.CheckSymbolicLink | src/main/java/top/code2life/config/DynamicConfigPropertiesWatcher.java:163-174 | the state becomes CheckLink's result: force-reload everything, then record the new link time, only when it moved |

## Left out

- Threads, executors, the WatchService take/reset loop, the debounce sleep and the scheduled pollers are left out. They are concurrency; the model covers one call at a time, and `synchronized` is sequential.
- The file system is a parameter, not modelled: `Files.exists`, `Files.find`, the config-tree directory grouping, `getLastModifiedTime`, `Files.walk`. The config-tree cache (`findAllPropertyFilesInTree`) is therefore not modelled either.
- `Path.relativize` is not modelled: `PropertyPrefix` takes the relative path's names.
- Errors that a `Files.walk` stream raises lazily, mid-iteration, are not modelled; a walk either fails up front or yields its whole list.
- InvalidPathException from `Paths.get(configLocation, "..data")`, from the walk's `Paths.get(configLocation)` and from `Files.exists(Paths.get(target))` on an import (`ConfigurationUtils.java` lines 147 and 153) is not modelled: `fileExists` in `WatchTargets.WatchableTargets.RecordImports` is a total predicate, so an import holding a NUL character is reported missing instead of throwing.
- Spring capabilities are functions handed in, with no contract of their own:
  - property source loaders;
  - `resolveEmbeddedValue` and SpEL evaluation;
  - `TypeConverter`;
  - the configuration-properties binder;
  - AOP/CGLIB target-class lookup;
  - reflection and annotation queries.
- `EventHandler.HandleEventSpec`: the binder's merge of new values into a re-bound bean is an opaque function. So the model says which beans are re-bound, not what values they get.
- Bean objects are values in a table of live references. Aliasing between beans, where two beans share one map object, is not modelled. A collected weak reference is a reference missing from the table.
- `PropertyDiff` compares values as `PropertySources.Value`: text, integer, boolean or decimal, the scalar types the properties and YAML loaders produce. `OriginTrackedValue.equals` compares only the wrapped values, and equality of `Value` is equality of the wrapped object, so a YAML edit from `1.0` to `1.00` is no change and one from `1` to `'1'` is a change (`PropertyDiff.TypedValuesCompare`). Other scalar types (dates, `Long`, `BigInteger`), the rounding of a `Double` (a decimal is an exact real here, so two texts that round to the same `Double` but differ as reals count as a change), NaN, and which type a loader picks for a given text are not modelled; the loaders are parameters. The origins themselves are not modelled.
- Hash-map iteration order is a parameter (an enumeration of the keys), not a particular JDK order.
- `IsFeatureEnabled` and `IsFeatureEnabledByName` are predicates without their own `ensures`; their meaning is stated by the lemmas beside them.
- Upper and lower case are ASCII only. `Character.isUpperCase` and `toLowerCase` on other letters are not modelled.
- `PropertiesWatcher.Watcher`: modification times are unbounded integers, not Java `long` milliseconds.
- The meta table is static in Java and shared by every watcher instance. The model gives each instance its own.
- The watcher publishes `ConfigurationFileChangedEvent`, while the handler shown listens for `ConfigurationChangedEvent`. The step that turns one into the other is not part of this model.
- The handler passes `binder.getExpr()` as the prefix of the map-key removal. The post-processor shown stores null there, so deletions then throw NullPointer, and `EventHandler.RemoveMissingNullPrefix` states this. The prefix a newer registry would store is not part of this model.
- The handler's constructor check for a configurable bean factory is modelled only for the post-processor (`BindingRegistry.Registry.Reset`).
- `ConfigTreeEnvironmentPostProcessor` is glue around Spring's config-tree sources and is not part of this model. Its prefixing and extension logic is `PathUtils.AddConfigPropPrefix` and `PathUtils.FileExtension`, and its source-name format is used in `PropertiesWatcher.ConfigTreeNameIsFileSource`.
- The post-processor's `processValueField` field writes are not modelled; `BindingRegistry.OlderRefresh` takes whether they throw for a changed key as a parameter (`writeFails`), and the exception they throw is one label, `FieldWriteError`, whatever Spring or reflection raised. Their effect on the beans is what the handler's `ConvertAndBindFieldValue` does, with keys under the regex normaliser. The re-bind call itself is the same binder call the handler makes.
- `EventHandler.RemoveMapKey`: on a path with more segments, a matching `Map` field is treated as having no fields to walk into, so nothing is removed below it. Java reflects over the fields of the JDK map object itself there (`ConfigurationChangedEventHandler.java` lines 207-211); what that finds depends on the map's implementation class, which is not modelled.
- Logging is left out.

## Findings

| source | as written | input that shows it | evidently intended | confidence | as-written member | corrected member |
|---|---|---|---|---|---|---|
| src/main/java/top/code2life/config/DynamicConfigBeanPostProcessor.java:248 | the camel-case replacement text is handed to `appendReplacement` unquoted, so `$` and `\` in the captured character are read as group references and escapes | a key `a$B` throws IllegalArgumentException; a key `a\B` loses its backslash | the captured character is inserted literally (`a$-b`, `a\-b`), as `Matcher.quoteReplacement` would give | high (not executed) | KeyNormalization.CamelSplitAsWritten | KeyNormalization.CamelSplit |
| src/main/java/top/code2life/config/ConfigurationChangedEventHandler.java:180 | `String.matches` needs the whole key to match `\[\d{1,3}]`, so only a key that is nothing but an index is skipped | the deleted key `a.m[0].x` is not skipped and removes `x` from map field `m` | keys holding an index, such as the commented `a.b[1].c.d`, are skipped | high (not executed) | EventHandler.RemoveMissingAsWritten | EventHandler.RemoveMissing |

The operations (`RegexKeys`, `OlderRebound`, `RebindAll`, `RemoveMissingPropsMapFields`) follow both sites as written. The corrected members stand beside them. `CamelSplitAsWrittenAgrees` proves where the two camel splits agree. `IndexedAsWrittenIsIndexed` proves that the corrected guard skips every key the written one skips. `RemoveMissingNullPrefix` and `RemoveMissingShrinks` hold under either guard.
