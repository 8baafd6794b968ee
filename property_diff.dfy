/**
 * The property diff of a reloaded configuration file: which keys were
 * added, changed or deleted between the previous and the current snapshot
 * of its property source, and the event that carries it.
 */
module PropertyDiff {
  import opened Strings
  import opened PropertySources

  /** A loaded file's properties. An OriginTrackedValue equals another when
      the values they wrap are equal, so a snapshot maps keys to values. */
  type Snapshot = map<string, Value>

  /** Diff entries: the newest value, or None (Java's null) for a deleted key. */
  type Diff = map<string, Option<Value>>

  /** Keys of `current` that `prev` lacks or holds with another value, with
      their current values: what the first loop of getPropertyDiff puts into
      the diff, and all that the post-processor's older diff holds. */
  function AddedOrChanged(prev: Snapshot, current: Snapshot): Snapshot {
    map k | k in current && (k !in prev || prev[k] != current[k]) :: current[k]
  }

  /** Keys of `prev` that `current` lacks: what the second loop marks deleted. */
  function Missing(prev: Snapshot, current: Snapshot): Diff {
    map k | k in prev && k !in current :: None
  }

  function Lifted(m: Snapshot): Diff {
    map k | k in m :: Some(m[k])
  }

  /** The diff getPropertyDiff computes. */
  function DiffOf(prev: Snapshot, current: Snapshot): Diff {
    Lifted(AddedOrChanged(prev, current)) + Missing(prev, current)
  }

  /** A diff as its consumers read it: set every valued key, drop every null one. */
  function ApplyDiff(s: Snapshot, d: Diff): Snapshot {
    map k | k in s.Keys + d.Keys && (k !in d || d[k].Some?) :: if k in d then d[k].value else s[k]
  }

  // -------------------------------------------------------------- the loops

  /** filterAddOrUpdatedKeys: one pass over `current`, putting every added or
      changed key with its current value. */
  method FilterAddOrUpdatedKeys(prev: Snapshot, current: Snapshot, diff: Diff) returns (r: Diff)
    ensures r == diff + Lifted(AddedOrChanged(prev, current))
  {
    r := diff;
    var todo := current.Keys;
    while todo != {}
      invariant todo <= current.Keys
      invariant r == diff + Lifted(AddedOrChanged(prev, current - todo))
      decreases |todo|
    {
      var k :| k in todo;
      AddedOrChangedStep(prev, current, todo, k);
      if k in prev {
        if current[k] != prev[k] {
          LiftedUpdate(diff, AddedOrChanged(prev, current - todo), k, current[k]);
          r := r[k := Some(current[k])];
        }
      } else {
        LiftedUpdate(diff, AddedOrChanged(prev, current - todo), k, current[k]);
        r := r[k := Some(current[k])];
      }
      todo := todo - {k};
    }
    assert current - todo == current;
  }

  /** Visiting one more key of `current` adds it when it is new or changed. */
  lemma AddedOrChangedStep(prev: Snapshot, current: Snapshot, todo: set<string>, k: string)
    requires k in todo && todo <= current.Keys
    ensures AddedOrChanged(prev, current - (todo - {k})) ==
      if k !in prev || prev[k] != current[k] then AddedOrChanged(prev, current - todo)[k := current[k]]
      else AddedOrChanged(prev, current - todo)
  {
    var before := AddedOrChanged(prev, current - todo);
    var after := AddedOrChanged(prev, current - (todo - {k}));
    if k !in prev || prev[k] != current[k] {
      assert after == before[k := current[k]];
    } else {
      assert after == before;
    }
  }

  lemma LiftedUpdate(diff: Diff, m: Snapshot, k: string, v: Value)
    ensures diff + Lifted(m[k := v]) == (diff + Lifted(m))[k := Some(v)]
  {
  }

  lemma DiffUpdate(diff: Diff, m: Diff, k: string, v: Option<Value>)
    ensures diff + m[k := v] == (diff + m)[k := v]
  {
  }

  /** filterMissingKeys: one pass over `prev`, putting null for every key
      that `current` lacks. */
  method FilterMissingKeys(prev: Snapshot, current: Snapshot, diff: Diff) returns (r: Diff)
    ensures r == diff + Missing(prev, current)
  {
    r := diff;
    var todo := prev.Keys;
    while todo != {}
      invariant todo <= prev.Keys
      invariant r == diff + Missing(prev - todo, current)
      decreases |todo|
    {
      var k :| k in todo;
      MissingStep(prev, current, todo, k);
      if k !in current {
        DiffUpdate(diff, Missing(prev - todo, current), k, None);
        r := r[k := None];
      }
      todo := todo - {k};
    }
    assert prev - todo == prev;
  }

  /** Visiting one more key of `prev` marks it when `current` lacks it. */
  lemma MissingStep(prev: Snapshot, current: Snapshot, todo: set<string>, k: string)
    requires k in todo && todo <= prev.Keys
    ensures Missing(prev - (todo - {k}), current) ==
      if k !in current then Missing(prev - todo, current)[k := None] else Missing(prev - todo, current)
  {
    var before := Missing(prev - todo, current);
    if k !in current {
      assert Missing(prev - (todo - {k}), current) == before[k := None];
    } else {
      assert Missing(prev - (todo - {k}), current) == before;
    }
  }

  /** ConfigurationChangedEvent.getPropertyDiff, and its copy in
      ConfigurationChangedEventHandler. */
  method GetPropertyDiff(prev: Snapshot, current: Snapshot) returns (diff: Diff)
    ensures diff == DiffOf(prev, current)
  {
    diff := map[];
    diff := FilterAddOrUpdatedKeys(prev, current, diff);
    diff := FilterMissingKeys(prev, current, diff);
    assert map[] + Lifted(AddedOrChanged(prev, current)) == Lifted(AddedOrChanged(prev, current));
  }

  /** DynamicConfigBeanPostProcessor.getPropertyDiff: the first loop alone,
      values unwrapped. */
  method GetAddedOrChangedDiff(prev: Snapshot, current: Snapshot) returns (diff: Snapshot)
    ensures diff == AddedOrChanged(prev, current)
  {
    diff := map[];
    var todo := current.Keys;
    while todo != {}
      invariant todo <= current.Keys
      invariant diff == AddedOrChanged(prev, current - todo)
      decreases |todo|
    {
      var k :| k in todo;
      AddedOrChangedStep(prev, current, todo, k);
      if k in prev {
        if current[k] != prev[k] {
          diff := diff[k := current[k]];
        }
      } else {
        diff := diff[k := current[k]];
      }
      todo := todo - {k};
    }
    assert current - todo == current;
  }

  // ---------------------------------------------------------- what a diff is

  /** Entry by entry: an added key carries its value, a key in both carries
      its current value exactly when the values differ, a deleted key carries
      null, and no other key appears. */
  lemma DiffOfEntries(prev: Snapshot, current: Snapshot, k: string)
    ensures k in current && k !in prev ==> k in DiffOf(prev, current) && DiffOf(prev, current)[k] == Some(current[k])
    ensures k in current && k in prev ==>
      (k in DiffOf(prev, current) <==> prev[k] != current[k])
      && (k in DiffOf(prev, current) ==> DiffOf(prev, current)[k] == Some(current[k]))
    ensures k in prev && k !in current ==> k in DiffOf(prev, current) && DiffOf(prev, current)[k] == None
    ensures k !in prev && k !in current ==> k !in DiffOf(prev, current)
  {
  }

  /** Applying the diff to the previous snapshot gives the current one. */
  lemma ApplyDiffOf(prev: Snapshot, current: Snapshot)
    ensures ApplyDiff(prev, DiffOf(prev, current)) == current
  {
    var d := DiffOf(prev, current);
    var a := ApplyDiff(prev, d);
    forall k ensures k in a <==> k in current {
      DiffOfEntries(prev, current, k);
    }
    forall k | k in a ensures a[k] == current[k] {
      DiffOfEntries(prev, current, k);
    }
  }

  /** No other diff that takes `prev` to `current` is smaller: every key of
      DiffOf must be touched by any diff that does. */
  lemma DiffOfIsMinimal(prev: Snapshot, current: Snapshot, d: Diff)
    requires ApplyDiff(prev, d) == current
    ensures DiffOf(prev, current).Keys <= d.Keys
  {
    forall k | k in DiffOf(prev, current) ensures k in d {
      DiffOfEntries(prev, current, k);
    }
  }

  /** The diff is empty exactly when nothing changed. */
  lemma DiffOfEmptyIff(prev: Snapshot, current: Snapshot)
    ensures DiffOf(prev, current) == map[] <==> prev == current
  {
    if DiffOf(prev, current) == map[] {
      ApplyDiffOf(prev, current);
      assert ApplyDiff(prev, map[]) == prev;
    } else {
      var k :| k in DiffOf(prev, current);
      DiffOfEntries(prev, current, k);
    }
  }

  /** Values compare as the loaded objects do: a YAML edit from `1.0` to
      `1.00`, or from `true` to `True`, loads the same Double or Boolean and
      is no change, while `1` to `'1'` turns an Integer into a String and is. */
  lemma TypedValuesCompare(key: string)
    ensures DiffOf(map[key := Decimal(1.0)], map[key := Decimal(1.00)]) == map[]
    ensures DiffOf(map[key := Bool(true)], map[key := Bool(true)]) == map[]
    ensures var d := DiffOf(map[key := Integer(1)], map[key := Text("1")]);
      key in d && d[key] == Some(Text("1"))
  {
    DiffOfEmptyIff(map[key := Decimal(1.0)], map[key := Decimal(1.00)]);
    DiffOfEmptyIff(map[key := Bool(true)], map[key := Bool(true)]);
    DiffOfEntries(map[key := Integer(1)], map[key := Text("1")], key);
  }

  /** The older diff is the valued part of the newer one: deleted keys never
      appear in it. */
  lemma OlderDiffIsValuedPart(prev: Snapshot, current: Snapshot)
    ensures AddedOrChanged(prev, current) ==
      map k | k in DiffOf(prev, current) && DiffOf(prev, current)[k].Some? :: DiffOf(prev, current)[k].value
    ensures forall k :: k in prev && k !in current ==> k !in AddedOrChanged(prev, current)
  {
    var d := DiffOf(prev, current);
    var valued := map k | k in d && d[k].Some? :: d[k].value;
    forall k ensures k in AddedOrChanged(prev, current) <==> k in valued {
      DiffOfEntries(prev, current, k);
    }
  }

  /** "Removed properties won't impact existing bean values": folding the
      older diff into the previous snapshot keeps every deleted key. */
  lemma OlderDiffKeepsDeleted(prev: Snapshot, current: Snapshot)
    ensures ApplyDiff(prev, Lifted(AddedOrChanged(prev, current))) == prev + current
  {
    var a := ApplyDiff(prev, Lifted(AddedOrChanged(prev, current)));
    forall k | k in a ensures a[k] == (prev + current)[k] {
      if k in current && k in prev && prev[k] == current[k] {
        assert k !in AddedOrChanged(prev, current);
      }
    }
  }

  // ------------------------------------------------------------------ the event

  /** ConfigurationChangedEvent: the application-event source is the path. */
  datatype ConfigurationChangedEvent = ConfigurationChangedEvent(
    source: string,
    path: string,
    previous: Option<PropertySource>,
    current: Option<PropertySource>,
    diff: Diff)

  /** The event constructor stores every argument as given. */
  function NewConfigurationChangedEvent(path: string, previous: Option<PropertySource>,
                                        current: Option<PropertySource>, diff: Diff)
    : (e: ConfigurationChangedEvent)
    ensures e.source == path && e.path == path
    ensures e.previous == previous && e.current == current && e.diff == diff
  {
    ConfigurationChangedEvent(path, path, previous, current, diff)
  }
}
