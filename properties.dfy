/**
 * The launcher's property tables: merging one Properties table into another without
 * overwriting, and seeding the framework properties from a map of initial values.
 */
module StarterProperties {
  import opened Wrappers

  /** A java.util.Properties table of string keys and string values. */
  class Properties {
    var entries: map<string, string>

    constructor(initial: map<string, string>)
      ensures entries == initial
    {
      entries := initial;
    }

    /** getProperty: the value of a key, None for a missing key. */
    function GetProperty(key: string): (v: Option<string>)
      reads this
      ensures v.Some? <==> key in entries
      ensures v.Some? ==> v.value == entries[key]
    {
      if key in entries then Some(entries[key]) else None
    }

    method Put(key: string, value: string)
      modifies this
      ensures entries == old(entries)[key := value]
    {
      entries := entries[key := value];
    }
  }

  /** The destination table after merging: its own entries, plus the source's entries for keys it lacks. */
  function Merged(destination: map<string, string>, source: map<string, string>): map<string, string> {
    map k | k in destination.Keys + source.Keys :: if k in destination then destination[k] else source[k]
  }

  /** Merging keeps every existing entry and adds every missing one, and nothing else. */
  lemma MergedEntries(destination: map<string, string>, source: map<string, string>)
    ensures Merged(destination, source).Keys == destination.Keys + source.Keys
    ensures forall k :: k in destination ==> Merged(destination, source)[k] == destination[k]
    ensures forall k :: k in source && k !in destination ==> Merged(destination, source)[k] == source[k]
  {
  }

  /** Merging the same source twice changes nothing the second time, and a table merged into itself is unchanged. */
  lemma MergedIdempotent(destination: map<string, string>, source: map<string, string>)
    ensures Merged(Merged(destination, source), source) == Merged(destination, source)
    ensures Merged(source, source) == source
  {
  }

  /** Merging into an empty table copies the source. */
  lemma MergedIntoEmpty(source: map<string, string>)
    ensures Merged(map[], source) == source
  {
  }

  function Restrict(m: map<string, string>, keys: set<string>): map<string, string> {
    map k | k in m && k in keys :: m[k]
  }

  /**
   * mergeProperties: for every key of the source, in whatever order its enumeration gives,
   * the destination receives the source's value when it has no value of its own.  The two
   * tables may be the same object.
   */
  method MergeProperties(destination: Properties, source: Properties)
    modifies destination
    ensures destination.entries == Merged(old(destination.entries), old(source.entries))
  {
    ghost var original := destination.entries;
    var keys := source.entries.Keys;
    ghost var sourceEntries := source.entries;
    ghost var done: set<string> := {};
    while keys != {}
      invariant keys + done == sourceEntries.Keys && keys !! done
      invariant destination.entries == Merged(original, Restrict(sourceEntries, done))
      invariant source.entries == sourceEntries
    {
      var key :| key in keys;
      keys := keys - {key};
      var value := source.entries[key];
      MergeStep(original, sourceEntries, done, key);
      if destination.GetProperty(key).None? {
        destination.Put(key, value);
      }
      done := done + {key};
    }
    assert Restrict(sourceEntries, done) == sourceEntries;
  }

  /** One source key more: it is added exactly when the merged table lacks it. */
  lemma MergeStep(original: map<string, string>, source: map<string, string>, done: set<string>, key: string)
    requires key in source && key !in done
    ensures var before := Merged(original, Restrict(source, done));
      Merged(original, Restrict(source, done + {key})) ==
        if key in before then before else before[key := source[key]]
  {
  }

  /** The framework's own property table, FrameworkProperties. */
  class FrameworkProperties {
    var properties: map<string, string>

    constructor(initial: map<string, string>)
      ensures properties == initial
    {
      properties := initial;
    }

    method SetProperty(key: string, value: string)
      modifies this
      ensures properties == old(properties)[key := value]
    {
      properties := properties[key := value];
    }

    method ClearProperty(key: string)
      modifies this
      ensures properties == old(properties) - {key}
    {
      properties := properties - {key};
    }

    /**
     * setInitialProperties: nothing happens for a missing or empty map; otherwise each key
     * with a value is set to it and each key mapped to no value is cleared.
     */
    method SetInitialProperties(initialProperties: Option<map<string, Option<string>>>)
      modifies this
      ensures initialProperties.None? || initialProperties.value == map[] ==> properties == old(properties)
      ensures initialProperties.Some? ==> properties == Applied(old(properties), initialProperties.value)
    {
      if initialProperties.None? || initialProperties.value == map[] {
        if initialProperties.Some? {
          AppliedNothing(properties);
        }
        return;
      }
      var initial := initialProperties.value;
      var keys := initial.Keys;
      ghost var original := properties;
      ghost var done: set<string> := {};
      while keys != {}
        invariant keys + done == initial.Keys && keys !! done
        invariant properties == Applied(original, RestrictInitial(initial, done))
      {
        var key :| key in keys;
        keys := keys - {key};
        ApplyStep(original, initial, done, key);
        if initial[key].Some? {
          SetProperty(key, initial[key].value);
        } else {
          ClearProperty(key);
        }
        done := done + {key};
      }
      assert RestrictInitial(initial, done) == initial;
    }
  }

  /** One key more of the initial values: that key is set or cleared. */
  lemma ApplyStep(original: map<string, string>, initial: map<string, Option<string>>, done: set<string>, key: string)
    requires key in initial && key !in done
    ensures var before := Applied(original, RestrictInitial(initial, done));
      Applied(original, RestrictInitial(initial, done + {key})) ==
        if initial[key].Some? then before[key := initial[key].value] else before - {key}
  {
  }

  function RestrictInitial(m: map<string, Option<string>>, keys: set<string>): map<string, Option<string>> {
    map k | k in m && k in keys :: m[k]
  }

  /** The properties after applying initial values: set keys take their value, cleared keys are gone. */
  function Applied(properties: map<string, string>, initial: map<string, Option<string>>): map<string, string> {
    map k | k in (properties.Keys - initial.Keys) + (set j | j in initial && initial[j].Some?) ::
      if k in initial then initial[k].value else properties[k]
  }

  lemma AppliedNothing(properties: map<string, string>)
    ensures Applied(properties, map[]) == properties
  {
  }

  /**
   * After the initial values are applied, a key with a value has it, a key mapped to no value
   * is absent, and every other key is as it was.
   */
  lemma AppliedEntries(properties: map<string, string>, initial: map<string, Option<string>>)
    ensures forall k :: k in initial && initial[k].Some? ==> k in Applied(properties, initial) && Applied(properties, initial)[k] == initial[k].value
    ensures forall k :: k in initial && initial[k].None? ==> k !in Applied(properties, initial)
    ensures forall k :: k !in initial ==> (k in Applied(properties, initial) <==> k in properties)
    ensures forall k :: k !in initial && k in properties ==> Applied(properties, initial)[k] == properties[k]
  {
  }

  /** Applying the same initial values twice is the same as applying them once. */
  lemma AppliedIdempotent(properties: map<string, string>, initial: map<string, Option<string>>)
    ensures Applied(Applied(properties, initial), initial) == Applied(properties, initial)
  {
  }
}
