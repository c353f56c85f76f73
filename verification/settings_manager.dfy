/**
 * The settings store: an in-memory cache of setting values (`entries`), the
 * key/value view of the settings file (`props`), a dirty flag and a list of
 * change listeners. A reconcile step stores the cache when it is dirty, then
 * reloads the file, seeding it with any catalog key it lacks.
 *
 * Each `synchronized` block of the original is one atomic method here.
 */
module SettingsManager {
  import opened JavaLang
  import opened Settings

  /** A registered change listener; listeners are compared by identity. */
  datatype ListenerId = ListenerId(id: nat)

  /** One `settingsWereUpdated(changed)` call made on a listener. */
  datatype Notification = Notification(listener: ListenerId, changed: seq<Setting>)

  /** The position of the first occurrence of `x` in `s`. */
  function FirstIndex<T(==)>(s: seq<T>, x: T): (i: nat)
    requires x in s
    ensures i < |s| && s[i] == x && x !in s[..i]
  {
    if s[0] == x then 0
    else
      var j := FirstIndex(s[1..], x);
      assert s[..j + 1] == [s[0]] + s[1..][..j];
      j + 1
  }

  /** `List.remove(Object)`: drop the first occurrence, if there is one. */
  function RemoveFirst<T(==)>(s: seq<T>, x: T): (r: seq<T>)
    ensures x !in s ==> r == s
    ensures x in s ==> |r| == |s| - 1 && multiset(r) == multiset(s) - multiset{x}
    ensures x in s ==> r[..FirstIndex(s, x)] == s[..FirstIndex(s, x)]
    ensures x in s ==> r[FirstIndex(s, x)..] == s[FirstIndex(s, x) + 1..]
  {
    if x !in s then s
    else
      var i := FirstIndex(s, x);
      assert s == s[..i] + [s[i]] + s[i + 1..];
      s[..i] + s[i + 1..]
  }

  /** The value `getSetting` reports for `s` given the cache `entries`. */
  function ValueIn(entries: map<Setting, string>, s: Setting): (r: string)
    ensures s in entries ==> r == entries[s]
    ensures s !in entries ==> r == s.DefaultValue()
  {
    if s in entries then entries[s] else s.DefaultValue()
  }

  /** What a store writes into `props`: each cached value under its setting's key. */
  function StoredView(entries: map<Setting, string>): (r: map<string, string>)
    ensures forall s :: s in entries ==> s.Key() in r && r[s.Key()] == entries[s]
    ensures forall k :: k in r ==> exists s :: s in entries && s.Key() == k
  {
    KeysInjective();
    map s | s in entries :: s.Key() := entries[s]
  }

  /**
   * The keys a reload seeds among the first `n` catalog entries: those the
   * merged file lacks, each with its entry's default.
   */
  function SeedsUpTo(merged: map<string, string>, n: nat): (r: map<string, string>)
    requires n <= |AllSettings|
    ensures forall i :: 0 <= i < n && AllSettings[i].Key() !in merged ==>
      AllSettings[i].Key() in r && r[AllSettings[i].Key()] == AllSettings[i].DefaultValue()
    ensures forall k :: k in r ==> k !in merged && exists i :: 0 <= i < n && AllSettings[i].Key() == k
  {
    if n == 0 then map[]
    else
      var s := AllSettings[n - 1];
      var prev := SeedsUpTo(merged, n - 1);
      KeysInjective();
      if s.Key() in merged then prev else prev[s.Key() := s.DefaultValue()]
  }

  /**
   * The values a reload adopts into the cache among the first `n` catalog
   * entries: exactly those whose key the merged file holds.
   */
  function AdoptedUpTo(merged: map<string, string>, n: nat): (r: map<Setting, string>)
    requires n <= |AllSettings|
    ensures forall i :: 0 <= i < n && AllSettings[i].Key() in merged ==>
      AllSettings[i] in r && r[AllSettings[i]] == merged[AllSettings[i].Key()]
    ensures forall s :: s in r ==>
      s.Key() in merged && r[s] == merged[s.Key()] && exists i :: 0 <= i < n && AllSettings[i] == s
  {
    if n == 0 then map[]
    else
      var s := AllSettings[n - 1];
      var prev := AdoptedUpTo(merged, n - 1);
      if s.Key() in merged then prev[s := merged[s.Key()]] else prev
  }

  /** The catalog keys missing from the file, seeded with their defaults by a reload. */
  function Seeds(merged: map<string, string>): map<string, string>
  {
    SeedsUpTo(merged, |AllSettings|)
  }

  /** The file values a reload adopts into the cache. */
  function Adopted(merged: map<string, string>): map<Setting, string>
  {
    AdoptedUpTo(merged, |AllSettings|)
  }

  /** `props` after `Properties.load` of a readable file: file values override, other keys stay. */
  function Merge(props: map<string, string>, read: Option<map<string, string>>): (r: map<string, string>)
    ensures read.None? ==> r == props
    ensures read.Some? ==> r.Keys == props.Keys + read.value.Keys
    ensures read.Some? ==> forall k :: k in read.value ==> r[k] == read.value[k]
    ensures forall k :: k in props && (read.None? || k !in read.value) ==> r[k] == props[k]
  {
    match read
    case None => props
    case Some(m) => props + m
  }

  /** The settings file: its key/value contents, which other cluster members may also write. */
  class PropertiesFile {
    var contents: map<string, string>

    constructor (initial: map<string, string>)
      ensures contents == initial
    {
      contents := initial;
    }
  }

  class SettingsManager {
    var entries: map<Setting, string>
    var props: map<string, string>
    var settingsAreDirty: bool
    var listeners: seq<ListenerId>

    /** Every cached value has been copied into `props` under its key. */
    ghost predicate EntriesPersisted()
      reads this
    {
      forall s: Setting :: s in entries ==> s.Key() in props
    }

    /** The store's invariant: a clean cache is fully reflected in `props`. */
    ghost predicate Valid()
      reads this
    {
      settingsAreDirty || EntriesPersisted()
    }

    /** After a reload: `props` holds every catalog key, with the value `getSetting` reports. */
    ghost predicate Consistent()
      reads this
    {
      forall s: Setting :: s.Key() in props && props[s.Key()] == GetSetting(s)
    }

    constructor ()
      ensures entries == map[] && props == map[] && !settingsAreDirty && listeners == []
      ensures Valid()
    {
      entries := map[];
      props := map[];
      settingsAreDirty := false;
      listeners := [];
    }

    /** `getSetting`: the cached value, or the catalog default when there is none. */
    function GetSetting(s: Setting): (r: string)
      reads this
      ensures s in entries ==> r == entries[s]
      ensures s !in entries ==> r == s.DefaultValue()
    {
      ValueIn(entries, s)
    }

    /** `setSetting`: cache the value and mark the store dirty; nothing else changes. */
    method SetSetting(s: Setting, value: string)
      modifies this
      ensures entries == old(entries)[s := value]
      ensures settingsAreDirty
      ensures props == old(props) && listeners == old(listeners)
      ensures GetSetting(s) == value
      ensures forall t :: t != s ==> GetSetting(t) == old(GetSetting(t))
      ensures Valid()
    {
      entries := entries[s := value];
      settingsAreDirty := true;
    }

    /** `registerListener`: append, duplicates allowed. */
    method RegisterListener(listener: ListenerId)
      modifies this
      ensures listeners == old(listeners) + [listener]
      ensures entries == old(entries) && props == old(props) && settingsAreDirty == old(settingsAreDirty)
    {
      listeners := listeners + [listener];
    }

    /** `removeListener`: drop one occurrence; no change when the listener is absent. */
    method RemoveListener(listener: ListenerId)
      modifies this
      ensures listeners == RemoveFirst(old(listeners), listener)
      ensures entries == old(entries) && props == old(props) && settingsAreDirty == old(settingsAreDirty)
    {
      listeners := RemoveFirst(listeners, listener);
    }

    /** `signalSettingsChanged`: every listener, in list order, is told the same changed list. */
    method SignalSettingsChanged(changedSettings: seq<Setting>) returns (calls: seq<Notification>)
      ensures |calls| == |listeners|
      ensures forall i :: 0 <= i < |calls| ==> calls[i] == Notification(listeners[i], changedSettings)
    {
      calls := [];
      for i := 0 to |listeners|
        invariant |calls| == i
        invariant forall j :: 0 <= j < i ==> calls[j] == Notification(listeners[j], changedSettings)
      {
        calls := calls + [Notification(listeners[i], changedSettings)];
      }
    }

    /**
     * `storeProperties`: copy every cached value into `props` under its key,
     * write `props` to the file when the write succeeds, and mark the store
     * clean whether or not it did.
     */
    method StoreProperties(file: PropertiesFile, writeOk: bool)
      modifies this, file
      ensures props == old(props) + StoredView(entries)
      ensures file.contents == if writeOk then props else old(file.contents)
      ensures !settingsAreDirty
      ensures entries == old(entries) && listeners == old(listeners)
      ensures EntriesPersisted()
    {
      var todo := entries.Keys;
      while todo != {}
        invariant todo <= entries.Keys
        invariant entries == old(entries) && listeners == old(listeners)
        invariant props == old(props) + StoredView(entries - todo)
        invariant file.contents == old(file.contents)
        decreases todo
      {
        var s :| s in todo;
        StoredViewStep(entries, todo, s);
        UnionUpdate(old(props), StoredView(entries - todo), s.Key(), entries[s]);
        props := props[s.Key() := entries[s]];
        todo := todo - {s};
      }
      assert entries - todo == entries;
      if writeOk {
        file.contents := props;
      }
      settingsAreDirty := false;
    }

    /**
     * `loadProperties`, as written: merge the file into `props`; then, for
     * each catalog entry in order, seed `props` from the cache (or default)
     * when the key is missing, or adopt the file value into the cache.
     * The change check reads the cache after it was updated, so the changed
     * list stays empty and no listener is ever called from here.
     */
    method LoadProperties(file: PropertiesFile, readOk: bool) returns (calls: seq<Notification>)
      requires EntriesPersisted()
      modifies this
      ensures var merged := Merge(old(props), if readOk then Some(file.contents) else None);
        && props == merged + Seeds(merged)
        && entries == old(entries) + Adopted(merged)
        && (settingsAreDirty <==> old(settingsAreDirty) || Seeds(merged) != map[])
      ensures calls == []
      ensures listeners == old(listeners)
      ensures EntriesPersisted() && Consistent()
    {
      if readOk {
        props := props + file.contents;
      }
      ghost var merged := props;
      ghost var entries0 := entries;
      ghost var dirty0 := settingsAreDirty;
      var changedSettings: seq<Setting> := [];
      for i := 0 to |AllSettings|
        invariant changedSettings == []
        invariant listeners == old(listeners)
        invariant forall s :: s in entries0 ==> s.Key() in merged
        invariant props == merged + SeedsUpTo(merged, i)
        invariant entries == entries0 + AdoptedUpTo(merged, i)
        invariant settingsAreDirty <==> dirty0 || SeedsUpTo(merged, i) != map[]
      {
        var setting := AllSettings[i];
        var value := ReloadEntry(i, merged, entries0, dirty0);
        // detect any changes here for signalling
        var origValue := Lookup(entries, setting);
        if origValue.Some? {
          // `value.equals(origValue)` in the original: value is never null here
          if value.value != origValue.value {
            changedSettings := changedSettings + [setting];
          }
        }
      }
      if changedSettings != [] {
        calls := SignalSettingsChanged(changedSettings);
      } else {
        calls := [];
      }
      ReloadConsistent(merged, entries0, props, entries);
    }

    /**
     * The body of the reload loop for catalog entry `i`, up to the change
     * check: seed the key when the file lacks it, otherwise adopt the file's
     * value. Returns what the file held under the key.
     */
    method ReloadEntry(i: nat, ghost merged: map<string, string>, ghost entries0: map<Setting, string>, ghost dirty0: bool)
      returns (value: Option<string>)
      requires i < |AllSettings|
      requires forall s :: s in entries0 ==> s.Key() in merged
      requires props == merged + SeedsUpTo(merged, i)
      requires entries == entries0 + AdoptedUpTo(merged, i)
      requires settingsAreDirty <==> dirty0 || SeedsUpTo(merged, i) != map[]
      modifies this
      ensures props == merged + SeedsUpTo(merged, i + 1)
      ensures entries == entries0 + AdoptedUpTo(merged, i + 1)
      ensures settingsAreDirty <==> dirty0 || SeedsUpTo(merged, i + 1) != map[]
      ensures listeners == old(listeners)
      ensures value == Lookup(merged, AllSettings[i].Key())
      ensures AllSettings[i] in entries <==> value.Some?
      ensures value.Some? ==> entries[AllSettings[i]] == value.value
    {
      var setting := AllSettings[i];
      if setting.Key() in merged {
        ReloadStepAdopt(merged, entries0, i);
      } else {
        ReloadStepFresh(merged, entries0, i);
        ReloadStepSeed(merged, i);
        AdoptedStepMissing(merged, i);
      }
      value := Lookup(props, setting.Key());
      if value.None? {
        props := props[setting.Key() := GetSetting(setting)];
        settingsAreDirty := true;
      } else {
        entries := entries[setting := value.value];
      }
    }

    /**
     * `syncProperties`, one reconcile step: store when dirty, then always
     * reload. Afterwards the cache and `props` agree on every catalog entry.
     */
    method SyncProperties(file: PropertiesFile, writeOk: bool, readOk: bool) returns (calls: seq<Notification>)
      requires Valid()
      modifies this, file
      ensures old(settingsAreDirty) && writeOk ==> file.contents == old(props) + StoredView(old(entries))
      ensures !(old(settingsAreDirty) && writeOk) ==> file.contents == old(file.contents)
      ensures var stored := if old(settingsAreDirty) then old(props) + StoredView(old(entries)) else old(props);
        var merged := Merge(stored, if readOk then Some(file.contents) else None);
        && props == merged + Seeds(merged)
        && entries == old(entries) + Adopted(merged)
        && (settingsAreDirty <==> Seeds(merged) != map[])
      ensures calls == [] && listeners == old(listeners)
      ensures EntriesPersisted() && Consistent() && Valid()
    {
      if settingsAreDirty {
        StoreProperties(file, writeOk);
      }
      calls := LoadProperties(file, readOk);
    }
  }

  lemma UnionUpdate<K, V>(m: map<K, V>, n: map<K, V>, k: K, v: V)
    ensures m + n[k := v] == (m + n)[k := v]
  {
  }

  lemma StoredViewStep(entries: map<Setting, string>, todo: set<Setting>, s: Setting)
    requires s in todo && todo <= entries.Keys
    ensures StoredView(entries - (todo - {s})) == StoredView(entries - todo)[s.Key() := entries[s]]
  {
    assert entries - (todo - {s}) == (entries - todo)[s := entries[s]];
    StoredViewUpdate(entries - todo, s, entries[s]);
  }

  /** Caching one more value adds exactly that value, under its key, to the persisted view. */
  lemma StoredViewUpdate(e: map<Setting, string>, s: Setting, v: string)
    ensures StoredView(e[s := v]) == StoredView(e)[s.Key() := v]
  {
    var a := StoredView(e[s := v]);
    var b := StoredView(e)[s.Key() := v];
    forall k | k in a ensures k in b && a[k] == b[k] {
      StoredViewUpdateForward(e, s, v, k);
    }
    forall k | k in b ensures k in a {
      StoredViewUpdateBackward(e, s, v, k);
    }
  }

  lemma StoredViewUpdateForward(e: map<Setting, string>, s: Setting, v: string, k: string)
    requires k in StoredView(e[s := v])
    ensures k in StoredView(e)[s.Key() := v]
    ensures StoredView(e[s := v])[k] == StoredView(e)[s.Key() := v][k]
  {
    var t :| t in e[s := v] && t.Key() == k;
    if t != s {
      if k == s.Key() { KeysDistinct(s, t); }
      assert t in e;
    }
  }

  lemma StoredViewUpdateBackward(e: map<Setting, string>, s: Setting, v: string, k: string)
    requires k in StoredView(e)[s.Key() := v]
    ensures k in StoredView(e[s := v])
  {
    if k != s.Key() {
      var t :| t in e && t.Key() == k;
      assert t in e[s := v];
    }
  }

  /**
   * Entry `i` of the catalog is neither seeded nor adopted before the reload
   * reaches it; when the merged file lacks its key, it is not cached either.
   */
  lemma ReloadStepFresh(merged: map<string, string>, entries0: map<Setting, string>, i: nat)
    requires i < |AllSettings|
    requires forall s :: s in entries0 ==> s.Key() in merged
    ensures AllSettings[i].Key() !in SeedsUpTo(merged, i)
    ensures AllSettings[i] !in AdoptedUpTo(merged, i)
    ensures AllSettings[i].Key() !in merged ==> AllSettings[i] !in entries0 + AdoptedUpTo(merged, i)
  {
    CatalogShape();
    var s := AllSettings[i];
    if s.Key() in SeedsUpTo(merged, i) {
      var j :| 0 <= j < i && AllSettings[j].Key() == s.Key();
      KeysDistinct(AllSettings[j], s);
      assert false;
    }
  }

  /** For an entry the file lacks, the seeds grow by its key with its default. */
  lemma SeedsStepMissing(merged: map<string, string>, i: nat)
    requires i < |AllSettings| && AllSettings[i].Key() !in merged
    ensures SeedsUpTo(merged, i + 1) == SeedsUpTo(merged, i)[AllSettings[i].Key() := AllSettings[i].DefaultValue()]
  {
  }

  /** For an entry the file lacks, nothing more is adopted. */
  lemma AdoptedStepMissing(merged: map<string, string>, i: nat)
    requires i < |AllSettings| && AllSettings[i].Key() !in merged
    ensures AdoptedUpTo(merged, i + 1) == AdoptedUpTo(merged, i)
  {
  }

  /** One step of the reload loop for an entry the file lacks: its key is seeded. */
  lemma ReloadStepSeed(merged: map<string, string>, i: nat)
    requires i < |AllSettings| && AllSettings[i].Key() !in merged
    ensures merged + SeedsUpTo(merged, i + 1)
         == (merged + SeedsUpTo(merged, i))[AllSettings[i].Key() := AllSettings[i].DefaultValue()]
    ensures SeedsUpTo(merged, i + 1) != map[]
  {
    var s := AllSettings[i];
    SeedsStepMissing(merged, i);
    UnionUpdate(merged, SeedsUpTo(merged, i), s.Key(), s.DefaultValue());
  }

  /** One step of the reload loop for an entry the file holds: its value is adopted. */
  lemma ReloadStepAdopt(merged: map<string, string>, entries0: map<Setting, string>, i: nat)
    requires i < |AllSettings| && AllSettings[i].Key() in merged
    ensures AllSettings[i].Key() in merged + SeedsUpTo(merged, i)
    ensures (merged + SeedsUpTo(merged, i))[AllSettings[i].Key()] == merged[AllSettings[i].Key()]
    ensures SeedsUpTo(merged, i + 1) == SeedsUpTo(merged, i)
    ensures entries0 + AdoptedUpTo(merged, i + 1)
         == (entries0 + AdoptedUpTo(merged, i))[AllSettings[i] := merged[AllSettings[i].Key()]]
  {
    var s := AllSettings[i];
    UnionUpdate(entries0, AdoptedUpTo(merged, i), s, merged[s.Key()]);
  }

  /** After a reload, `props` and the cache agree on every catalog entry. */
  lemma ReloadConsistent(merged: map<string, string>, entries0: map<Setting, string>,
                         props: map<string, string>, entries: map<Setting, string>)
    requires forall s :: s in entries0 ==> s.Key() in merged
    requires props == merged + Seeds(merged)
    requires entries == entries0 + Adopted(merged)
    ensures forall s: Setting :: s in entries ==> s.Key() in props
    ensures forall s: Setting :: s.Key() in props && props[s.Key()] == ValueIn(entries, s)
  {
    forall s: Setting ensures s.Key() in props && props[s.Key()] == ValueIn(entries, s) {
      var i := s.Ordinal();
      if s.Key() !in merged {
        ReloadStepFresh(merged, entries0, i);
      }
    }
  }
}
