/**
  The sensor reading cache of container/purpleair_to_mqtt.py (`PurpleAirSensor`).

  A fetch either yields the sensor's JSON object or fails. On success the keys
  are sanitised (every '.' stripped, all renames collected first and applied
  afterwards), the config subset is derived and the time stamped; on failure
  the reading is cleared and the timestamp reset to 0. `data()` refetches only
  once the reading is older than the TTL.
 */
module ContainerSensor {
  import opened Wrappers
  import opened PyDict
  import opened JsonValue
  import opened Text
  import SensorTopic

  /** CONFIG_DATA_KEYS: the identity and metadata fields published as the config snapshot. */
  const ConfigDataKeys: seq<string> :=
    ["Geo", "Id", "SensorId", "hardwarediscovered", "hardwareversion", "lat", "lon", "ssid", "version"]

  /** `key.find('.') > -1` */
  predicate HasDot(key: string)
  {
    '.' in key
  }

  /** `key.replace('.', '')` */
  function StripDots(key: string): (r: string)
    ensures !HasDot(r)
  {
    RemoveAll(key, '.')
  }

  // ---------------------------------------------------------------------------
  // Key sanitisation as the source performs it

  /** The `key_fixes` list the first loop collects from the keys `ks`, in order. */
  function KeyFixes(ks: seq<string>): (fixes: Dict<string>)
    ensures forall i :: 0 <= i < |fixes| ==>
      HasDot(fixes[i].0) && fixes[i].1 == StripDots(fixes[i].0) && fixes[i].0 in ks
  {
    if ks == [] then []
    else
      var key := ks[|ks| - 1];
      KeyFixes(ks[..|ks| - 1]) + (if HasDot(key) then [(key, StripDots(key))] else [])
  }

  /** The second loop: `jsondata[new_key] = jsondata.pop(key)` for each fix in turn.
      (A fix whose key is missing would raise KeyError; that never happens for the
      fixes KeyFixes collects, see FixKeyPresent.) */
  function ApplyFixes(d: Dict<Json>, fixes: Dict<string>): Dict<Json>
  {
    if fixes == [] then d
    else
      var prev := ApplyFixes(d, fixes[..|fixes| - 1]);
      var (key, newKey) := fixes[|fixes| - 1];
      match Lookup(prev, key)
      case Some(v) => Set(Remove(prev, key), newKey, v)
      case None => prev
  }

  /** The reading `fetch_purpleair_data` stores for the JSON object `d`. */
  function Sanitise(d: Dict<Json>): Dict<Json>
  {
    ApplyFixes(d, KeyFixes(Keys(d)))
  }

  // ---------------------------------------------------------------------------
  // An independent description of the sanitised reading

  /** The last key of `ks` that contains a dot and strips to `x`. */
  function LastDottedKey(ks: seq<string>, x: string): (r: Option<string>)
    ensures r.Some? ==> r.value in ks && HasDot(r.value) && StripDots(r.value) == x
    ensures r.None? <==> forall i :: 0 <= i < |ks| ==> !(HasDot(ks[i]) && StripDots(ks[i]) == x)
  {
    if ks == [] then None
    else
      var key := ks[|ks| - 1];
      if HasDot(key) && StripDots(key) == x then Some(key)
      else
        var r := LastDottedKey(ks[..|ks| - 1], x);
        assert forall i :: 0 <= i < |ks| - 1 ==> ks[..|ks| - 1][i] == ks[i];
        r
  }

  /** The value the sanitised reading holds under `x`: nothing under a dotted key;
      under a dot-free key, the value of the last dotted key that strips to it, or
      else the original value. */
  function SanitisedValue(d: Dict<Json>, x: string): Option<Json>
  {
    if HasDot(x) then None
    else
      match LastDottedKey(Keys(d), x)
      case Some(k) => Lookup(d, k)
      case None => Lookup(d, x)
  }

  // ---------------------------------------------------------------------------
  // Why the two agree

  /** The fixes the first loop can produce: dotted keys of `d`, each once, each
      with its stripped form. */
  ghost predicate ValidFixes(d: Dict<Json>, fixes: Dict<string>)
  {
    && Unique(fixes)
    && forall i :: 0 <= i < |fixes| ==>
         HasDot(fixes[i].0) && fixes[i].1 == StripDots(fixes[i].0) && fixes[i].0 in Keys(d)
  }

  /** The key the last fix renaming into `x` came from. */
  function LastTarget(fixes: Dict<string>, x: string): (r: Option<string>)
    ensures r.Some? ==> exists i :: 0 <= i < |fixes| && fixes[i] == (r.value, x)
  {
    if fixes == [] then None
    else if fixes[|fixes| - 1].1 == x then Some(fixes[|fixes| - 1].0)
    else
      var r := LastTarget(fixes[..|fixes| - 1], x);
      assert forall i :: 0 <= i < |fixes| - 1 ==> fixes[..|fixes| - 1][i] == fixes[i];
      r
  }

  /** What applying `fixes` leaves under `x`. */
  function AfterFixes(d: Dict<Json>, fixes: Dict<string>, x: string): Option<Json>
  {
    if x in Keys(fixes) then None
    else
      match LastTarget(fixes, x)
      case Some(k) => Lookup(d, k)
      case None => Lookup(d, x)
  }

  lemma ValidFixesPrefix(d: Dict<Json>, fixes: Dict<string>, n: nat)
    requires ValidFixes(d, fixes) && n <= |fixes|
    ensures ValidFixes(d, fixes[..n])
  {
    assert forall i :: 0 <= i < n ==> fixes[..n][i] == fixes[i];
  }

  /** A key about to be fixed is still present with its original value: `pop` does not raise. */
  lemma FixKeyPresent(d: Dict<Json>, fixes: Dict<string>, j: nat)
    requires Unique(d) && ValidFixes(d, fixes) && j < |fixes|
    ensures AfterFixes(d, fixes[..j], fixes[j].0) == Lookup(d, fixes[j].0)
    ensures Lookup(d, fixes[j].0).Some?
  {
    var key := fixes[j].0;
    var init := fixes[..j];
    KeysMember(init, key);
    assert key !in Keys(init) by {
      forall i | 0 <= i < j ensures init[i].0 != key { assert init[i] == fixes[i]; }
    }
  }

  /** After the last fix, its own key holds nothing. */
  lemma AfterFixesLastKey(d: Dict<Json>, fixes: Dict<string>)
    requires fixes != []
    ensures AfterFixes(d, fixes, fixes[|fixes| - 1].0) == None
  {
    KeysMember(fixes, fixes[|fixes| - 1].0);
  }

  /** After the last fix, its new key holds the original value of its key. */
  lemma AfterFixesLastNewKey(d: Dict<Json>, fixes: Dict<string>)
    requires ValidFixes(d, fixes) && fixes != []
    ensures AfterFixes(d, fixes, fixes[|fixes| - 1].1) == Lookup(d, fixes[|fixes| - 1].0)
  {
    var x := fixes[|fixes| - 1].1;
    KeysMember(fixes, x);
    forall i | 0 <= i < |fixes| ensures fixes[i].0 != x {
      assert HasDot(fixes[i].0);
    }
  }

  /** The last fix leaves every other key as the earlier fixes left it. */
  lemma AfterFixesLastOther(d: Dict<Json>, fixes: Dict<string>, x: string)
    requires fixes != [] && x != fixes[|fixes| - 1].0 && x != fixes[|fixes| - 1].1
    ensures AfterFixes(d, fixes, x) == AfterFixes(d, fixes[..|fixes| - 1], x)
  {
    var n := |fixes| - 1;
    var init := fixes[..n];
    assert fixes == init + [fixes[n]];
    KeysAppend(init, [fixes[n]]);
  }

  /** One more fix whose key is present: ApplyFixes pops it and stores it under the new key. */
  lemma ApplyFixesUnfold(d: Dict<Json>, fixes: Dict<string>, v: Json)
    requires fixes != []
    requires Lookup(ApplyFixes(d, fixes[..|fixes| - 1]), fixes[|fixes| - 1].0) == Some(v)
    ensures ApplyFixes(d, fixes) ==
      Set(Remove(ApplyFixes(d, fixes[..|fixes| - 1]), fixes[|fixes| - 1].0), fixes[|fixes| - 1].1, v)
  {
  }

  /** Popping `key` and storing its value under `newKey` moves the one value and nothing else. */
  lemma LookupMove(prev: Dict<Json>, key: string, newKey: string, v: Json, x: string)
    requires Unique(prev) && key != newKey
    ensures Lookup(Set(Remove(prev, key), newKey, v), x) ==
      if x == key then None else if x == newKey then Some(v) else Lookup(prev, x)
  {
    LookupSet(Remove(prev, key), newKey, v, x);
    LookupRemove(prev, key, x);
  }

  lemma {:induction false} ApplyFixesLookup(d: Dict<Json>, fixes: Dict<string>)
    requires Unique(d) && ValidFixes(d, fixes)
    ensures Unique(ApplyFixes(d, fixes))
    ensures forall x :: Lookup(ApplyFixes(d, fixes), x) == AfterFixes(d, fixes, x)
  {
    if fixes == [] {
    } else {
      var n := |fixes| - 1;
      var init := fixes[..n];
      var (key, newKey) := fixes[n];
      ValidFixesPrefix(d, fixes, n);
      ApplyFixesLookup(d, init);
      var prev := ApplyFixes(d, init);
      FixKeyPresent(d, fixes, n);
      var v := Lookup(d, key).value;
      assert Lookup(prev, key) == Some(v);
      ApplyFixesUnfold(d, fixes, v);
      assert newKey != key by { assert !HasDot(StripDots(key)); }
      forall x ensures Lookup(ApplyFixes(d, fixes), x) == AfterFixes(d, fixes, x) {
        LookupMove(prev, key, newKey, v, x);
        if x == key {
          AfterFixesLastKey(d, fixes);
        } else if x == newKey {
          AfterFixesLastNewKey(d, fixes);
        } else {
          AfterFixesLastOther(d, fixes, x);
        }
      }
    }
  }

  lemma {:induction false} KeyFixesUnique(ks: seq<string>)
    requires forall i, j :: 0 <= i < j < |ks| ==> ks[i] != ks[j]
    ensures Unique(KeyFixes(ks))
  {
    if ks != [] {
      var init := ks[..|ks| - 1];
      KeyFixesUnique(init);
      var key := ks[|ks| - 1];
      assert key !in init;
    }
  }

  /** The keys the first loop collects are exactly the dotted keys. */
  lemma {:induction false} KeyFixesKeys(ks: seq<string>, x: string)
    ensures x in Keys(KeyFixes(ks)) <==> HasDot(x) && x in ks
  {
    if ks != [] {
      var init := ks[..|ks| - 1];
      var key := ks[|ks| - 1];
      KeyFixesKeys(init, x);
      assert ks == init + [key];
      var tail: Dict<string> := if HasDot(key) then [(key, StripDots(key))] else [];
      assert KeyFixes(ks) == KeyFixes(init) + tail;
      KeysAppend(KeyFixes(init), tail);
    }
  }

  /** The last fix into `x` comes from the last dotted key that strips to `x`. */
  lemma {:induction false} KeyFixesLastTarget(ks: seq<string>, x: string)
    ensures LastTarget(KeyFixes(ks), x) == LastDottedKey(ks, x)
  {
    if ks != [] {
      var init := ks[..|ks| - 1];
      var key := ks[|ks| - 1];
      KeyFixesLastTarget(init, x);
      var f := KeyFixes(init);
      if HasDot(key) {
        var g := f + [(key, StripDots(key))];
        assert KeyFixes(ks) == g;
        assert g[..|g| - 1] == f;
      } else {
        assert KeyFixes(ks) == f;
      }
    }
  }

  /** The sanitised reading is a dict described exactly by SanitisedValue. */
  lemma SanitiseLookup(d: Dict<Json>)
    requires Unique(d)
    ensures Unique(Sanitise(d))
    ensures forall x :: Lookup(Sanitise(d), x) == SanitisedValue(d, x)
  {
    var fixes := KeyFixes(Keys(d));
    KeyFixesUnique(Keys(d));
    ApplyFixesLookup(d, fixes);
    forall x ensures AfterFixes(d, fixes, x) == SanitisedValue(d, x) {
      KeyFixesKeys(Keys(d), x);
      KeyFixesLastTarget(Keys(d), x);
    }
  }

  // ---------------------------------------------------------------------------
  // Properties of sanitisation

  /** After sanitisation no key contains a dot. */
  lemma SanitisedKeysHaveNoDots(d: Dict<Json>, k: string)
    requires Unique(d)
    requires k in Keys(Sanitise(d))
    ensures !HasDot(k)
  {
    SanitiseLookup(d);
    assert Lookup(Sanitise(d), k).Some?;
  }

  /** A reading without dotted keys is stored unchanged, order included. */
  lemma SanitiseClean(d: Dict<Json>)
    requires forall i :: 0 <= i < |d| ==> !HasDot(d[i].0)
    ensures Sanitise(d) == d
  {
  }

  /** Sanitisation is idempotent. */
  lemma SanitiseIdempotent(d: Dict<Json>)
    requires Unique(d)
    ensures Sanitise(Sanitise(d)) == Sanitise(d)
  {
    var s := Sanitise(d);
    forall i | 0 <= i < |s| ensures !HasDot(s[i].0) {
      SanitisedKeysHaveNoDots(d, s[i].0);
    }
    SanitiseClean(s);
  }

  /** A dotted key's value moves to its stripped key, unless a later dotted key strips
      to the same name, in which case that later rename wins. */
  lemma SanitiseRenames(d: Dict<Json>, i: nat)
    requires Unique(d) && i < |d| && HasDot(d[i].0)
    requires forall j :: i < j < |d| && HasDot(d[j].0) ==> StripDots(d[j].0) != StripDots(d[i].0)
    ensures Lookup(Sanitise(d), StripDots(d[i].0)) == Some(d[i].1)
  {
    SanitiseLookup(d);
    LastDottedKeyIsLast(Keys(d), i, StripDots(d[i].0));
    LookupPair(d, d[i].0, d[i].1);
  }

  lemma {:induction false} LastDottedKeyIsLast(ks: seq<string>, i: nat, x: string)
    requires i < |ks| && HasDot(ks[i]) && StripDots(ks[i]) == x
    requires forall j :: i < j < |ks| ==> !(HasDot(ks[j]) && StripDots(ks[j]) == x)
    ensures LastDottedKey(ks, x) == Some(ks[i])
  {
    if i < |ks| - 1 {
      var init := ks[..|ks| - 1];
      assert forall j :: 0 <= j < |init| ==> init[j] == ks[j];
      LastDottedKeyIsLast(init, i, x);
    }
  }

  /** A dot-free key that no dotted key strips to keeps its value. */
  lemma SanitiseKeepsCleanKey(d: Dict<Json>, x: string)
    requires Unique(d) && !HasDot(x)
    requires forall i :: 0 <= i < |d| && HasDot(d[i].0) ==> StripDots(d[i].0) != x
    ensures Lookup(Sanitise(d), x) == Lookup(d, x)
  {
    SanitiseLookup(d);
    assert LastDottedKey(Keys(d), x).None?;
  }

  /** The first loop of `fetch_purpleair_data`: collect `(key, key.replace('.', ''))`
      for every dotted key, in key order. */
  method CollectKeyFixes(keys: seq<string>) returns (keyFixes: Dict<string>)
    ensures keyFixes == KeyFixes(keys)
  {
    keyFixes := [];
    for i := 0 to |keys|
      invariant keyFixes == KeyFixes(keys[..i])
    {
      var key := keys[i];
      assert keys[..i + 1][..i] == keys[..i];
      if HasDot(key) {
        keyFixes := keyFixes + [(key, StripDots(key))];
      }
    }
    assert keys[..|keys|] == keys;
  }

  /** The second loop: `jsondata[new_key] = jsondata.pop(key)` for each fix; the key
      popped is always present. */
  method ApplyKeyFixes(jsondata: Dict<Json>, keyFixes: Dict<string>) returns (fixed: Dict<Json>)
    requires Unique(jsondata) && ValidFixes(jsondata, keyFixes)
    ensures fixed == ApplyFixes(jsondata, keyFixes)
  {
    fixed := jsondata;
    for j := 0 to |keyFixes|
      invariant fixed == ApplyFixes(jsondata, keyFixes[..j])
    {
      var (key, newKey) := keyFixes[j];
      ValidFixesPrefix(jsondata, keyFixes, j);
      ApplyFixesLookup(jsondata, keyFixes[..j]);
      FixKeyPresent(jsondata, keyFixes, j);
      var value := Lookup(fixed, key).value;
      fixed := Set(Remove(fixed, key), newKey, value);
      assert keyFixes[..j + 1][..j] == keyFixes[..j];
    }
    assert keyFixes[..|keyFixes|] == keyFixes;
  }

  /** The key repair of `fetch_purpleair_data`, both loops together. */
  method SanitiseKeys(jsondata: Dict<Json>) returns (fixed: Dict<Json>)
    requires Unique(jsondata)
    ensures fixed == Sanitise(jsondata)
    ensures Unique(fixed)
    ensures forall x :: Lookup(fixed, x) == SanitisedValue(jsondata, x)
  {
    var keyFixes := CollectKeyFixes(Keys(jsondata));
    KeyFixesUnique(Keys(jsondata));
    fixed := ApplyKeyFixes(jsondata, keyFixes);
    SanitiseLookup(jsondata);
  }

  // ---------------------------------------------------------------------------
  // The cache object

  class PurpleAirSensor {
    const hostname: string
    const cacheTtl: int
    var config: Option<Dict<Json>>
    var data: Dict<Json>
    var dataTimestamp: int

    /** The stored reading is a dict without dotted keys; the config holds only allow-listed keys
        and is missing only while no fetch has succeeded, when the reading is empty too. */
    ghost predicate Valid()
      reads this
    {
      && Unique(data)
      && (config.None? ==> data == [])
      && (forall k :: k in Keys(data) ==> !HasDot(k))
      && (config.Some? ==> Unique(config.value) && forall k :: k in Keys(config.value) ==> k in ConfigDataKeys)
    }

    /** The state a fetch with `response` at time `now` leaves, `oldConfig` being the config before it. */
    ghost predicate Fetched(response: Option<Dict<Json>>, oldConfig: Option<Dict<Json>>, now: int)
      reads this
    {
      match response
      case Some(json) => data == Sanitise(json) && config == Some(Filter(data, ConfigDataKeys)) && dataTimestamp == now
      case None => data == [] && dataTimestamp == 0 && config == oldConfig
    }

    /** What a call of `data()` at `now` leaves: a fetch when the reading is older than the TTL,
        otherwise the cache as it was. */
    twostate predicate DataCall(response: Option<Dict<Json>>, now: int)
      reads this
    {
      if old(now > dataTimestamp + cacheTtl) then Fetched(response, old(config), now)
      else data == old(data) && dataTimestamp == old(dataTimestamp) && config == old(config)
    }

    constructor (hostname: string, cacheTtl: int)
      ensures Valid()
      ensures this.hostname == hostname && this.cacheTtl == cacheTtl
      ensures config == None && data == [] && dataTimestamp == 0
    {
      this.hostname := hostname;
      this.cacheTtl := cacheTtl;
      config := None;
      data := [];
      dataTimestamp := 0;
    }

    /** `fetch_purpleair_data`: `response` is the decoded body when the request succeeded. */
    method FetchPurpleAirData(response: Option<Dict<Json>>, now: int)
      requires Valid()
      requires response.Some? ==> Unique(response.value)
      modifies this
      ensures Valid()
      ensures Fetched(response, old(config), now)
    {
      match response
      case Some(jsondata) =>
        var fixed := SanitiseKeys(jsondata);
        forall k | k in Keys(fixed) ensures !HasDot(k) {
          SanitisedKeysHaveNoDots(jsondata, k);
        }
        data := fixed;
        config := Some(Filter(data, ConfigDataKeys));
        dataTimestamp := now;
      case None =>
        data := [];
        dataTimestamp := 0;
    }

    /** `config()`: fetches only while no config has been obtained yet. */
    method Config(response: Option<Dict<Json>>, now: int) returns (c: Option<Dict<Json>>)
      requires Valid()
      requires response.Some? ==> Unique(response.value)
      modifies this
      ensures Valid()
      ensures c == config
      ensures old(config).None? ==> Fetched(response, old(config), now)
      ensures old(config).Some? ==> config == old(config) && data == old(data) && dataTimestamp == old(dataTimestamp)
    {
      if config.None? {
        FetchPurpleAirData(response, now);
      }
      c := config;
    }

    /** `data()`: refetches exactly when `now > timestamp + ttl`, else serves the cache. */
    method Data(response: Option<Dict<Json>>, now: int) returns (d: Dict<Json>)
      requires Valid()
      requires response.Some? ==> Unique(response.value)
      modifies this
      ensures Valid()
      ensures d == data
      ensures DataCall(response, now)
    {
      if now > dataTimestamp + cacheTtl {
        FetchPurpleAirData(response, now);
      }
      d := data;
    }

    /** `sensor_topic_name()`: goes through `data()`, so it may refetch. */
    method SensorTopicName(response: Option<Dict<Json>>, now: int) returns (name: Option<string>)
      requires Valid()
      requires response.Some? ==> Unique(response.value)
      modifies this
      ensures Valid()
      ensures name == SensorTopic.TopicName(data)
      ensures DataCall(response, now)
    {
      var d := Data(response, now);
      name := SensorTopic.TopicName(d);
    }
  }

  /** A failed fetch resets the timestamp, so the next `data()` after the TTL retries,
      and a successful one is served from the cache until the TTL has passed. */
  method CacheScenario(reading: Dict<Json>)
    returns (failed: Dict<Json>, fetched: Dict<Json>, cached: Dict<Json>, expired: Dict<Json>,
             config: Option<Dict<Json>>)
    requires Unique(reading)
    ensures failed == [] && expired == []
    ensures fetched == Sanitise(reading) && cached == fetched
    ensures config == Some(Filter(Sanitise(reading), ConfigDataKeys))
  {
    var sensor := new PurpleAirSensor("purpleair", 59);
    failed := sensor.Data(None, 100);
    assert sensor.dataTimestamp == 0;
    fetched := sensor.Data(Some(reading), 60);
    assert sensor.dataTimestamp == 60;
    cached := sensor.Data(None, 119);
    expired := sensor.Data(None, 120);
    config := sensor.config;
  }
}
