/**
  Home Assistant MQTT key abbreviation (container/purpleair_to_mqtt.py).

  Home Assistant publishes two tables, each mapping an abbreviation to the full
  field name it stands for: one for the top level of a discovery document and one
  for the nested `device` block. The bridge inverts both tables and rewrites the
  keys of a document from full names to abbreviations. The tables themselves
  come from an imported library, so here they are parameters.
 */
module Abbreviation {
  import opened Wrappers
  import opened PyDict
  import opened JsonValue

  /** The pairs of `table` with each key and value exchanged. */
  function Swapped(table: Dict<string>): (r: seq<(string, string)>)
    ensures |r| == |table|
    ensures forall i :: 0 <= i < |table| ==> r[i] == (table[i].1, table[i].0)
  {
    seq(|table|, i requires 0 <= i < |table| => (table[i].1, table[i].0))
  }

  /** `{v: k for k, v in table.items()}`: full name to abbreviation. Where two
      abbreviations share a full name, the later one wins. */
  function Invert(table: Dict<string>): (inv: Dict<string>)
    ensures Unique(inv)
  {
    FromPairs(Swapped(table))
  }

  /** `name` is the full name of some abbreviation in `table`. */
  ghost predicate IsFullName(table: Dict<string>, name: string)
  {
    exists i :: 0 <= i < |table| && table[i].1 == name
  }

  /** No two abbreviations of `table` share a full name. */
  ghost predicate Injective(table: Dict<string>)
  {
    forall i, j :: 0 <= i < j < |table| ==> table[i].1 != table[j].1
  }

  /** The inverted table is defined exactly on the full names. */
  lemma InvertKeys(table: Dict<string>, name: string)
    ensures name in Keys(Invert(table)) <==> IsFullName(table, name)
  {
    var sw := Swapped(table);
    FromPairsKeys(sw, name);
    assert forall i :: 0 <= i < |table| ==> sw[i].0 == table[i].1;
  }

  /** Mapping an abbreviation back through the original table recovers the full
      name it was produced from. */
  lemma InvertRecovers(table: Dict<string>, name: string)
    requires Unique(table)
    requires name in Keys(Invert(table))
    ensures Lookup(table, Lookup(Invert(table), name).value) == Some(name)
  {
    var abbr := Lookup(Invert(table), name).value;
    FromPairsMember(Swapped(table));
    assert (name, abbr) in Swapped(table);
    var i :| 0 <= i < |table| && Swapped(table)[i] == (name, abbr);
    assert table[i] == (abbr, name);
    LookupPair(table, abbr, name);
  }

  /** Where the table is injective, every abbreviation is the one its full name maps to. */
  lemma InvertOfInjective(table: Dict<string>, i: nat)
    requires Unique(table) && Injective(table)
    requires i < |table|
    ensures Lookup(Invert(table), table[i].1) == Some(table[i].0)
  {
    var sw := Swapped(table);
    assert Unique(sw) by {
      forall a, b | 0 <= a < b < |sw| ensures sw[a].0 != sw[b].0 {
        assert sw[a].0 == table[a].1 && sw[b].0 == table[b].1;
      }
    }
    FromPairsOfUnique(sw);
    assert sw[i] in Invert(table);
    LookupPair(Invert(table), table[i].1, table[i].0);
  }

  /** `lookup_table.get(key, key)`: the table's entry for a key it has, the key itself otherwise. */
  function Rename(table: Dict<string>, key: string): (r: string)
    ensures key in Keys(table) ==> (key, r) in table
    ensures key !in Keys(table) ==> r == key
  {
    Lookup(table, key).GetOr(key)
  }

  /** The table used for the fields of a block: the device table exactly when the
      block sits under the key "device". */
  function TableFor(parentKey: Option<string>, top: Dict<string>, device: Dict<string>): Dict<string>
  {
    if parentKey == Some("device") then device else top
  }

  /** `rendered_generator(doc, parent_key)`: objects get their keys renamed through
      the table chosen by the enclosing key and their values rewritten recursively;
      lists and scalars are returned as they are. */
  function Abbreviate(doc: Json, parentKey: Option<string>, toAbbr: Dict<string>, toDeviceAbbr: Dict<string>)
    : (r: Json)
    ensures !doc.Obj? ==> r == doc
    ensures doc.Obj? <==> r.Obj?
  {
    match doc
    case Obj(fields) =>
      var table := TableFor(parentKey, toAbbr, toDeviceAbbr);
      Obj(FromPairs(seq(|fields|, i requires 0 <= i < |fields| =>
        (Rename(table, fields[i].0), Abbreviate(fields[i].1, Some(fields[i].0), toAbbr, toDeviceAbbr)))))
    case _ => doc
  }

  /** The rewritten fields of an object, before `dict` merges repeated keys. */
  function AbbreviatedPairs(fields: Dict<Json>, parentKey: Option<string>, toAbbr: Dict<string>, toDeviceAbbr: Dict<string>)
    : (r: seq<(string, Json)>)
    ensures |r| == |fields|
    ensures forall i :: 0 <= i < |fields| ==>
      r[i] == (Rename(TableFor(parentKey, toAbbr, toDeviceAbbr), fields[i].0),
               Abbreviate(fields[i].1, Some(fields[i].0), toAbbr, toDeviceAbbr))
    ensures Abbreviate(Obj(fields), parentKey, toAbbr, toDeviceAbbr) == Obj(FromPairs(r))
  {
    var table := TableFor(parentKey, toAbbr, toDeviceAbbr);
    seq(|fields|, i requires 0 <= i < |fields| =>
      (Rename(table, fields[i].0), Abbreviate(fields[i].1, Some(fields[i].0), toAbbr, toDeviceAbbr)))
  }

  /** `abbreviate_ha_mqtt_keys(doc)` with Home Assistant's two tables as parameters: a
      document comes back as a document, a scalar as itself, and whenever the document's
      keys are safe, expanding the result through the tables recovers it. */
  function AbbreviateHaMqttKeys(doc: Json, abbreviations: Dict<string>, deviceAbbreviations: Dict<string>): (r: Json)
    ensures doc.Obj? <==> r.Obj?
    ensures !doc.Obj? ==> r == doc
    ensures Unique(abbreviations) && Unique(deviceAbbreviations) && Reversible(doc, None, abbreviations, deviceAbbreviations)
      ==> Expand(r, None, abbreviations, deviceAbbreviations) == doc
  {
    assert Unique(abbreviations) && Unique(deviceAbbreviations) && Reversible(doc, None, abbreviations, deviceAbbreviations)
      ==> Expand(Abbreviate(doc, None, Invert(abbreviations), Invert(deviceAbbreviations)),
                 None, abbreviations, deviceAbbreviations) == doc
    by {
      if Unique(abbreviations) && Unique(deviceAbbreviations) && Reversible(doc, None, abbreviations, deviceAbbreviations) {
        AbbreviateRoundTrip(doc, None, abbreviations, deviceAbbreviations);
      }
    }
    Abbreviate(doc, None, Invert(abbreviations), Invert(deviceAbbreviations))
  }

  /** The reverse rewrite, through the original tables: abbreviations back to
      full names, the device table chosen under the (full) key "device". */
  function Expand(doc: Json, parentKey: Option<string>, abbreviations: Dict<string>, deviceAbbreviations: Dict<string>)
    : (r: Json)
    ensures !doc.Obj? ==> r == doc
  {
    match doc
    case Obj(fields) =>
      var table := TableFor(parentKey, abbreviations, deviceAbbreviations);
      Obj(FromPairs(seq(|fields|, i requires 0 <= i < |fields| =>
        (Rename(table, fields[i].0),
         Expand(fields[i].1, Some(Rename(table, fields[i].0)), abbreviations, deviceAbbreviations)))))
    case _ => doc
  }

  function ExpandedPairs(fields: Dict<Json>, parentKey: Option<string>, abbreviations: Dict<string>, deviceAbbreviations: Dict<string>)
    : (r: seq<(string, Json)>)
    ensures |r| == |fields|
    ensures forall i :: 0 <= i < |fields| ==>
      var name := Rename(TableFor(parentKey, abbreviations, deviceAbbreviations), fields[i].0);
      r[i] == (name, Expand(fields[i].1, Some(name), abbreviations, deviceAbbreviations))
    ensures Expand(Obj(fields), parentKey, abbreviations, deviceAbbreviations) == Obj(FromPairs(r))
  {
    var table := TableFor(parentKey, abbreviations, deviceAbbreviations);
    seq(|fields|, i requires 0 <= i < |fields| =>
      (Rename(table, fields[i].0),
       Expand(fields[i].1, Some(Rename(table, fields[i].0)), abbreviations, deviceAbbreviations)))
  }

  /** A key survives the round trip when it is a full name, or is not an abbreviation
      either (a key that is itself an abbreviation would be expanded on the way back). */
  ghost predicate SafeKey(table: Dict<string>, key: string)
  {
    IsFullName(table, key) || key !in Keys(table)
  }

  /** Every object in `doc` is a dict whose keys are safe for the table its position selects. */
  ghost predicate Reversible(doc: Json, parentKey: Option<string>, abbreviations: Dict<string>, deviceAbbreviations: Dict<string>)
    decreases doc
  {
    match doc
    case Obj(fields) =>
      && Unique(fields)
      && forall i :: 0 <= i < |fields| ==>
           && SafeKey(TableFor(parentKey, abbreviations, deviceAbbreviations), fields[i].0)
           && Reversible(fields[i].1, Some(fields[i].0), abbreviations, deviceAbbreviations)
    case _ => true
  }

  lemma KeyRoundTrip(table: Dict<string>, key: string)
    requires Unique(table)
    requires SafeKey(table, key)
    ensures Rename(table, Rename(Invert(table), key)) == key
  {
    InvertKeys(table, key);
    if key in Keys(Invert(table)) {
      InvertRecovers(table, key);
    }
  }

  /** Abbreviation is injective on the safe keys: distinct fields never collide. */
  lemma RenameInjective(table: Dict<string>, k1: string, k2: string)
    requires Unique(table)
    requires SafeKey(table, k1) && SafeKey(table, k2)
    requires Rename(Invert(table), k1) == Rename(Invert(table), k2)
    ensures k1 == k2
  {
    KeyRoundTrip(table, k1);
    KeyRoundTrip(table, k2);
  }

  /** On a reversible object the abbreviated object keeps the fields in their order,
      each key renamed through the table its parent key selects and each value
      abbreviated in the context of its own key. */
  lemma {:induction false} AbbreviateFields(fields: Dict<Json>, parentKey: Option<string>,
                                            abbreviations: Dict<string>, deviceAbbreviations: Dict<string>)
    requires Unique(abbreviations) && Unique(deviceAbbreviations)
    requires Reversible(Obj(fields), parentKey, abbreviations, deviceAbbreviations)
    ensures var r := Abbreviate(Obj(fields), parentKey, Invert(abbreviations), Invert(deviceAbbreviations));
      && |r.fields| == |fields|
      && forall i :: 0 <= i < |fields| ==>
           r.fields[i] == (Rename(Invert(TableFor(parentKey, abbreviations, deviceAbbreviations)), fields[i].0),
                           Abbreviate(fields[i].1, Some(fields[i].0), Invert(abbreviations), Invert(deviceAbbreviations)))
  {
    var table := TableFor(parentKey, abbreviations, deviceAbbreviations);
    assert Invert(table) == TableFor(parentKey, Invert(abbreviations), Invert(deviceAbbreviations));
    var ps := AbbreviatedPairs(fields, parentKey, Invert(abbreviations), Invert(deviceAbbreviations));
    assert Unique(ps) by {
      forall i, j | 0 <= i < j < |ps| ensures ps[i].0 != ps[j].0 {
        if ps[i].0 == ps[j].0 {
          RenameInjective(table, fields[i].0, fields[j].0);
        }
      }
    }
    FromPairsOfUnique(ps);
  }

  /** Expanding an abbreviated document through the original tables gives back the
      document, whenever its keys are safe. */
  lemma {:induction false} AbbreviateRoundTrip(doc: Json, parentKey: Option<string>,
                                               abbreviations: Dict<string>, deviceAbbreviations: Dict<string>)
    requires Unique(abbreviations) && Unique(deviceAbbreviations)
    requires Reversible(doc, parentKey, abbreviations, deviceAbbreviations)
    ensures Expand(Abbreviate(doc, parentKey, Invert(abbreviations), Invert(deviceAbbreviations)),
                   parentKey, abbreviations, deviceAbbreviations) == doc
    decreases doc
  {
    match doc
    case Obj(fields) =>
      var table := TableFor(parentKey, abbreviations, deviceAbbreviations);
      AbbreviateFields(fields, parentKey, abbreviations, deviceAbbreviations);
      var short := Abbreviate(doc, parentKey, Invert(abbreviations), Invert(deviceAbbreviations)).fields;
      var back := ExpandedPairs(short, parentKey, abbreviations, deviceAbbreviations);
      forall i | 0 <= i < |fields| ensures back[i] == fields[i] {
        KeyRoundTrip(table, fields[i].0);
        assert fields[i] in fields;
        AbbreviateRoundTrip(fields[i].1, Some(fields[i].0), abbreviations, deviceAbbreviations);
      }
      assert back == fields;
      FromPairsOfUnique(fields);
    case _ =>
  }

  /** Whatever the tables, the keys of an abbreviated object are exactly the renamed
      keys of the original, renamed through the table its parent key selects. */
  lemma AbbreviatedKeys(fields: Dict<Json>, parentKey: Option<string>, toAbbr: Dict<string>, toDeviceAbbr: Dict<string>,
                        x: string)
    ensures x in Keys(Abbreviate(Obj(fields), parentKey, toAbbr, toDeviceAbbr).fields)
        <==> exists i :: 0 <= i < |fields| && x == Rename(TableFor(parentKey, toAbbr, toDeviceAbbr), fields[i].0)
  {
    var table := TableFor(parentKey, toAbbr, toDeviceAbbr);
    var ps := AbbreviatedPairs(fields, parentKey, toAbbr, toDeviceAbbr);
    FromPairsKeys(ps, x);
    assert forall i :: 0 <= i < |fields| ==> ps[i].0 == Rename(table, fields[i].0);
  }
}
