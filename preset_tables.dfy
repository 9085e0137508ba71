/** The two lookup tables between the heater's select options and the
    thermostat presets.  The forward table is a dictionary literal; the
    backward table is built from it by the comprehension
    `{v: k for k, v in d.items()}`.  Both are modelled over the ordered items of
    the literal.  For items with distinct keys, as this table's are, the
    dictionary's items are the literal's items and the model is what Python
    builds, injective or not; the lemmas then show that this table is
    injective, so the inversion loses nothing. */
module PresetTables {

  /** One `key: value` item of a Python dictionary. */
  datatype Item<K, V> = Item(key: K, value: V)

  /** The dictionary built from these items in order: a later item whose key
      was seen before overwrites the earlier value, as in a Python literal or
      comprehension. */
  function ToMap<K, V>(items: seq<Item<K, V>>): map<K, V>
  {
    if items == [] then map[]
    else
      var n := |items| - 1;
      ToMap(items[..n])[items[n].key := items[n].value]
  }

  /** Every item with key and value exchanged, in the same order. */
  function Swapped<K, V>(items: seq<Item<K, V>>): seq<Item<V, K>>
  {
    seq(|items|, i requires 0 <= i < |items| => Item(items[i].value, items[i].key))
  }

  /** `{v: k for k, v in ToMap(items).items()}` for items with distinct keys. */
  function Invert<K, V>(items: seq<Item<K, V>>): map<V, K>
  {
    ToMap(Swapped(items))
  }

  ghost predicate DistinctKeys<K, V>(items: seq<Item<K, V>>)
  {
    forall i, j :: 0 <= i < j < |items| ==> items[i].key != items[j].key
  }

  /** The table is injective: no two items share a value. */
  ghost predicate DistinctValues<K, V>(items: seq<Item<K, V>>)
  {
    forall i, j :: 0 <= i < j < |items| ==> items[i].value != items[j].value
  }

  ghost function KeysOf<K, V>(items: seq<Item<K, V>>): set<K>
  {
    set i | 0 <= i < |items| :: items[i].key
  }

  lemma {:induction false} ToMapKeys<K, V>(items: seq<Item<K, V>>)
    ensures ToMap(items).Keys == KeysOf(items)
  {
    if items != [] {
      var n := |items| - 1;
      ToMapKeys(items[..n]);
      forall k | k in KeysOf(items) ensures k in KeysOf(items[..n]) + {items[n].key} {
        var i :| 0 <= i < |items| && items[i].key == k;
        if i < n {
          assert items[..n][i] == items[i];
        }
      }
      forall k | k in KeysOf(items[..n]) ensures k in KeysOf(items) {
        var i :| 0 <= i < n && items[..n][i].key == k;
        assert items[i].key == k;
      }
    }
  }

  /** With distinct keys every item is found in the dictionary it builds. */
  lemma {:induction false} ToMapAt<K, V>(items: seq<Item<K, V>>, i: nat)
    requires DistinctKeys(items)
    requires i < |items|
    ensures items[i].key in ToMap(items)
    ensures ToMap(items)[items[i].key] == items[i].value
  {
    var n := |items| - 1;
    if i < n {
      assert DistinctKeys(items[..n]) by {
        forall a, b | 0 <= a < b < n ensures items[..n][a].key != items[..n][b].key {
          assert items[..n][a] == items[a] && items[..n][b] == items[b];
        }
      }
      ToMapAt(items[..n], i);
      assert items[..n][i] == items[i];
    }
  }

  /** With distinct keys no item is lost: the dictionary has one entry per item. */
  lemma {:induction false} ToMapSize<K, V>(items: seq<Item<K, V>>)
    requires DistinctKeys(items)
    ensures |ToMap(items)| == |items|
  {
    if items != [] {
      var n := |items| - 1;
      assert DistinctKeys(items[..n]) by {
        forall a, b | 0 <= a < b < n ensures items[..n][a].key != items[..n][b].key {
          assert items[..n][a] == items[a] && items[..n][b] == items[b];
        }
      }
      ToMapSize(items[..n]);
      ToMapKeys(items[..n]);
      assert items[n].key !in KeysOf(items[..n]) by {
        forall i | 0 <= i < n ensures items[..n][i].key != items[n].key {
          assert items[..n][i] == items[i];
        }
      }
      var m := ToMap(items[..n]);
      assert ToMap(items).Keys == m.Keys + {items[n].key};
    }
  }

  /** For an injective table the inverted dictionary undoes the forward one at
      every item, in both directions, and has as many entries. */
  lemma {:induction false} InvertAt<K, V>(items: seq<Item<K, V>>, i: nat)
    requires DistinctKeys(items) && DistinctValues(items)
    requires i < |items|
    ensures items[i].key in ToMap(items) && ToMap(items)[items[i].key] == items[i].value
    ensures items[i].value in Invert(items) && Invert(items)[items[i].value] == items[i].key
    ensures |Invert(items)| == |ToMap(items)| == |items|
  {
    var s := Swapped(items);
    assert DistinctKeys(s) by {
      forall a, b | 0 <= a < b < |s| ensures s[a].key != s[b].key {
        assert s[a].key == items[a].value && s[b].key == items[b].value;
      }
    }
    ToMapAt(items, i);
    ToMapAt(s, i);
    ToMapSize(items);
    ToMapSize(s);
  }

  /** A dictionary never has more entries than the items it is built from. */
  lemma {:induction false} ToMapAtMost<K, V>(items: seq<Item<K, V>>)
    ensures |ToMap(items)| <= |items|
  {
    if items != [] {
      var n := |items| - 1;
      ToMapAtMost(items[..n]);
      var m := ToMap(items[..n]);
      assert ToMap(items).Keys == m.Keys + {items[n].key};
    }
  }

  /** Two items with the same key cost the dictionary an entry. */
  lemma {:induction false} ToMapLosesRepeatedKey<K, V>(items: seq<Item<K, V>>, i: nat, j: nat)
    requires i < j < |items| && items[i].key == items[j].key
    ensures |ToMap(items)| < |items|
  {
    var n := |items| - 1;
    var m := ToMap(items[..n]);
    assert ToMap(items).Keys == m.Keys + {items[n].key};
    if j == n {
      ToMapKeys(items[..n]);
      assert items[..n][i] == items[i];
      assert items[n].key in m.Keys;
      ToMapAtMost(items[..n]);
    } else {
      assert items[..n][i] == items[i] && items[..n][j] == items[j];
      ToMapLosesRepeatedKey(items[..n], i, j);
    }
  }

  /** The inversion loses nothing exactly when the table is injective: with
      distinct keys, the inverted dictionary has one entry per item if and
      only if no two items share a value. */
  lemma InvertLosesNothingIff<K, V>(items: seq<Item<K, V>>)
    requires DistinctKeys(items)
    ensures |Invert(items)| == |items| <==> DistinctValues(items)
  {
    var s := Swapped(items);
    if DistinctValues(items) {
      if items != [] {
        InvertAt(items, 0);
      }
    } else {
      var i, j :| 0 <= i < j < |items| && items[i].value == items[j].value;
      assert s[i].key == s[j].key;
      ToMapLosesRepeatedKey(s, i, j);
    }
  }

  // Select entity option names.
  const OptionOff := "Off"
  const OptionFrostProtection := "FrostProtection"
  const OptionEco := "Eco"
  const OptionComfortMinus2 := "ComfortMinus2"
  const OptionComfortMinus1 := "ComfortMinus1"
  const OptionComfort := "Comfort"

  // Climate presets: the first four are the host's standard preset names.
  const PresetNone := "none"
  const PresetAway := "away"
  const PresetEco := "eco"
  const PresetComfort := "comfort"
  const PresetComfort1 := "comfort-1"
  const PresetComfort2 := "comfort-2"

  /** The items of the dictionary literal, in source order. */
  const SelectOptionItems: seq<Item<string, string>> := [
    Item(OptionOff, PresetNone),
    Item(OptionFrostProtection, PresetAway),
    Item(OptionEco, PresetEco),
    Item(OptionComfortMinus2, PresetComfort2),
    Item(OptionComfortMinus1, PresetComfort1),
    Item(OptionComfort, PresetComfort)
  ]

  const SelectOptionToPreset: map<string, string> := ToMap(SelectOptionItems)

  const PresetToSelectOption: map<string, string> := Invert(SelectOptionItems)

  const AllOptions: set<string> :=
    {OptionOff, OptionFrostProtection, OptionEco, OptionComfortMinus2, OptionComfortMinus1, OptionComfort}

  const AllPresets: set<string> :=
    {PresetNone, PresetAway, PresetEco, PresetComfort2, PresetComfort1, PresetComfort}

  lemma TableIsInjective()
    ensures DistinctKeys(SelectOptionItems) && DistinctValues(SelectOptionItems)
  {
  }

  /** The forward table's keys are exactly the six options. */
  lemma OptionKeys()
    ensures SelectOptionToPreset.Keys == AllOptions
  {
    var items := SelectOptionItems;
    ToMapKeys(items);
    assert items[0].key == OptionOff && items[1].key == OptionFrostProtection && items[2].key == OptionEco;
    assert items[3].key == OptionComfortMinus2 && items[4].key == OptionComfortMinus1 && items[5].key == OptionComfort;
  }

  /** The inverted table's keys are exactly the six presets. */
  lemma PresetKeys()
    ensures PresetToSelectOption.Keys == AllPresets
  {
    var s := Swapped(SelectOptionItems);
    ToMapKeys(s);
    assert s[0].key == PresetNone && s[1].key == PresetAway && s[2].key == PresetEco;
    assert s[3].key == PresetComfort2 && s[4].key == PresetComfort1 && s[5].key == PresetComfort;
  }

  /** The forward table is a bijection from the six options onto the six
      presets, and the inverted table is its inverse in both directions. */
  lemma TablesAreInverse()
    ensures SelectOptionToPreset.Keys == AllOptions && |SelectOptionToPreset| == 6
    ensures PresetToSelectOption.Keys == AllPresets && |PresetToSelectOption| == 6
    ensures forall o :: o in SelectOptionToPreset ==>
      SelectOptionToPreset[o] in PresetToSelectOption && PresetToSelectOption[SelectOptionToPreset[o]] == o
    ensures forall p :: p in PresetToSelectOption ==>
      PresetToSelectOption[p] in SelectOptionToPreset && SelectOptionToPreset[PresetToSelectOption[p]] == p
  {
    var items := SelectOptionItems;
    TableIsInjective();
    OptionKeys();
    PresetKeys();
    InvertAt(items, 0);
    forall o | o in SelectOptionToPreset
      ensures SelectOptionToPreset[o] in PresetToSelectOption && PresetToSelectOption[SelectOptionToPreset[o]] == o
    {
      ToMapKeys(items);
      var i :| 0 <= i < |items| && items[i].key == o;
      InvertAt(items, i);
    }
    forall p | p in PresetToSelectOption
      ensures PresetToSelectOption[p] in SelectOptionToPreset && SelectOptionToPreset[PresetToSelectOption[p]] == p
    {
      var s := Swapped(items);
      ToMapKeys(s);
      var i :| 0 <= i < |s| && s[i].key == p;
      InvertAt(items, i);
    }
  }
}
