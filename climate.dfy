/** The wire-pilot climate entity (class ClimateWirePilotClimate in
    custom_components/climate_wire_pilot/climate.py): a thermostat facade over
    a six-option select entity.  The host's state of the heater entity is an
    input to the read derivations (`None` when the entity is not registered);
    an outbound `select.select_option` service call is a record appended to a
    command log; the host's `float()` is an abstract parse given to the entity
    when it is built. */
module Climate {
  import opened Wrappers
  import opened PresetTables

  /** The host's HVAC modes; the entity supports only Heat and Off. */
  datatype HvacMode = Off | Heat | Cool | HeatCool | Auto | Dry | FanOnly

  // States the host gives an entity that has no usable reading.
  const StateUnavailable := "unavailable"
  const StateUnknown := "unknown"

  const SelectDomain := "select"
  const ServiceSelectOption := "select_option"
  const UniqueIdPrefix := "climate_wire_pilot_"

  /** A call of service `domain.service` with data {entity_id, option}. */
  datatype ServiceCall = ServiceCall(domain: string, service: string, entityId: string, option: string)

  /** A value Python's `float()` can return: a finite real, an infinity or NaN. */
  datatype FloatValue = Finite(value: real) | PositiveInfinity | NegativeInfinity | NaN

  /** The host's float parse: `None` where `float()` raises ValueError. */
  type FloatParse = string -> Option<FloatValue>

  /** The preset list the entity advertises (`preset_modes`). */
  function PresetModes(): (r: seq<string>)
    ensures |r| == 6
    ensures forall i, j :: 0 <= i < j < |r| ==> r[i] != r[j]
    ensures forall p :: p in r <==> p in PresetToSelectOption
    ensures forall o :: o in SelectOptionToPreset ==> SelectOptionToPreset[o] in r
  {
    TablesAreInverse();
    [PresetComfort, PresetComfort1, PresetComfort2, PresetEco, PresetAway, PresetNone]
  }

  /** The HVAC mode list the entity advertises (`hvac_modes`). */
  function HvacModes(): (r: seq<HvacMode>)
    ensures |r| == 2 && r[0] != r[1]
    ensures forall m :: m in r <==> m == Heat || m == Off
  {
    [Heat, Off]
  }

  /** `preset_mode`: the preset of the heater's current option; a heater
      option outside the table reads as preset "none". */
  function CurrentPresetMode(option: Option<string>): (r: Option<string>)
    ensures r.None? <==> option.None?
    ensures r.Some? ==> r.value in PresetModes()
    ensures option.Some? && option.value in SelectOptionToPreset ==> r == Some(SelectOptionToPreset[option.value])
    ensures option.Some? && option.value !in SelectOptionToPreset ==> r == Some(PresetNone)
  {
    match option
    case None => None
    case Some(o) =>
      if o in SelectOptionToPreset then Some(SelectOptionToPreset[o]) else Some(PresetNone)
  }

  /** `hvac_mode`: Off exactly for the "Off" option, Heat for every other
      string, known option or not. */
  function CurrentHvacMode(option: Option<string>): (r: Option<HvacMode>)
    ensures r.None? <==> option.None?
    ensures r == Some(Off) <==> option == Some(OptionOff)
    ensures r == Some(Heat) <==> option.Some? && option.value != OptionOff
    ensures r.Some? ==> r.value in HvacModes()
  {
    match option
    case None => None
    case Some(o) => if o == OptionOff then Some(Off) else Some(Heat)
  }

  /** `_async_set_select_option`: the one command the entity ever sends. */
  function SelectOptionCall(heaterEntityId: string, option: string): ServiceCall
  {
    ServiceCall(SelectDomain, ServiceSelectOption, heaterEntityId, option)
  }

  /** The command `async_set_preset_mode` sends, if any: none for a preset
      the entity does not advertise; otherwise one addressed to the heater,
      whose option the heater then reports back as the same preset. */
  function PresetCommand(heaterEntityId: string, preset: string): (c: Option<ServiceCall>)
    ensures c.None? <==> preset !in PresetModes()
    ensures c.Some? ==> c.value.domain == SelectDomain && c.value.service == ServiceSelectOption
    ensures c.Some? ==> c.value.entityId == heaterEntityId && c.value.option in AllOptions
    ensures c.Some? ==> CurrentPresetMode(Some(c.value.option)) == Some(preset)
  {
    TablesAreInverse();
    if preset in PresetToSelectOption then Some(SelectOptionCall(heaterEntityId, PresetToSelectOption[preset]))
    else None
  }

  /** The command `async_set_hvac_mode` sends, if any: "Comfort" for Heat,
      "Off" for Off, nothing for any other mode; the heater then reports the
      requested mode back. */
  function HvacCommand(heaterEntityId: string, mode: HvacMode): (c: Option<ServiceCall>)
    ensures c.Some? <==> mode in HvacModes()
    ensures c.Some? ==> c.value.domain == SelectDomain && c.value.service == ServiceSelectOption
    ensures c.Some? ==> c.value.entityId == heaterEntityId
    ensures mode == Heat ==> c.Some? && c.value.option == OptionComfort
    ensures mode == Off ==> c.Some? && c.value.option == OptionOff
    ensures c.Some? ==> CurrentHvacMode(Some(c.value.option)) == Some(mode)
  {
    match mode
    case Heat => Some(SelectOptionCall(heaterEntityId, OptionComfort))
    case Off => Some(SelectOptionCall(heaterEntityId, OptionOff))
    case _ => None
  }

  /** Setting Heat is lossy: every option but "Off" reads as Heat, yet Heat
      always selects "Comfort", so the preset read back is "comfort". */
  lemma HeatSelectsComfort(heaterEntityId: string, option: string)
    requires option in AllOptions && option != OptionOff
    ensures CurrentHvacMode(Some(option)) == Some(Heat)
    ensures CurrentPresetMode(Some(HvacCommand(heaterEntityId, Heat).value.option)) == Some(PresetComfort)
    ensures option != OptionComfort ==>
      CurrentPresetMode(Some(option)) != CurrentPresetMode(Some(HvacCommand(heaterEntityId, Heat).value.option))
  {
    var items := SelectOptionItems;
    TableIsInjective();
    OptionKeys();
    ToMapKeys(items);
    ToMapAt(items, 5);
    assert items[5] == Item(OptionComfort, PresetComfort);
    var i :| 0 <= i < |items| && items[i].key == option;
    ToMapAt(items, i);
  }

  /** A heater that exists but reports "unavailable" or "unknown" is not read
      as absent: its state is an option outside the table, so it reads as
      preset "none" and as Heat. */
  lemma UnavailableHeaterReadsAsHeat(state: string)
    requires state == StateUnavailable || state == StateUnknown
    ensures CurrentPresetMode(Some(state)) == Some(PresetNone)
    ensures CurrentHvacMode(Some(state)) == Some(Heat)
  {
    OptionKeys();
  }

  /** The entity's unique id: the configured one when it is a non-empty
      string; otherwise the fixed prefix followed by the heater's entity id. */
  function UniqueIdFor(uniqueId: Option<string>, heaterEntityId: string): (r: string)
    ensures uniqueId.Some? && uniqueId.value != "" ==> r == uniqueId.value
    ensures uniqueId.None? || uniqueId.value == "" ==> r == UniqueIdPrefix + heaterEntityId
    ensures r != ""
  {
    if uniqueId.Some? && uniqueId.value != "" then uniqueId.value else UniqueIdPrefix + heaterEntityId
  }

  /** Two entities without a configured id get distinct ids exactly when they
      control distinct heaters. */
  lemma DefaultIdsDistinct(h1: string, h2: string)
    ensures UniqueIdFor(None, h1) == UniqueIdFor(None, h2) <==> h1 == h2
  {
    var id1, id2 := UniqueIdFor(None, h1), UniqueIdFor(None, h2);
    var n := |UniqueIdPrefix|;
    assert id1[n..] == h1 && id2[n..] == h2;
  }

  /** Whether a parsed reading is stored (`math.isfinite`). */
  predicate Accepted(parsed: Option<FloatValue>)
  {
    parsed.Some? && parsed.value.Finite?
  }

  /** `_async_update_temp`: the stored temperature after a reading whose
      parse gave `parsed`. */
  function NextTemperature(cur: Option<real>, parsed: Option<FloatValue>): (r: Option<real>)
    ensures Accepted(parsed) ==> r == Some(parsed.value.value)
    ensures !Accepted(parsed) ==> r == cur
    ensures cur.Some? ==> r.Some?
  {
    if Accepted(parsed) then Some(parsed.value.value) else cur
  }

  /** The sensor states `_async_sensor_changed` discards before parsing. */
  predicate IgnoredSensorState(newState: Option<string>)
  {
    newState.None? || newState.value == StateUnavailable || newState.value == StateUnknown
  }

  /** The stored temperature after a sensor state-change notification. */
  function SensorTemperature(cur: Option<real>, newState: Option<string>, parse: FloatParse): (r: Option<real>)
    ensures IgnoredSensorState(newState) ==> r == cur
    ensures !IgnoredSensorState(newState) ==> r == NextTemperature(cur, parse(newState.value))
    ensures r == cur || (!IgnoredSensorState(newState) && Accepted(parse(newState.value))
                         && r == Some(parse(newState.value).value.value))
  {
    if IgnoredSensorState(newState) then cur else NextTemperature(cur, parse(newState.value))
  }

  /** Repeating a notification changes nothing more, and the stored value is
      always the last accepted reading: once known, it never becomes unknown. */
  lemma SensorTemperatureIdempotent(cur: Option<real>, newState: Option<string>, parse: FloatParse)
    ensures SensorTemperature(SensorTemperature(cur, newState, parse), newState, parse)
         == SensorTemperature(cur, newState, parse)
    ensures cur.Some? ==> SensorTemperature(cur, newState, parse).Some?
    ensures SensorTemperature(cur, newState, parse) != cur ==>
      !IgnoredSensorState(newState) && Accepted(parse(newState.value))
  {
  }

  /** The wrapper entity, bound to one heater and at most one sensor. */
  class ClimateWirePilot {
    const name: Option<string>
    const heaterEntityId: string
    const sensorEntityId: Option<string>
    const uniqueId: string
    /** The host's `float()` */
    const parseFloat: FloatParse

    /** `_cur_temperature` */
    var curTemperature: Option<real>
    /** Outbound service calls, oldest first. */
    var commands: seq<ServiceCall>
    /** How often the entity has published its state (`async_write_ha_state`). */
    var stateWrites: nat

    constructor (name: Option<string>, heaterEntityId: string, sensorEntityId: Option<string>,
                 uniqueId: Option<string>, parseFloat: FloatParse)
      ensures this.name == (if name.Some? && name.value != "" then name else None)
      ensures this.heaterEntityId == heaterEntityId && this.sensorEntityId == sensorEntityId
      ensures this.uniqueId == UniqueIdFor(uniqueId, heaterEntityId) && this.uniqueId != ""
      ensures this.parseFloat == parseFloat
      ensures curTemperature == None && commands == [] && stateWrites == 0
    {
      this.name := if name.Some? && name.value != "" then name else None;
      this.heaterEntityId := heaterEntityId;
      this.sensorEntityId := sensorEntityId;
      this.uniqueId := UniqueIdFor(uniqueId, heaterEntityId);
      this.parseFloat := parseFloat;
      curTemperature := None;
      commands := [];
      stateWrites := 0;
    }

    /** `_async_set_select_option` */
    method SetSelectOption(option: string)
      modifies this`commands
      ensures commands == old(commands) + [SelectOptionCall(heaterEntityId, option)]
    {
      commands := commands + [SelectOptionCall(heaterEntityId, option)];
    }

    /** `async_set_preset_mode` */
    method SetPresetMode(preset: string)
      modifies this`commands
      ensures commands == old(commands) + ToSeq(PresetCommand(heaterEntityId, preset))
      ensures preset !in PresetModes() ==> commands == old(commands)
      ensures preset in PresetModes() ==>
        |commands| == |old(commands)| + 1 && commands[|commands| - 1].entityId == heaterEntityId &&
        CurrentPresetMode(Some(commands[|commands| - 1].option)) == Some(preset)
    {
      if preset !in PresetToSelectOption {
        // logged as an unknown preset; nothing is sent
        return;
      }
      var option := PresetToSelectOption[preset];
      SetSelectOption(option);
    }

    /** `async_set_hvac_mode` */
    method SetHvacMode(mode: HvacMode)
      modifies this`commands
      ensures commands == old(commands) + ToSeq(HvacCommand(heaterEntityId, mode))
      ensures mode !in HvacModes() ==> commands == old(commands)
      ensures mode in HvacModes() ==>
        |commands| == |old(commands)| + 1 && commands[|commands| - 1].entityId == heaterEntityId &&
        CurrentHvacMode(Some(commands[|commands| - 1].option)) == Some(mode)
    {
      var option;
      if mode == Heat {
        option := OptionComfort;
      } else if mode == Off {
        option := OptionOff;
      } else {
        // logged as an unknown mode; nothing is sent
        return;
      }
      SetSelectOption(option);
    }

    /** `_async_update_temp`: store the reading when it parses to a finite
        number; otherwise log and keep the previous value. */
    method UpdateTemp(state: string)
      modifies this`curTemperature
      ensures curTemperature == NextTemperature(old(curTemperature), parseFloat(state))
    {
      var parsed := parseFloat(state);
      if Accepted(parsed) {
        curTemperature := Some(parsed.value.value);
      }
    }

    /** `_async_sensor_changed`: a notification whose new state is missing,
        "unavailable" or "unknown" is ignored; any other updates the
        temperature and publishes the entity's state. */
    method SensorChanged(newState: Option<string>)
      modifies this`curTemperature, this`stateWrites
      ensures curTemperature == SensorTemperature(old(curTemperature), newState, parseFloat)
      ensures stateWrites == old(stateWrites) + (if IgnoredSensorState(newState) then 0 else 1)
    {
      if IgnoredSensorState(newState) {
        return;
      }
      UpdateTemp(newState.value);
      stateWrites := stateWrites + 1;
    }

    /** `_async_heater_changed`: republish on every heater notification that
        carries a new state; the temperature is not touched. */
    method HeaterChanged(newState: Option<string>)
      modifies this`stateWrites
      ensures curTemperature == old(curTemperature) && commands == old(commands)
      ensures stateWrites == old(stateWrites) + (if newState.None? then 0 else 1)
    {
      if newState.None? {
        return;
      }
      stateWrites := stateWrites + 1;
    }
  }
}
