# Climate Wire Pilot: a Dafny model of the thermostat adapter

The Home Assistant integration `climate_wire_pilot` turns a heater that is
controlled through a six-option *select* entity (`Off`, `FrostProtection`,
`Eco`, `ComfortMinus2`, `ComfortMinus1`, `Comfort`) into a climate entity.
The climate entity has two HVAC modes (heat, off) and six presets (`none`,
`away`, `eco`, `comfort-2`, `comfort-1`, `comfort`). This project models the
translation layer of `ClimateWirePilotClimate` and proves its properties:

- `preset_tables.dfy` (module `PresetTables`) models the option-to-preset
  dictionary literal and the comprehension that inverts it. Both are built
  from the literal's ordered items, and a later item overwrites an earlier
  one with the same key. For items with distinct keys, as this table's are,
  this is exactly what Python builds. General lemmas then show that, for
  items with distinct keys, the inversion loses nothing exactly when no two
  items share a value (`PresetTables.InvertLosesNothingIff`). Further lemmas
  show that this table has distinct keys and distinct values, so the two
  dictionaries are inverse bijections between the six options and the six
  presets.
- `climate.dfy` (module `Climate`) models the entity:
  - the read derivations `preset_mode` and `hvac_mode`, as functions of the
    heater entity's current state (`None` when the host has no state for it);
  - the commands that `async_set_preset_mode` and `async_set_hvac_mode` send;
  - the default for the unique id;
  - the class `ClimateWirePilot`. Its field `curTemperature` is
    `_cur_temperature`. Its log `commands` records every outbound
    `select.select_option` service call. Its counter `stateWrites` counts
    state publications. Its methods are the setters and the two change
    handlers.
- `wrappers.dfy` (module `Wrappers`) holds the `Option` type.

The host's `float()` is a parameter of the entity: a function from the
sensor's state string to either a parse failure (`ValueError`) or a float.
The float is a finite real, an infinity or NaN, and `math.isfinite` accepts
only the finite case. The host's registries, event bus and service bus are
not modelled. Their effects appear only as the inputs and the logs above.

Only a heater with no state at all reads as `None`. A heater that the host
reports as `"unavailable"` or `"unknown"` reads as preset `none` and as mode
heat, because such a state is just an option outside the table
(`Climate.UnavailableHeaterReadsAsHeat`).

## Model

| member | source | states |
|---|---|---|
| `PresetTables.ToMapKeys` | custom_components/climate_wire_pilot/climate.py:71-78 | a dictionary built from items has exactly the items' keys as its keys |
| `PresetTables.ToMapAt` | custom_components/climate_wire_pilot/climate.py:71-78 | when the keys are distinct, every item's key maps to that item's value, so no entry is overwritten |
| `PresetTables.ToMapSize` | custom_components/climate_wire_pilot/climate.py:71-78 | when the keys are distinct, the dictionary has one entry per item |
| `PresetTables.InvertAt` | custom_components/climate_wire_pilot/climate.py:81 | for an injective table, the inverting comprehension maps each value back to its key, the forward table maps the key to the value, and both have as many entries as the table has items |
| `PresetTables.ToMapAtMost` | custom_components/climate_wire_pilot/climate.py:71-81 | a dictionary built from items never has more entries than there are items |
| `PresetTables.ToMapLosesRepeatedKey` | custom_components/climate_wire_pilot/climate.py:71-81 | two items with the same key leave the dictionary with fewer entries than items |
| `PresetTables.InvertLosesNothingIff` | custom_components/climate_wire_pilot/climate.py:81 | for items with distinct keys, the inverted dictionary has one entry per item exactly when no two items share a value |
| `PresetTables.TableIsInjective` | custom_components/climate_wire_pilot/climate.py:71-78 | the six options are distinct, and the six presets they map to are distinct |
| `PresetTables.OptionKeys` | custom_components/climate_wire_pilot/climate.py:63-78 | the forward table is defined on exactly the six select options |
| `PresetTables.PresetKeys` | custom_components/climate_wire_pilot/climate.py:59-81 | the inverted table is defined on exactly the six presets |
| `PresetTables.TablesAreInverse` | custom_components/climate_wire_pilot/climate.py:71-81 | both tables have six entries; forward then back returns every option, and back then forward returns every preset |
| `Climate.PresetModes` | custom_components/climate_wire_pilot/climate.py:259-269 | the advertised presets are six distinct names: exactly the keys of the inverted table, and every value of the forward table |
| `Climate.HvacModes` | custom_components/climate_wire_pilot/climate.py:299-302 | the advertised HVAC modes are exactly heat and off, two distinct modes |
| `Climate.CurrentPresetMode` | custom_components/climate_wire_pilot/climate.py:271-287 | `None` exactly when the heater has no state; the table's preset for a known option; `"none"` for any other option; an advertised preset whenever it is not `None` |
| `Climate.CurrentHvacMode` | custom_components/climate_wire_pilot/climate.py:316-324 | `None` exactly when the heater has no state; off exactly for option `"Off"`; heat exactly for every other string; always an advertised mode when not `None` |
| `Climate.PresetCommand` | custom_components/climate_wire_pilot/climate.py:289-296 | no command exactly for a preset that is not advertised; otherwise one `select.select_option` call to the heater with one of the six options, which reads back as the requested preset |
| `Climate.HvacCommand` | custom_components/climate_wire_pilot/climate.py:304-314 | a command exactly for the advertised modes: `"Comfort"` for heat and `"Off"` for off, addressed to the heater; the option sent reads back as the requested mode |
| `Climate.HeatSelectsComfort` | custom_components/climate_wire_pilot/climate.py:304-324 | every option except `"Off"` reads as heat, but setting heat selects `"Comfort"`, so an `Eco` or a comfort-minus heater set to heat reads back with a different preset |
| `Climate.UnavailableHeaterReadsAsHeat` | custom_components/climate_wire_pilot/climate.py:248-256 | a heater whose state is `"unavailable"` or `"unknown"` reads as preset `"none"` and as mode heat, not as `None` |
| `Climate.UniqueIdFor` | custom_components/climate_wire_pilot/climate.py:186-188 | the configured id when it is a non-empty string; otherwise `"climate_wire_pilot_"` followed by the heater id; never empty |
| `Climate.DefaultIdsDistinct` | custom_components/climate_wire_pilot/climate.py:186-188 | two entities with no configured id get the same default id exactly when they control the same heater |
| `Climate.NextTemperature` | custom_components/climate_wire_pilot/climate.py:349-357 | the new temperature is the parsed value when the parse succeeds and gives a finite number; otherwise the old temperature is kept, so a known temperature never becomes unknown |
| `Climate.SensorTemperature` | custom_components/climate_wire_pilot/climate.py:326-333 | an absent, `"unavailable"` or `"unknown"` new state keeps the temperature; any other state gives the temperature update of its parse; the result is the old temperature or the accepted parsed value |
| `Climate.SensorTemperatureIdempotent` | custom_components/climate_wire_pilot/climate.py:326-357 | repeating a sensor notification changes nothing more; a known temperature stays known; the temperature changes only for a state other than absent, `"unavailable"` or `"unknown"` whose parse was accepted |
| `Climate.ClimateWirePilot.constructor` | custom_components/climate_wire_pilot/climate.py:178-188 | an empty name becomes no name; the heater and sensor ids are kept; the unique id is `UniqueIdFor` of the arguments; no temperature, no commands, no publications |
| `Climate.ClimateWirePilot.SetSelectOption` | custom_components/climate_wire_pilot/climate.py:359-365 | appends exactly one `select.select_option` call for the heater with the given option |
| `Climate.ClimateWirePilot.SetPresetMode` | custom_components/climate_wire_pilot/climate.py:289-296 | an unknown preset leaves the log unchanged; a known one appends exactly one call to the heater, whose option reads back as the preset |
| `Climate.ClimateWirePilot.SetHvacMode` | custom_components/climate_wire_pilot/climate.py:304-314 | heat or off appends exactly one call to the heater, whose option reads back as the mode; any other mode leaves the log unchanged |
| `Climate.ClimateWirePilot.UpdateTemp` | custom_components/climate_wire_pilot/climate.py:349-357 | the temperature becomes `NextTemperature` of the old value and the parse of the state; nothing else changes |
| `Climate.ClimateWirePilot.SensorChanged` | custom_components/climate_wire_pilot/climate.py:326-333 | an absent, `"unavailable"` or `"unknown"` new state changes neither the temperature nor the publication count; any other state updates the temperature as `UpdateTemp` does and publishes once |
| `Climate.ClimateWirePilot.HeaterChanged` | custom_components/climate_wire_pilot/climate.py:335-341 | never changes the temperature or the command log; publishes once exactly when the notification carries a new state |

## Left out

- Platform setup and schema validation (`async_setup_entry`, `async_setup_platform`, `_async_setup_config`, `PLATFORM_SCHEMA`): host plumbing and a foreign validation library.
- The entity and device registry lookups and the `DeviceInfo` built in `__init__`: host services outside this module.
- Listener registration in `async_added_to_hass` and the startup gating on the host's running state: event-bus and lifecycle behaviour. Its one-shot startup read applies the same `"unavailable"`/`"unknown"` filter before the same temperature update that `SensorChanged` models.
- The service call itself is modelled only as a record in `commands`. Its dispatch, the content of a state publication, and all logging are not modelled.
- Float parsing and `math.isfinite` are abstracted as the `parseFloat` parameter and the `FloatValue` cases. IEEE rounding is not modelled.
- `supported_features`, `temperature_unit`, the empty `update`, the `current_temperature` accessor and the unused `_async_temperature_changed`: constants and plain accessors with no logic.
- Concurrency: the host calls the handlers one at a time, and the model treats each as one atomic step.
