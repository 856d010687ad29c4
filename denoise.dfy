/**
 * Denoising: removing the tag fields that change while a world runs (tick
 * counters, timestamps, lighting caches) so that exports of the same world
 * compare equal, and restoring defaults for the fields the game needs.
 *
 * The source mutates the root compound through `&mut Value`; each method
 * here takes the root and returns the new root, and is proved equal to a
 * function that states the whole result. Laws about the functions follow.
 */
module Denoise {
  import opened Ints
  import opened Nbt
  import opened Configuration

  const CHUNK_NOISE_FIELDS: seq<string> :=
    ["LastUpdate", "InhabitedTime", "blending_data", "PostProcessing", "isLightOn",
     "CarvingMasks", "starlight.light_version"]
  const CHUNK_AGGRESSIVE_FIELDS: seq<string> := ["Heightmaps", "fluid_ticks", "block_ticks", "structures"]
  const SECTION_AGGRESSIVE_FIELDS: seq<string> := ["BlockLight", "SkyLight"]
  const LEVEL_NOISE_FIELDS: seq<string> :=
    ["Time", "DayTime", "LastPlayed", "thunderTime", "rainTime", "clearWeatherTime",
     "WanderingTraderSpawnChance", "WanderingTraderSpawnDelay", "WanderingTraderId",
     "ServerBrands", "WasModded"]

  const SECTIONS: string := "sections"
  const DATA: string := "Data"

  // ---------------------------------------------------------------------
  // Specification functions
  // ---------------------------------------------------------------------

  /** m after `m.remove(f)` for every f in fields: exactly the other keys, with their values. */
  function Without(m: map<string, Value>, fields: seq<string>): (r: map<string, Value>)
    ensures forall k :: k in r <==> k in m && k !in fields
    ensures forall k | k in r :: r[k] == m[k]
  {
    map k | k in m && k !in fields :: m[k]
  }

  /** One element of `sections` in aggressive mode: a compound loses its light arrays, anything else is kept. */
  function StrippedSection(s: Value): Value {
    if s.Compound? then Compound(Without(s.entries, SECTION_AGGRESSIVE_FIELDS)) else s
  }

  function StrippedSections(items: seq<Value>): (r: seq<Value>)
    ensures |r| == |items|
    ensures forall i | 0 <= i < |items| :: r[i] == StrippedSection(items[i])
  {
    seq(|items|, i requires 0 <= i < |items| => StrippedSection(items[i]))
  }

  /** The compound after the aggressive pass over its `sections` list, when it has one. */
  function WithStrippedSections(m: map<string, Value>): map<string, Value> {
    if SECTIONS in m && m[SECTIONS].List? then m[SECTIONS := List(StrippedSections(m[SECTIONS].items))]
    else m
  }

  /** The chunk root after denoising with the given field lists. */
  function DenoisedChunk(v: Value, aggressive: bool, c: ChunkDenoiseConfig): Value {
    if !v.Compound? then v
    else
      var m := Without(v.entries, c.fields);
      if aggressive then Compound(WithStrippedSections(Without(m, c.aggressiveFields)))
      else Compound(m)
  }

  /** The level root after denoising: only its `Data` compound changes. */
  function DenoisedLevel(v: Value, c: LevelDenoiseConfig): Value {
    if v.Compound? && DATA in v.entries && v.entries[DATA].Compound? then
      var d := Without(v.entries[DATA].entries, c.fields);
      var d' := if c.resetWeather then d["raining" := Byte(0)]["thundering" := Byte(0)] else d;
      Compound(v.entries[DATA := Compound(d')])
    else v
  }

  function InsertIfAbsent(m: map<string, Value>, k: string, d: Value): map<string, Value> {
    if k in m then m else m[k := d]
  }

  /** The chunk root with the three defaults the game needs filled in where absent. */
  function WithDefaults(v: Value): Value {
    if !v.Compound? then v
    else
      Compound(InsertIfAbsent(InsertIfAbsent(InsertIfAbsent(v.entries,
        "LastUpdate", Long(0)), "InhabitedTime", Long(0)), "isLightOn", Byte(0)))
  }

  /** The field lists `denoise_chunk` uses in place of a configuration. */
  function BuiltinChunkFields(): ChunkDenoiseConfig {
    ChunkDenoiseConfig(CHUNK_NOISE_FIELDS, CHUNK_AGGRESSIVE_FIELDS)
  }

  function BuiltinLevelConfig(): LevelDenoiseConfig {
    LevelDenoiseConfig(LEVEL_NOISE_FIELDS, true)
  }

  // ---------------------------------------------------------------------
  // The in-place operations
  // ---------------------------------------------------------------------

  /** `for field in fields { map.remove(field) }` */
  method RemoveFields(m0: map<string, Value>, fields: seq<string>) returns (m: map<string, Value>)
    ensures m == Without(m0, fields)
  {
    m := m0;
    for i := 0 to |fields|
      invariant m == Without(m0, fields[..i])
    {
      assert fields[..i + 1] == fields[..i] + [fields[i]];
      m := m - {fields[i]};
    }
    assert fields[..|fields|] == fields;
  }

  /** `for section in sections.iter_mut()`: strip every compound element. */
  method StripSections(items0: seq<Value>) returns (items: seq<Value>)
    ensures items == StrippedSections(items0)
  {
    items := items0;
    var i := 0;
    while i < |items|
      invariant 0 <= i <= |items| == |items0|
      invariant forall j | 0 <= j < i :: items[j] == StrippedSection(items0[j])
      invariant forall j | i <= j < |items| :: items[j] == items0[j]
    {
      if items[i].Compound? {
        var sec := RemoveFields(items[i].entries, SECTION_AGGRESSIVE_FIELDS);
        items := items[i := Compound(sec)];
      }
      i := i + 1;
    }
  }

  method DenoiseChunkFields(value: Value, aggressive: bool, c: ChunkDenoiseConfig) returns (r: Value)
    ensures r == DenoisedChunk(value, aggressive, c)
  {
    r := value;
    if value.Compound? {
      var m := RemoveFields(value.entries, c.fields);
      if aggressive {
        m := RemoveFields(m, c.aggressiveFields);
        if SECTIONS in m && m[SECTIONS].List? {
          var sections := StripSections(m[SECTIONS].items);
          m := m[SECTIONS := List(sections)];
        }
      }
      r := Compound(m);
    }
  }

  /** `denoise_chunk`: the built-in field lists. */
  method DenoiseChunk(value: Value, aggressive: bool) returns (r: Value)
    ensures r == DenoisedChunk(value, aggressive, BuiltinChunkFields())
  {
    r := DenoiseChunkFields(value, aggressive, BuiltinChunkFields());
  }

  /** `denoise_chunk_with_config`. */
  method DenoiseChunkWithConfig(value: Value, aggressive: bool, config: DenoiseConfig) returns (r: Value)
    ensures r == DenoisedChunk(value, aggressive, config.chunk)
  {
    r := DenoiseChunkFields(value, aggressive, config.chunk);
  }

  /** `denoise_level_with_config`. */
  method DenoiseLevelWithConfig(value: Value, config: DenoiseConfig) returns (r: Value)
    ensures r == DenoisedLevel(value, config.level)
  {
    r := value;
    if value.Compound? && DATA in value.entries && value.entries[DATA].Compound? {
      var data := RemoveFields(value.entries[DATA].entries, config.level.fields);
      if config.level.resetWeather {
        data := data["raining" := Byte(0)];
        data := data["thundering" := Byte(0)];
      }
      r := Compound(value.entries[DATA := Compound(data)]);
    }
  }

  /** `denoise_level`: the built-in field list, and the weather is always reset. */
  method DenoiseLevel(value: Value) returns (r: Value)
    ensures r == DenoisedLevel(value, BuiltinLevelConfig())
  {
    r := DenoiseLevelWithConfig(value, DenoiseConfig(DefaultChunkDenoise(), BuiltinLevelConfig()));
  }

  /** `restore_defaults`: `entry(k).or_insert(d)` for the three fields. */
  method RestoreDefaults(value: Value) returns (r: Value)
    ensures r == WithDefaults(value)
  {
    r := value;
    if value.Compound? {
      var m := value.entries;
      if "LastUpdate" !in m {
        m := m["LastUpdate" := Long(0)];
      }
      if "InhabitedTime" !in m {
        m := m["InhabitedTime" := Long(0)];
      }
      if "isLightOn" !in m {
        m := m["isLightOn" := Byte(0)];
      }
      r := Compound(m);
    }
  }
}
