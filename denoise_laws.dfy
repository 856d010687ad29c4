/**
 * Laws of the denoise and restore-defaults transforms: what each changes
 * and what it leaves alone, idempotence, and non-interference between
 * restoring defaults and denoising again.
 */
module DenoiseLaws {
  import opened Nbt
  import opened Configuration
  import opened Denoise

  /** Keys removed from the chunk root at the top level. */
  predicate RemovedAtTop(k: string, aggressive: bool, c: ChunkDenoiseConfig) {
    k in c.fields || (aggressive && k in c.aggressiveFields)
  }

  /**
   * Denoising a chunk removes exactly the listed keys of a compound root and
   * keeps every other key with its value, except that in aggressive mode a
   * `sections` list has its compound elements stripped. Other roots are untouched.
   */
  lemma ChunkFrame(v: Value, aggressive: bool, c: ChunkDenoiseConfig)
    ensures !v.Compound? ==> DenoisedChunk(v, aggressive, c) == v
    ensures v.Compound? ==>
      var r := DenoisedChunk(v, aggressive, c);
      && r.Compound?
      && (forall k :: k in r.entries <==> k in v.entries && !RemovedAtTop(k, aggressive, c))
      && (forall k | k in r.entries && (k != SECTIONS || !aggressive || !v.entries[k].List?) :: r.entries[k] == v.entries[k])
      && (aggressive && SECTIONS in r.entries && v.entries[SECTIONS].List? ==>
            r.entries[SECTIONS] == List(StrippedSections(v.entries[SECTIONS].items)))
  {
  }

  /** Stripping a section removes only the two light arrays of a compound, keeping order and length. */
  lemma SectionFrame(s: Value)
    ensures !s.Compound? ==> StrippedSection(s) == s
    ensures s.Compound? ==>
      && StrippedSection(s).Compound?
      && (forall k :: k in StrippedSection(s).entries <==> k in s.entries && k != "BlockLight" && k != "SkyLight")
  {
  }

  lemma WithoutIdempotent(m: map<string, Value>, fields: seq<string>)
    ensures Without(Without(m, fields), fields) == Without(m, fields)
  {
  }

  lemma StrippedSectionIdempotent(s: Value)
    ensures StrippedSection(StrippedSection(s)) == StrippedSection(s)
  {
    if s.Compound? {
      WithoutIdempotent(s.entries, SECTION_AGGRESSIVE_FIELDS);
    }
  }

  lemma StrippedSectionsIdempotent(items: seq<Value>)
    ensures StrippedSections(StrippedSections(items)) == StrippedSections(items)
  {
    forall i | 0 <= i < |items|
      ensures StrippedSections(StrippedSections(items))[i] == StrippedSections(items)[i]
    {
      StrippedSectionIdempotent(items[i]);
    }
  }

  /** Denoising a chunk twice is denoising it once. */
  lemma ChunkIdempotent(v: Value, aggressive: bool, c: ChunkDenoiseConfig)
    ensures DenoisedChunk(DenoisedChunk(v, aggressive, c), aggressive, c) == DenoisedChunk(v, aggressive, c)
  {
    if v.Compound? {
      var m := Without(v.entries, c.fields);
      WithoutIdempotent(v.entries, c.fields);
      if aggressive {
        var m2 := Without(m, c.aggressiveFields);
        var r := WithStrippedSections(m2);
        assert Without(r, c.fields) == r;
        assert Without(r, c.aggressiveFields) == r;
        if SECTIONS in m2 && m2[SECTIONS].List? {
          StrippedSectionsIdempotent(m2[SECTIONS].items);
          assert WithStrippedSections(r) == r;
        }
      }
    }
  }

  /** Denoising a level twice is denoising it once. */
  lemma LevelIdempotent(v: Value, c: LevelDenoiseConfig)
    ensures DenoisedLevel(DenoisedLevel(v, c), c) == DenoisedLevel(v, c)
  {
    if v.Compound? && DATA in v.entries && v.entries[DATA].Compound? {
      var d := Without(v.entries[DATA].entries, c.fields);
      var d' := if c.resetWeather then d["raining" := Byte(0)]["thundering" := Byte(0)] else d;
      var d'' := Without(d', c.fields);
      var d3 := if c.resetWeather then d''["raining" := Byte(0)]["thundering" := Byte(0)] else d'';
      assert d3 == d';
    }
  }

  predicate IsWeatherFlag(k: string) {
    k == "raining" || k == "thundering"
  }

  /**
   * Denoising a level changes only its `Data` compound: the listed fields go,
   * and with `reset_weather` the two weather flags become Byte 0 whatever they were.
   */
  lemma LevelFrame(v: Value, c: LevelDenoiseConfig)
    ensures !(v.Compound? && DATA in v.entries && v.entries[DATA].Compound?) ==> DenoisedLevel(v, c) == v
    ensures v.Compound? && DATA in v.entries && v.entries[DATA].Compound? ==>
      var r := DenoisedLevel(v, c);
      var d := v.entries[DATA].entries;
      && r.Compound? && r.entries.Keys == v.entries.Keys
      && (forall k | k in r.entries && k != DATA :: r.entries[k] == v.entries[k])
      && r.entries[DATA].Compound?
      && (c.resetWeather ==> r.entries[DATA].entries["raining"] == Byte(0) && r.entries[DATA].entries["thundering"] == Byte(0))
      && (forall k | !(c.resetWeather && IsWeatherFlag(k)) ::
            (k in r.entries[DATA].entries <==> k in d && k !in c.fields))
      && (forall k | k in r.entries[DATA].entries && !(c.resetWeather && IsWeatherFlag(k)) ::
            r.entries[DATA].entries[k] == d[k])
  {
  }

  /** `denoise_level` is `denoise_level_with_config` under the default configuration. */
  lemma BuiltinLevelIsDefault(v: Value)
    ensures DenoisedLevel(v, DefaultDenoise().level) == DenoisedLevel(v, BuiltinLevelConfig())
  {
    assert DefaultDenoise().level == BuiltinLevelConfig();
  }

  /**
   * `denoise_chunk` removes more than the default configuration does: its
   * built-in lists add `CarvingMasks`, `starlight.light_version` and three
   * aggressive fields.
   */
  lemma BuiltinChunkFieldsExtendDefaults()
    ensures forall k | k in DefaultChunkDenoise().fields :: k in BuiltinChunkFields().fields
    ensures forall k | k in DefaultChunkDenoise().aggressiveFields :: k in BuiltinChunkFields().aggressiveFields
    ensures "CarvingMasks" in BuiltinChunkFields().fields && "CarvingMasks" !in DefaultChunkDenoise().fields
    ensures "structures" in BuiltinChunkFields().aggressiveFields && "structures" !in DefaultChunkDenoise().aggressiveFields
  {
  }

  /** Restoring defaults adds each of the three keys only if absent, and keeps every existing entry. */
  lemma DefaultsFrame(v: Value)
    ensures !v.Compound? ==> WithDefaults(v) == v
    ensures v.Compound? ==>
      var r := WithDefaults(v);
      && r.Compound?
      && r.entries.Keys == v.entries.Keys + {"LastUpdate", "InhabitedTime", "isLightOn"}
      && (forall k | k in v.entries :: r.entries[k] == v.entries[k])
      && ("LastUpdate" !in v.entries ==> r.entries["LastUpdate"] == Long(0))
      && ("InhabitedTime" !in v.entries ==> r.entries["InhabitedTime"] == Long(0))
      && ("isLightOn" !in v.entries ==> r.entries["isLightOn"] == Byte(0))
  {
  }

  lemma DefaultsIdempotent(v: Value)
    ensures WithDefaults(WithDefaults(v)) == WithDefaults(v)
  {
  }

  /**
   * When the chunk field list removes the three defaulted keys (the default
   * list does), denoising a chunk after restoring its defaults is the same as
   * denoising it directly.
   */
  lemma DenoiseAfterDefaults(v: Value, aggressive: bool, c: ChunkDenoiseConfig)
    requires "LastUpdate" in c.fields && "InhabitedTime" in c.fields && "isLightOn" in c.fields
    ensures DenoisedChunk(WithDefaults(v), aggressive, c) == DenoisedChunk(v, aggressive, c)
  {
    if v.Compound? {
      var w := WithDefaults(v).entries;
      assert Without(w, c.fields) == Without(v.entries, c.fields);
    }
  }

  /** The non-interference law holds for the default configuration. */
  lemma DefaultDenoiseAfterDefaults(v: Value, aggressive: bool)
    ensures DenoisedChunk(WithDefaults(v), aggressive, Default().denoiseCfg.chunk) ==
            DenoisedChunk(v, aggressive, Default().denoiseCfg.chunk)
  {
    DenoiseAfterDefaults(v, aggressive, Default().denoiseCfg.chunk);
  }
}
