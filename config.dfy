/**
 * The configuration records and their defaults. Every record is read with
 * serde's `default` attribute: a field missing from the file takes the
 * default value of its own record. A `...Patch` record is what a partial
 * file supplies (None for a missing field); `Resolve...` fills the gaps.
 */
module Configuration {
  import opened Wrappers

  datatype ExportConfig = ExportConfig(denoise: bool, aggressive: bool)
  datatype RestoreConfig = RestoreConfig(restoreDefaults: bool)
  datatype ChunkDenoiseConfig = ChunkDenoiseConfig(fields: seq<string>, aggressiveFields: seq<string>)
  datatype LevelDenoiseConfig = LevelDenoiseConfig(fields: seq<string>, resetWeather: bool)
  datatype DenoiseConfig = DenoiseConfig(chunk: ChunkDenoiseConfig, level: LevelDenoiseConfig)
  datatype Config = Config(exportCfg: ExportConfig, restoreCfg: RestoreConfig, denoiseCfg: DenoiseConfig)

  const DEFAULT_CHUNK_FIELDS: seq<string> :=
    ["LastUpdate", "InhabitedTime", "blending_data", "PostProcessing", "isLightOn"]
  const DEFAULT_CHUNK_AGGRESSIVE_FIELDS: seq<string> := ["Heightmaps"]
  const DEFAULT_LEVEL_FIELDS: seq<string> :=
    ["Time", "DayTime", "LastPlayed", "thunderTime", "rainTime", "clearWeatherTime",
     "WanderingTraderSpawnChance", "WanderingTraderSpawnDelay", "WanderingTraderId",
     "ServerBrands", "WasModded"]

  function DefaultExport(): (c: ExportConfig)
    ensures c.denoise && !c.aggressive
  {
    ExportConfig(true, false)
  }

  function DefaultRestore(): (c: RestoreConfig)
    ensures c.restoreDefaults
  {
    RestoreConfig(true)
  }

  function DefaultChunkDenoise(): (c: ChunkDenoiseConfig)
    ensures |c.fields| == 5 && |c.aggressiveFields| == 1 && "Heightmaps" in c.aggressiveFields
    ensures "LastUpdate" in c.fields && "InhabitedTime" in c.fields && "isLightOn" in c.fields
  {
    ChunkDenoiseConfig(DEFAULT_CHUNK_FIELDS, DEFAULT_CHUNK_AGGRESSIVE_FIELDS)
  }

  function DefaultLevelDenoise(): (c: LevelDenoiseConfig)
    ensures |c.fields| == 11 && c.resetWeather
  {
    LevelDenoiseConfig(DEFAULT_LEVEL_FIELDS, true)
  }

  function DefaultDenoise(): (c: DenoiseConfig)
    ensures c.chunk == DefaultChunkDenoise() && c.level == DefaultLevelDenoise()
  {
    DenoiseConfig(DefaultChunkDenoise(), DefaultLevelDenoise())
  }

  function Default(): (c: Config)
    ensures c.exportCfg == DefaultExport() && c.restoreCfg == DefaultRestore() && c.denoiseCfg == DefaultDenoise()
  {
    Config(DefaultExport(), DefaultRestore(), DefaultDenoise())
  }

  // ---------------------------------------------------------------------
  // Partial configuration files
  // ---------------------------------------------------------------------

  datatype ExportPatch = ExportPatch(denoise: Option<bool>, aggressive: Option<bool>)
  datatype RestorePatch = RestorePatch(restoreDefaults: Option<bool>)
  datatype ChunkDenoisePatch = ChunkDenoisePatch(fields: Option<seq<string>>, aggressiveFields: Option<seq<string>>)
  datatype LevelDenoisePatch = LevelDenoisePatch(fields: Option<seq<string>>, resetWeather: Option<bool>)
  datatype DenoisePatch = DenoisePatch(chunk: Option<ChunkDenoisePatch>, level: Option<LevelDenoisePatch>)
  datatype ConfigPatch = ConfigPatch(exportCfg: Option<ExportPatch>, restoreCfg: Option<RestorePatch>, denoiseCfg: Option<DenoisePatch>)

  function Or<T>(o: Option<T>, d: T): (r: T)
    ensures o.Some? ==> r == o.value
    ensures o.None? ==> r == d
  {
    if o.Some? then o.value else d
  }

  function ResolveExport(p: ExportPatch): ExportConfig {
    ExportConfig(Or(p.denoise, DefaultExport().denoise), Or(p.aggressive, DefaultExport().aggressive))
  }

  function ResolveRestore(p: RestorePatch): RestoreConfig {
    RestoreConfig(Or(p.restoreDefaults, DefaultRestore().restoreDefaults))
  }

  function ResolveChunkDenoise(p: ChunkDenoisePatch): ChunkDenoiseConfig {
    ChunkDenoiseConfig(Or(p.fields, DefaultChunkDenoise().fields),
                       Or(p.aggressiveFields, DefaultChunkDenoise().aggressiveFields))
  }

  function ResolveLevelDenoise(p: LevelDenoisePatch): LevelDenoiseConfig {
    LevelDenoiseConfig(Or(p.fields, DefaultLevelDenoise().fields), Or(p.resetWeather, DefaultLevelDenoise().resetWeather))
  }

  /** A missing `[denoise.chunk]` or `[denoise.level]` table is the default table. */
  function ResolveDenoise(p: DenoisePatch): DenoiseConfig {
    DenoiseConfig(if p.chunk.Some? then ResolveChunkDenoise(p.chunk.value) else DefaultChunkDenoise(),
                  if p.level.Some? then ResolveLevelDenoise(p.level.value) else DefaultLevelDenoise())
  }

  function Resolve(p: ConfigPatch): Config {
    Config(if p.exportCfg.Some? then ResolveExport(p.exportCfg.value) else DefaultExport(),
           if p.restoreCfg.Some? then ResolveRestore(p.restoreCfg.value) else DefaultRestore(),
           if p.denoiseCfg.Some? then ResolveDenoise(p.denoiseCfg.value) else DefaultDenoise())
  }

  /** The empty file, and a file whose tables are all empty, both give the default configuration. */
  lemma EmptyPatchIsDefault()
    ensures Resolve(ConfigPatch(None, None, None)) == Default()
    ensures Resolve(ConfigPatch(Some(ExportPatch(None, None)), Some(RestorePatch(None)),
                                Some(DenoisePatch(Some(ChunkDenoisePatch(None, None)),
                                                  Some(LevelDenoisePatch(None, None)))))) == Default()
  {
  }

  /** A field present in the file is taken as written; every absent one is its default. */
  lemma ResolveTakesGivenFields(p: ConfigPatch)
    ensures var c := Resolve(p);
      && (p.exportCfg.Some? && p.exportCfg.value.denoise.Some? ==> c.exportCfg.denoise == p.exportCfg.value.denoise.value)
      && (p.exportCfg.Some? && p.exportCfg.value.aggressive.Some? ==> c.exportCfg.aggressive == p.exportCfg.value.aggressive.value)
      && (p.exportCfg.None? || p.exportCfg.value.denoise.None? ==> c.exportCfg.denoise)
      && (p.exportCfg.None? || p.exportCfg.value.aggressive.None? ==> !c.exportCfg.aggressive)
      && (p.restoreCfg.Some? && p.restoreCfg.value.restoreDefaults.Some? ==> c.restoreCfg.restoreDefaults == p.restoreCfg.value.restoreDefaults.value)
      && (p.restoreCfg.None? || p.restoreCfg.value.restoreDefaults.None? ==> c.restoreCfg.restoreDefaults)
      && (p.denoiseCfg.None? ==> c.denoiseCfg == DefaultDenoise())
      && (p.denoiseCfg.Some? && p.denoiseCfg.value.chunk.None? ==> c.denoiseCfg.chunk == DefaultChunkDenoise())
      && (p.denoiseCfg.Some? && p.denoiseCfg.value.level.None? ==> c.denoiseCfg.level == DefaultLevelDenoise())
      && (var d := p.denoiseCfg;
          && (d.Some? && d.value.chunk.Some? && d.value.chunk.value.fields.Some? ==>
                c.denoiseCfg.chunk.fields == d.value.chunk.value.fields.value)
          && (d.None? || d.value.chunk.None? || d.value.chunk.value.fields.None? ==>
                c.denoiseCfg.chunk.fields == DEFAULT_CHUNK_FIELDS)
          && (d.Some? && d.value.chunk.Some? && d.value.chunk.value.aggressiveFields.Some? ==>
                c.denoiseCfg.chunk.aggressiveFields == d.value.chunk.value.aggressiveFields.value)
          && (d.None? || d.value.chunk.None? || d.value.chunk.value.aggressiveFields.None? ==>
                c.denoiseCfg.chunk.aggressiveFields == DEFAULT_CHUNK_AGGRESSIVE_FIELDS)
          && (d.Some? && d.value.level.Some? && d.value.level.value.fields.Some? ==>
                c.denoiseCfg.level.fields == d.value.level.value.fields.value)
          && (d.None? || d.value.level.None? || d.value.level.value.fields.None? ==>
                c.denoiseCfg.level.fields == DEFAULT_LEVEL_FIELDS)
          && (d.Some? && d.value.level.Some? && d.value.level.value.resetWeather.Some? ==>
                c.denoiseCfg.level.resetWeather == d.value.level.value.resetWeather.value)
          && (d.None? || d.value.level.None? || d.value.level.value.resetWeather.None? ==>
                c.denoiseCfg.level.resetWeather))
  {
  }

  /** Writing out a configuration in full and reading it back gives the same configuration. */
  function Full(c: Config): ConfigPatch {
    ConfigPatch(
      Some(ExportPatch(Some(c.exportCfg.denoise), Some(c.exportCfg.aggressive))),
      Some(RestorePatch(Some(c.restoreCfg.restoreDefaults))),
      Some(DenoisePatch(
        Some(ChunkDenoisePatch(Some(c.denoiseCfg.chunk.fields), Some(c.denoiseCfg.chunk.aggressiveFields))),
        Some(LevelDenoisePatch(Some(c.denoiseCfg.level.fields), Some(c.denoiseCfg.level.resetWeather))))))
  }

  lemma ResolveFull(c: Config)
    ensures Resolve(Full(c)) == c
  {
  }
}
