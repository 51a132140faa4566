/**
 * `ETFConfig`: session and round configuration, read through two caches
 * keyed by file name and refreshed when a file's modification time moves
 * past the cached one.
 *
 * The file system is a map from path to (mtime, contents); the CSV, YAML
 * and JSON readers are function values; a configuration value is of the
 * type parameter `V`.
 */
module ConfigManager {
  import opened Wrappers

  const SessionConfigPath: string := "otree_etf_cda/configs/session_configs/"
  const RoundConfigPath: string := "otree_etf_cda/configs/round_configs/"
  /** The session-config column naming the round config; never copied into the round data. */
  const RoundConfigColumn: string := "round_config"

  datatype FileInfo = FileInfo(mtime: int, contents: string)
  type FileSystem = map<string, FileInfo>

  /** A cached parse of a file and the modification time it was read at. */
  datatype CacheEntry<E> = CacheEntry(entry: E, mtime: int)
  type Cache<E> = map<string, CacheEntry<E>>

  /** A session-config row: column name -> cell text. */
  type Row = map<string, string>
  /** A round config: field name -> value. */
  type RoundData<V> = map<string, V>

  datatype Loaders<V> = Loaders(
    readCsv: string -> seq<Row>,
    loadYaml: string -> RoundData<V>,
    loadJson: string -> V)

  /** The two class-level caches. */
  datatype Caches<V> = Caches(session: Cache<seq<Row>>, round: Cache<RoundData<V>>)

  datatype ConfigError =
    | SessionConfigNotFound(name: string)
    | RoundConfigNotFound(name: string)
    | ColumnMissing(column: string)   // KeyError: the row has no `round_config` column
    | FieldMissing(field: string)     // ValueError: invalid round config, field missing
    | NoRoundData                     // TypeError: a field read past the last round

  /** An `ETFConfig` object: the number of rounds and this round's data, if any. */
  datatype EtfConfig<V> = EtfConfig(numRounds: int, roundData: Option<RoundData<V>>)

  /** The cached entry must be (re)read: it is absent or older than the file. */
  predicate Stale<E>(cache: Cache<E>, name: string, mtime: int) {
    name !in cache || cache[name].mtime < mtime
  }

  /**
   * `_get_session_config` / `_get_round_config`: read `dir + name` through
   * the cache. None when the file does not exist (the ValueError).
   */
  function LoadCached<E>(cache: Cache<E>, fs: FileSystem, dir: string, name: string, load: string -> E)
    : (r: Option<(E, Cache<E>)>)
    ensures r.None? <==> dir + name !in fs
    ensures r.Some? ==> var file := fs[dir + name];
      && (Stale(cache, name, file.mtime) ==>
            r.value.0 == load(file.contents) && r.value.1 == cache[name := CacheEntry(r.value.0, file.mtime)])
      && (!Stale(cache, name, file.mtime) ==> r.value == (cache[name].entry, cache))
    ensures r.Some? ==>
      && name in r.value.1
      && r.value.1[name].entry == r.value.0
      && !Stale(r.value.1, name, fs[dir + name].mtime)
      && forall other :: other != name ==> (other in r.value.1 <==> other in cache)
  {
    var path := dir + name;
    if path !in fs then None
    else
      var file := fs[path];
      if Stale(cache, name, file.mtime) then
        var entry := load(file.contents);
        Some((entry, cache[name := CacheEntry(entry, file.mtime)]))
      else
        Some((cache[name].entry, cache))
  }

  /** A second read of an unchanged file is served from the cache and changes nothing. */
  lemma LoadCachedTwiceHits<E>(cache: Cache<E>, fs: FileSystem, dir: string, name: string, load: string -> E)
    requires dir + name in fs
    ensures var first := LoadCached(cache, fs, dir, name, load);
      first.Some? && LoadCached(first.value.1, fs, dir, name, load) == first
  {
  }

  /** A row cell overrides a round-config field: any column but `round_config`, with a non-empty cell. */
  predicate Overrides(row: Row, key: string) {
    key in row && key != RoundConfigColumn && row[key] != ""
  }

  /**
   * `_add_session_config_fields`: every overriding cell, parsed as JSON,
   * replaces or adds its field; every other field stays as it was.
   */
  function AddSessionConfigFields<V>(row: Row, roundConfig: RoundData<V>, loadJson: string -> V)
    : (r: RoundData<V>)
    ensures r.Keys == roundConfig.Keys + (set k | k in row && Overrides(row, k))
    ensures forall k :: Overrides(row, k) ==> r[k] == loadJson(row[k])
    ensures forall k :: k in roundConfig && !Overrides(row, k) ==> r[k] == roundConfig[k]
    ensures RoundConfigColumn in roundConfig ==> r[RoundConfigColumn] == roundConfig[RoundConfigColumn]
  {
    var cleaned := map k | k in row && k != RoundConfigColumn && row[k] != "" :: loadJson(row[k]);
    roundConfig + cleaned
  }

  /** Merging the same row twice is merging it once, so re-reading a round repeats nothing. */
  lemma AddSessionConfigFieldsIdempotent<V>(row: Row, roundConfig: RoundData<V>, loadJson: string -> V)
    ensures var once := AddSessionConfigFields(row, roundConfig, loadJson);
      AddSessionConfigFields(row, once, loadJson) == once
  {
    var once := AddSessionConfigFields(row, roundConfig, loadJson);
    var twice := AddSessionConfigFields(row, once, loadJson);
    assert twice.Keys == once.Keys;
    forall k | k in once
      ensures twice[k] == once[k]
    {
    }
  }

  /** The result of `ETFConfig.get` together with the caches it leaves behind, even when it raises. */
  datatype GetOutcome<V> = GetOutcome(config: Result<EtfConfig<V>, ConfigError>, caches: Caches<V>)

  /**
   * `ETFConfig.get`: the number of rounds is the number of session-config
   * rows; past the last row there is no round data; otherwise row
   * `roundNumber - 1` names the round config, whose cached dict is merged
   * with the row IN PLACE, so the merged dict stays in the round cache.
   */
  function Get<V>(caches: Caches<V>, fs: FileSystem, loaders: Loaders<V>,
                  sessionConfigName: string, roundNumber: int): (out: GetOutcome<V>)
    requires roundNumber >= 1
    ensures out.config.Failure? && out.config.error.SessionConfigNotFound? <==>
      SessionConfigPath + sessionConfigName !in fs
    ensures SessionConfigPath + sessionConfigName in fs ==>
      && sessionConfigName in out.caches.session
      && var rows := out.caches.session[sessionConfigName].entry;
         && (out.config.Success? ==> out.config.value.numRounds == |rows|)
         && (roundNumber > |rows| ==> out.config == Success(EtfConfig(|rows|, None)))
         && (roundNumber <= |rows| && RoundConfigColumn !in rows[roundNumber - 1] ==>
               out.config == Failure(ColumnMissing(RoundConfigColumn)))
         && (roundNumber <= |rows| && RoundConfigColumn in rows[roundNumber - 1] ==>
               var row := rows[roundNumber - 1];
               var roundName := row[RoundConfigColumn];
               && (out.config.Failure? <==> RoundConfigPath + roundName !in fs)
               && (out.config.Failure? ==> out.config == Failure(RoundConfigNotFound(roundName)))
               && (out.config.Success? ==>
                     && roundName in out.caches.round
                     && out.config.value.roundData == Some(out.caches.round[roundName].entry)
                     && (forall k :: Overrides(row, k) ==>
                           k in out.caches.round[roundName].entry
                           && out.caches.round[roundName].entry[k] == loaders.loadJson(row[k]))))
    ensures SessionConfigPath + sessionConfigName in fs ==>
      var rows := out.caches.session[sessionConfigName].entry;
      roundNumber <= |rows| && RoundConfigColumn in rows[roundNumber - 1] &&
      RoundConfigPath + rows[roundNumber - 1][RoundConfigColumn] in fs ==>
        var row := rows[roundNumber - 1];
        var roundName := row[RoundConfigColumn];
        var loaded := LoadCached(caches.round, fs, RoundConfigPath, roundName, loaders.loadYaml);
        var merged := AddSessionConfigFields(row, loaded.value.0, loaders.loadJson);
        && loaded.Some?
        && out.config == Success(EtfConfig(|rows|, Some(merged)))
        && out.caches.round == loaded.value.1[roundName := CacheEntry(merged, loaded.value.1[roundName].mtime)]
    ensures out.caches.session ==
      match LoadCached(caches.session, fs, SessionConfigPath, sessionConfigName, loaders.readCsv)
      case None => caches.session
      case Some((_, sessionCache)) => sessionCache
    ensures out.config.Failure? ==> out.caches.round == caches.round
    ensures out.config.Success? && out.config.value.roundData.None? ==> out.caches.round == caches.round
  {
    match LoadCached(caches.session, fs, SessionConfigPath, sessionConfigName, loaders.readCsv)
    case None => GetOutcome(Failure(SessionConfigNotFound(sessionConfigName)), caches)
    case Some((rows, sessionCache)) =>
      var numRounds := |rows|;
      var loaded := caches.(session := sessionCache);
      if roundNumber > numRounds then GetOutcome(Success(EtfConfig(numRounds, None)), loaded)
      else
        var row := rows[roundNumber - 1];
        if RoundConfigColumn !in row then GetOutcome(Failure(ColumnMissing(RoundConfigColumn)), loaded)
        else
          var roundName := row[RoundConfigColumn];
          match LoadCached(caches.round, fs, RoundConfigPath, roundName, loaders.loadYaml)
          case None => GetOutcome(Failure(RoundConfigNotFound(roundName)), loaded)
          case Some((roundConfig, roundCache)) =>
            var merged := AddSessionConfigFields(row, roundConfig, loaders.loadJson);
            var mutated := roundCache[roundName := roundCache[roundName].(entry := merged)];
            GetOutcome(Success(EtfConfig(numRounds, Some(merged))), Caches(sessionCache, mutated))
  }

  /** `__getattr__`: a round-config field, an error when it is missing. */
  function GetField<V>(config: EtfConfig<V>, field: string): (r: Result<V, ConfigError>)
    ensures config.roundData.None? ==> r == Failure(NoRoundData)
    ensures config.roundData.Some? ==>
      (r.Success? <==> field in config.roundData.value)
    ensures config.roundData.Some? && r.Success? ==> r.value == config.roundData.value[field]
    ensures config.roundData.Some? && r.Failure? ==> r.error == FieldMissing(field)
  {
    match config.roundData
    case None => Failure(NoRoundData)
    case Some(data) =>
      if field !in data then Failure(FieldMissing(field)) else Success(data[field])
  }

  /**
   * The in-place merge leaks: once a round whose row overrides `key` has
   * been read, a later round that reuses the same round-config file (not
   * modified in between) and does not override `key` itself still sees the
   * earlier round's value. The session config is already cached and fresh,
   * as it is after any successful read.
   */
  lemma OverridePersists<V>(caches: Caches<V>, fs: FileSystem, loaders: Loaders<V>,
                            sessionConfigName: string, first: int, second: int, key: string)
    requires SessionConfigPath + sessionConfigName in fs
    requires sessionConfigName in caches.session
    requires !Stale(caches.session, sessionConfigName, fs[SessionConfigPath + sessionConfigName].mtime)
    requires var rows := caches.session[sessionConfigName].entry;
      && 1 <= first <= |rows| && 1 <= second <= |rows|
      && RoundConfigColumn in rows[first - 1] && RoundConfigColumn in rows[second - 1]
      && rows[first - 1][RoundConfigColumn] == rows[second - 1][RoundConfigColumn]
      && RoundConfigPath + rows[first - 1][RoundConfigColumn] in fs
      && Overrides(rows[first - 1], key)
      && !Overrides(rows[second - 1], key)
    ensures var rows := caches.session[sessionConfigName].entry;
      var out1 := Get(caches, fs, loaders, sessionConfigName, first);
      var out2 := Get(out1.caches, fs, loaders, sessionConfigName, second);
      && out2.config.Success?
      && GetField(out2.config.value, key) == Success(loaders.loadJson(rows[first - 1][key]))
  {
  }

  /**
   * The most recent override wins: when two rounds that reuse one round-config
   * file both override `key`, a third round reading the same file without
   * overriding it sees the second round's value, not the first's.
   */
  lemma LaterOverrideWins<V>(caches: Caches<V>, fs: FileSystem, loaders: Loaders<V>,
                             sessionConfigName: string, first: int, second: int, third: int, key: string)
    requires SessionConfigPath + sessionConfigName in fs
    requires sessionConfigName in caches.session
    requires !Stale(caches.session, sessionConfigName, fs[SessionConfigPath + sessionConfigName].mtime)
    requires var rows := caches.session[sessionConfigName].entry;
      && 1 <= first <= |rows| && 1 <= second <= |rows| && 1 <= third <= |rows|
      && RoundConfigColumn in rows[first - 1] && RoundConfigColumn in rows[second - 1]
      && RoundConfigColumn in rows[third - 1]
      && rows[first - 1][RoundConfigColumn] == rows[second - 1][RoundConfigColumn]
      && rows[second - 1][RoundConfigColumn] == rows[third - 1][RoundConfigColumn]
      && RoundConfigPath + rows[first - 1][RoundConfigColumn] in fs
      && Overrides(rows[first - 1], key) && Overrides(rows[second - 1], key)
      && !Overrides(rows[third - 1], key)
    ensures var rows := caches.session[sessionConfigName].entry;
      var out1 := Get(caches, fs, loaders, sessionConfigName, first);
      var out2 := Get(out1.caches, fs, loaders, sessionConfigName, second);
      var out3 := Get(out2.caches, fs, loaders, sessionConfigName, third);
      && out3.config.Success?
      && GetField(out3.config.value, key) == Success(loaders.loadJson(rows[second - 1][key]))
  {
  }
}
