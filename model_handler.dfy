/**
 * `ModelHandler` (Core_Pipeline_Files/model_handler.py): routes a file
 * extension to a model configuration, names processing sessions and guards
 * the session path. The configuration is the parsed JSON file, already loaded.
 */
module Handler {
  import opened Base
  import opened Text
  import opened Json

  /** A model entry of `config['models']`: a JSON object. */
  type ModelConfig = map<string, Value>

  /** `config['settings']`. */
  datatype Settings = Settings(
    defaultModel: string,
    maxRetries: int,
    logSessions: Value,
    sessionStoragePath: string)

  /** The exceptions the handler raises. */
  datatype HandlerError =
    | KeyError(key: string)  // a lookup of a missing key
    | NoSession              // `get_session_path` before any session id

  /** Where a session is stored: `Path(dir) / file`. */
  datatype StoragePath = StoragePath(dir: string, file: string)

  const SessionSuffix: string := ".json"

  /** The extension as looked up: lower-cased, with a leading dot added when missing (lines 53-55). */
  function NormalizeExtension(fileExtension: string): (r: string)
    ensures |r| > 0 && r[0] == '.'
    ensures r == LowerAll(fileExtension) || r == "." + LowerAll(fileExtension)
  {
    var e := LowerAll(fileExtension);
    if |e| > 0 && e[0] == '.' then e else "." + e
  }

  /** Lower-casing twice is lower-casing once. */
  lemma LowerAllTwice(s: string)
    ensures LowerAll(LowerAll(s)) == LowerAll(s)
  {
  }

  /** A normalised extension normalises to itself. */
  lemma NormalizeIdempotent(fileExtension: string)
    ensures NormalizeExtension(NormalizeExtension(fileExtension)) == NormalizeExtension(fileExtension)
  {
    var e := LowerAll(fileExtension);
    LowerAllTwice(fileExtension);
    assert LowerAll("." + e) == "." + LowerAll(e);
  }

  /** Extensions equal up to case normalise alike. */
  lemma NormalizeIgnoresCase(a: string, b: string)
    requires LowerAll(a) == LowerAll(b)
    ensures NormalizeExtension(a) == NormalizeExtension(b)
  {
  }

  /** A missing leading dot is supplied: `csv` and `.csv` normalise alike. */
  lemma NormalizeSuppliesDot(e: string)
    requires e == [] || e[0] != '.'
    ensures NormalizeExtension("." + e) == NormalizeExtension(e)
  {
    assert LowerAll("." + e) == "." + LowerAll(e);
  }

  /**
   * The model key `get_model_for_file` settles on (lines 58-69): the mapped
   * key, or `default_model` when the extension is unmapped; and
   * `default_model` again when that key names no entry or an empty one.
   * The last lookup raises `KeyError` when `default_model` has no entry either.
   */
  function ModelKeyFor(models: map<string, ModelConfig>, mapping: map<string, string>, defaultModel: string, ext: string): (r: Result<string, HandlerError>)
    ensures r.Ok? ==> r.value in models
    ensures r.Err? ==> r.error == KeyError(defaultModel)
  {
    var key := if ext in mapping then mapping[ext] else defaultModel;
    if key in models && models[key] != map[] then Ok(key)
    else if defaultModel in models then Ok(defaultModel)
    else Err(KeyError(defaultModel))
  }

  /** The mapped model wins whenever its entry exists and is not empty; otherwise the default is used or the lookup fails. */
  lemma ModelKeyChoice(models: map<string, ModelConfig>, mapping: map<string, string>, defaultModel: string, ext: string)
    ensures var r := ModelKeyFor(models, mapping, defaultModel, ext);
      (ext in mapping && mapping[ext] in models && models[mapping[ext]] != map[] ==> r == Ok(mapping[ext]))
      && (r.Ok? && r.value != defaultModel ==> ext in mapping && r.value == mapping[ext])
      && (r.Err? <==> defaultModel !in models && !(ext in mapping && mapping[ext] in models && models[mapping[ext]] != map[]))
  {
  }

  /** Extensions that differ only in case, or in a missing leading dot, select the same model. */
  lemma SameModelForSpellings(models: map<string, ModelConfig>, mapping: map<string, string>, defaultModel: string, a: string, b: string)
    requires LowerAll(a) == LowerAll(b) || (a == "." + b && (b == [] || b[0] != '.'))
    ensures ModelKeyFor(models, mapping, defaultModel, NormalizeExtension(a))
         == ModelKeyFor(models, mapping, defaultModel, NormalizeExtension(b))
  {
    if LowerAll(a) == LowerAll(b) {
      NormalizeIgnoresCase(a, b);
    } else {
      NormalizeSuppliesDot(b);
    }
  }

  /** The entry with the metadata `get_model_for_file` writes into it (lines 72-73). */
  function Tagged(config: ModelConfig, key: string, ext: string): (r: ModelConfig)
    ensures r.Keys == config.Keys + {"model_key", "file_extension"}
    ensures r["model_key"] == Str(key) && r["file_extension"] == Str(ext)
    ensures forall k | k in config && k != "model_key" && k != "file_extension" :: r[k] == config[k]
  {
    config["model_key" := Str(key)]["file_extension" := Str(ext)]
  }

  /** The file-name part of a session id: every `.`, `/` and `\` becomes `_` (line 89). */
  function SafeFilename(filename: string): (r: string)
    ensures |r| == |filename|
    ensures forall i | 0 <= i < |r| :: r[i] != '.' && r[i] != '/' && r[i] != '\\'
    ensures forall i | 0 <= i < |r| ::
      r[i] == (if filename[i] == '.' || filename[i] == '/' || filename[i] == '\\' then '_' else filename[i])
  {
    ReplaceChar(ReplaceChar(ReplaceChar(filename, '.', '_'), '/', '_'), '\\', '_')
  }

  /** `f"{safe_filename}_{timestamp}"` (line 90). */
  function SessionId(filename: string, timestamp: string): string {
    SafeFilename(filename) + "_" + timestamp
  }

  /** A session id is never empty, and names no directory as long as the timestamp holds no separator. */
  lemma SessionIdShape(filename: string, timestamp: string)
    ensures var id := SessionId(filename, timestamp);
      |id| == |filename| + 1 + |timestamp| && id[|filename|] == '_'
      && SafeFilename(filename) <= id
      && ('/' !in timestamp && '\\' !in timestamp ==> '/' !in id && '\\' !in id)
  {
    var id := SessionId(filename, timestamp);
    if '/' !in timestamp && '\\' !in timestamp {
      forall i | 0 <= i < |id| ensures id[i] != '/' && id[i] != '\\' {
        if i > |filename| {
          assert id[i] == timestamp[i - |filename| - 1];
        }
      }
    }
  }

  /** What `save_session` comes to; the file write itself is I/O. */
  datatype SaveOutcome =
    | Skipped                                      // `log_sessions` is false (lines 109-110)
    | Written(path: StoragePath, data: map<string, Value>)
    | SaveRaised(error: HandlerError)

  /** What `get_model_info` returns. */
  datatype ModelInfo =
    | NoModelInfo                                   // the string "No model assigned"
    | Info(modelKey: Value, name: Value, description: Value, temperature: Value)

  class ModelHandler {
    var models: map<string, ModelConfig>
    var fileTypeMapping: map<string, string>
    var settings: Settings
    /** `current_model`: the key of the entry it refers to; that entry is shared with `models`. */
    var currentModel: Option<string>
    var currentSessionId: Option<string>

    /** The current model, when set, is an entry of `models`. */
    ghost predicate Valid()
      reads this
    {
      currentModel.Some? ==> currentModel.value in models
    }

    /** `__init__` once the configuration is loaded (lines 20-23). */
    constructor(models: map<string, ModelConfig>, fileTypeMapping: map<string, string>, settings: Settings)
      ensures Valid()
      ensures this.models == models && this.fileTypeMapping == fileTypeMapping && this.settings == settings
      ensures currentModel == None && currentSessionId == None
    {
      this.models := models;
      this.fileTypeMapping := fileTypeMapping;
      this.settings := settings;
      currentModel := None;
      currentSessionId := None;
    }

    /**
     * `get_model_for_file` (lines 42-76): selects an entry, tags it in place
     * with its key and the normalised extension, and makes it the current model.
     */
    method GetModelForFile(fileExtension: string) returns (r: Result<ModelConfig, HandlerError>)
      requires Valid()
      modifies this
      ensures Valid()
      ensures var ext := NormalizeExtension(fileExtension);
        match ModelKeyFor(old(models), fileTypeMapping, settings.defaultModel, ext)
        case Err(e) =>
          r == Err(e) && models == old(models) && currentModel == old(currentModel)
        case Ok(k) =>
          r == Ok(Tagged(old(models)[k], k, ext))
          && models == old(models)[k := r.value] && currentModel == Some(k)
      ensures fileTypeMapping == old(fileTypeMapping) && settings == old(settings)
      ensures currentSessionId == old(currentSessionId)
      ensures r.Ok? ==> GetModelInfo() != Ok(NoModelInfo)
    {
      var ext := LowerAll(fileExtension);
      if !(|ext| > 0 && ext[0] == '.') {
        ext := "." + ext;
      }
      var key := if ext in fileTypeMapping then fileTypeMapping[ext] else settings.defaultModel;
      if !(key in models && models[key] != map[]) {
        key := settings.defaultModel;
        if key !in models {
          return Err(KeyError(key));
        }
      }
      var config := models[key]["model_key" := Str(key)];
      config := config["file_extension" := Str(ext)];
      models := models[key := config];
      currentModel := Some(key);
      r := Ok(config);
    }

    /** The current model's entry, if any. */
    function CurrentModel(): (m: Option<ModelConfig>)
      requires Valid()
      reads this
      ensures m.Some? <==> currentModel.Some?
      ensures m.Some? ==> m.value == models[currentModel.value]
    {
      if currentModel.Some? then Some(models[currentModel.value]) else None
    }

    /** `create_session_id` (lines 78-92), with the clock reading passed in. */
    method CreateSessionId(filename: string, timestamp: string) returns (id: string)
      modifies this
      ensures id == SessionId(filename, timestamp) && currentSessionId == Some(id)
      ensures models == old(models) && fileTypeMapping == old(fileTypeMapping)
      ensures settings == old(settings) && currentModel == old(currentModel)
      ensures SessionPath() == Ok(StoragePath(settings.sessionStoragePath, id + SessionSuffix))
    {
      SessionIdShape(filename, timestamp);
      var safe := ReplaceChar(filename, '.', '_');
      safe := ReplaceChar(safe, '/', '_');
      safe := ReplaceChar(safe, '\\', '_');
      id := safe + "_" + timestamp;
      currentSessionId := Some(id);
    }

    /** `get_session_path` (lines 94-100): no id, or an empty one, raises `ValueError`. */
    function SessionPath(): (r: Result<StoragePath, HandlerError>)
      reads this
      ensures r.Ok? <==> currentSessionId.Some? && currentSessionId.value != []
      ensures r.Err? ==> r.error == NoSession
      ensures r.Ok? ==> (r.value.dir == settings.sessionStoragePath
        && r.value.file == currentSessionId.value + SessionSuffix)
    {
      if currentSessionId.None? || currentSessionId.value == [] then Err(NoSession)
      else Ok(StoragePath(settings.sessionStoragePath, currentSessionId.value + SessionSuffix))
    }

    /**
     * `save_session` (lines 102-122), with the clock reading passed in: the
     * data it would write, stamped with the session id, the time and the model.
     */
    function SaveSession(data: map<string, Value>, timestamp: string): (r: SaveOutcome)
      requires Valid()
      reads this
      ensures !Truthy(settings.logSessions) <==> r == Skipped
      ensures Truthy(settings.logSessions) && SessionPath().Err? ==> r == SaveRaised(NoSession)
      ensures r.Written? ==> (r.path == SessionPath().value
        && r.data.Keys == data.Keys + {"session_id", "timestamp", "model_used"}
        && r.data["session_id"] == Str(currentSessionId.value)
        && r.data["timestamp"] == Str(timestamp)
        && r.data["model_used"] == (if currentModel.Some? then Object(models[currentModel.value]) else Null))
    {
      if !Truthy(settings.logSessions) then Skipped
      else match SessionPath()
        case Err(e) => SaveRaised(e)
        case Ok(path) =>
          var model := if currentModel.Some? then Object(models[currentModel.value]) else Null;
          Written(path, data["session_id" := Str(currentSessionId.value)]["timestamp" := Str(timestamp)]["model_used" := model])
    }

    /** `get_max_retries` (lines 357-359): the retry budget `execute_with_retry` receives. */
    function MaxRetries(): (n: int)
      reads this
      ensures n == settings.maxRetries
    {
      settings.maxRetries
    }

    /**
     * `get_model_info` (lines 361-371): "No model assigned" without a current
     * model (or with an empty one); otherwise four fields, the first missing
     * one raising `KeyError`.
     */
    function GetModelInfo(): (r: Result<ModelInfo, HandlerError>)
      requires Valid()
      reads this
      ensures r == Ok(NoModelInfo) <==> currentModel.None? || models[currentModel.value] == map[]
      ensures r.Ok? && r.value.Info? ==> var m := models[currentModel.value];
        "model_key" in m && "name" in m && "description" in m && "temperature" in m
        && r.value == Info(m["model_key"], m["name"], m["description"], m["temperature"])
      ensures r.Err? ==> r.error.KeyError? && r.error.key in ["model_key", "name", "description", "temperature"]
    {
      if currentModel.None? || models[currentModel.value] == map[] then Ok(NoModelInfo)
      else
        var m := models[currentModel.value];
        if "model_key" !in m then Err(KeyError("model_key"))
        else if "name" !in m then Err(KeyError("name"))
        else if "description" !in m then Err(KeyError("description"))
        else if "temperature" !in m then Err(KeyError("temperature"))
        else Ok(Info(m["model_key"], m["name"], m["description"], m["temperature"]))
    }
  }
}
