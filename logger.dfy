/** The logger's configuration state (logit/_logger.py): a minimum level and
    the path of the primary log file, set either positionally (`config`) or
    from a dictionary (`config_from_dict`). */
module Logging {
  import opened Errors
  import opened Levels

  /** Defaults of `Logger.__init__` and of `config`'s positional arguments. */
  const DefaultLevel: Level := Clutter
  const DefaultPath: string := "app.log"

  const MissingKeysMessage: string := "Required keys missing from log configuration dictionary."

  /** The dictionary `config` returns for a level and a path. */
  function ConfigDict(level: Level, path: string): (d: map<string, string>)
    ensures d.Keys == {"level", "log_file_path"}
    ensures FromValue(d["level"]) == Ok(level)
    ensures d["log_file_path"] == path
  {
    FromValueRoundTrip(level);
    map["level" := Value(level), "log_file_path" := path]
  }

  /** What `config_from_dict` assigns, or the exception it raises before
      assigning anything: ValueError for a missing key, then ValueError from
      the level lookup for an unknown level value. Other keys are ignored. */
  function ParseConfig(d: map<string, string>): (r: Result<(Level, string)>)
    ensures ("level" !in d || "log_file_path" !in d) ==> r == Err(ValueError(MissingKeysMessage))
    ensures "level" in d && "log_file_path" in d ==>
      (r.Ok? <==> exists l: Level :: Value(l) == d["level"])
    ensures "level" in d && "log_file_path" in d && r.Err? ==>
      r.exception == ValueError("'" + d["level"] + "' is not a valid value of any variant.")
    ensures r.Ok? ==> Value(r.value.0) == d["level"] && r.value.1 == d["log_file_path"]
  {
    if "level" !in d || "log_file_path" !in d then Err(ValueError(MissingKeysMessage))
    else
      match FromValue(d["level"])
      case Ok(level) => Ok((level, d["log_file_path"]))
      case Err(e) => Err(e)
  }

  /** Reading back the dictionary `config` returns gives the same level and path. */
  lemma ConfigRoundTrip(level: Level, path: string)
    ensures ParseConfig(ConfigDict(level, path)) == Ok((level, path))
  {
    FromValueRoundTrip(level);
  }

  /** Keys other than "level" and "log_file_path" do not affect the outcome. */
  lemma ParseConfigIgnoresExtraKeys(d: map<string, string>, k: string, v: string)
    requires k != "level" && k != "log_file_path"
    ensures ParseConfig(d[k := v]) == ParseConfig(d)
  {
    var e := d[k := v];
    assert ("level" in e <==> "level" in d) && ("log_file_path" in e <==> "log_file_path" in d);
    if "level" in d && "log_file_path" in d {
      assert e["level"] == d["level"] && e["log_file_path"] == d["log_file_path"];
    }
  }

  class Logger {
    var level: Level
    var logFilePath: string

    constructor()
      ensures level == DefaultLevel && logFilePath == DefaultPath
    {
      level := DefaultLevel;
      logFilePath := DefaultPath;
    }

    /** `config_from_dict`: on any error neither field changes. */
    method ConfigFromDict(d: map<string, string>) returns (r: Result<()>)
      modifies this
      ensures r.Ok? <==> ParseConfig(d).Ok?
      ensures r.Err? ==> r.exception == ParseConfig(d).exception
      ensures r.Err? ==> level == old(level) && logFilePath == old(logFilePath)
      ensures r.Ok? ==> (level, logFilePath) == ParseConfig(d).value
    {
      if "level" !in d || "log_file_path" !in d {
        return Err(ValueError(MissingKeysMessage));
      }
      var looked := FromValue(d["level"]);
      if looked.Err? {
        return Err(looked.exception);
      }
      level := looked.value;
      logFilePath := d["log_file_path"];
      r := Ok(());
    }

    /** `config`: sets both fields and returns them as a dictionary. */
    method Config(newLevel: Level, newPath: string) returns (d: map<string, string>)
      modifies this
      ensures level == newLevel && logFilePath == newPath
      ensures d == ConfigDict(newLevel, newPath)
    {
      level := newLevel;
      logFilePath := newPath;
      d := map["level" := Value(level), "log_file_path" := newPath];
    }
  }

  /** Feeding the dictionary returned by `config` back to `config_from_dict`
      succeeds and leaves the logger configured as `config` left it. */
  method ConfigThenReload(logger: Logger, level: Level, path: string) returns (r: Result<()>)
    modifies logger
    ensures r.Ok?
    ensures logger.level == level && logger.logFilePath == path
  {
    var d := logger.Config(level, path);
    ConfigRoundTrip(level, path);
    r := logger.ConfigFromDict(d);
  }
}
