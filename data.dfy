/** Application data of the logger (logit/_data.py): the rotation ledger,
    which maps the absolute path of each log file to the time it was last
    rotated, is read once from the configuration file and cached; every
    change to it is written back whole. Beside it, the archive naming and
    moving of rotated log files, and the loading of structured JSON and XML
    logs. The file system is an abstract map from path to text; the wall
    clock and today's date are parameters; the JSON and XML parsers are
    given as functions. */
module Data {
  import opened Errors
  import Units

  /** `time.time()` values: only stored and returned, never computed with. */
  type Timestamp = real

  /** The "files" object of the configuration file: absolute path to the
      `last_rotation` time. */
  type Ledger = map<string, Timestamp>

  // ---------------------------------------------------------------------
  // The ledger as values

  /** The ledger after `get_last_rotation_time(path)` at time `now`: an
      unseen path gets an entry holding `now`; a known one is left alone. */
  function Touch(ledger: Ledger, path: string, now: Timestamp): (m: Ledger)
    ensures path in m && m.Keys == ledger.Keys + {path}
    ensures path in ledger ==> m == ledger
    ensures path !in ledger ==> m[path] == now
    ensures forall p :: p in ledger ==> m[p] == ledger[p]
  {
    if path in ledger then ledger else ledger[path := now]
  }

  /** The ledger after `save_last_rotation_time(path)` at time `now`:
      KeyError for a path with no entry, else only that entry changes. */
  function Save(ledger: Ledger, path: string, now: Timestamp): (r: Result<Ledger>)
    ensures r.Err? <==> path !in ledger
    ensures r.Err? ==> r.exception == KeyError(path)
    ensures r.Ok? ==> r.value.Keys == ledger.Keys && r.value[path] == now
    ensures r.Ok? ==> forall p :: p in ledger && p != path ==> r.value[p] == ledger[p]
  {
    if path in ledger then Ok(ledger[path := now]) else Err(KeyError(path))
  }

  /** Asking again for a path's last rotation changes nothing: the first
      time wins. */
  lemma TouchIdempotent(ledger: Ledger, path: string, first: Timestamp, later: Timestamp)
    ensures Touch(Touch(ledger, path, first), path, later) == Touch(ledger, path, first)
  {
  }

  /** Once a path has been asked for, saving it succeeds, and asking again
      returns the saved time. */
  lemma SaveAfterTouch(ledger: Ledger, path: string, t0: Timestamp, t1: Timestamp, t2: Timestamp)
    ensures Save(Touch(ledger, path, t0), path, t1).Ok?
    ensures Touch(Save(Touch(ledger, path, t0), path, t1).value, path, t2)[path] == t1
  {
  }

  // ---------------------------------------------------------------------
  // Archive names

  /** A calendar date, as `datetime.date` holds it. */
  datatype Date = Date(year: nat, month: nat, day: nat)

  predicate ValidDate(d: Date)
  {
    1 <= d.year <= 9999 && 1 <= d.month <= 12 && 1 <= d.day <= 31
  }

  function Pow10(w: nat): (p: nat)
    ensures p >= 1
  {
    if w == 0 then 1 else 10 * Pow10(w - 1)
  }

  /** `n` in decimal, zero-padded to `width` digits (the last `width` digits
      when `n` is wider). */
  function Padded(n: nat, width: nat): (s: string)
    ensures |s| == width
    ensures Units.AllDigits(s)
  {
    if width == 0 then "" else Padded(n / 10, width - 1) + [Units.DigitChar(n % 10)]
  }

  lemma {:induction false} PaddedInjective(a: nat, b: nat, width: nat)
    requires a < Pow10(width) && b < Pow10(width)
    requires Padded(a, width) == Padded(b, width)
    ensures a == b
  {
    if width > 0 {
      var pa, pb := Padded(a, width), Padded(b, width);
      assert pa[width - 1] == pb[width - 1];
      assert a % 10 == b % 10;
      assert pa[..width - 1] == Padded(a / 10, width - 1);
      assert pb[..width - 1] == Padded(b / 10, width - 1);
      PaddedInjective(a / 10, b / 10, width - 1);
    }
  }

  /** The padded digits denote `n` when `n` fits in `width` digits. */
  lemma {:induction false} PaddedValue(n: nat, width: nat)
    requires n < Pow10(width)
    ensures Units.DecimalValue(Padded(n, width)) == n
  {
    if width > 0 {
      var s := Padded(n, width);
      assert s[..width - 1] == Padded(n / 10, width - 1);
      PaddedValue(n / 10, width - 1);
    }
  }

  /** `str(date)`: ISO 8601, "YYYY-MM-DD": the year in four digits, the
      month and the day in two, separated by dashes. */
  function IsoDate(d: Date): (s: string)
    ensures |s| == 10 && s[4] == '-' && s[7] == '-'
    ensures s[..4] == Padded(d.year, 4) && s[5..7] == Padded(d.month, 2) && s[8..] == Padded(d.day, 2)
    ensures '/' !in s
  {
    Padded(d.year, 4) + "-" + Padded(d.month, 2) + "-" + Padded(d.day, 2)
  }

  /** A valid date reads back from its text: year, month and day. */
  lemma IsoDateFields(d: Date)
    requires ValidDate(d)
    ensures Units.DecimalValue(IsoDate(d)[..4]) == d.year
    ensures Units.DecimalValue(IsoDate(d)[5..7]) == d.month
    ensures Units.DecimalValue(IsoDate(d)[8..]) == d.day
  {
    PaddedValue(d.year, 4);
    PaddedValue(d.month, 2);
    PaddedValue(d.day, 2);
  }

  /** Different dates are written differently. */
  lemma IsoDateInjective(d1: Date, d2: Date)
    requires ValidDate(d1) && ValidDate(d2)
    requires IsoDate(d1) == IsoDate(d2)
    ensures d1 == d2
  {
    var s1, s2 := IsoDate(d1), IsoDate(d2);
    assert s1[0..4] == Padded(d1.year, 4) && s2[0..4] == Padded(d2.year, 4);
    assert s1[5..7] == Padded(d1.month, 2) && s2[5..7] == Padded(d2.month, 2);
    assert s1[8..10] == Padded(d1.day, 2) && s2[8..10] == Padded(d2.day, 2);
    PaddedInjective(d1.year, d2.year, 4);
    PaddedInjective(d1.month, d2.month, 2);
    PaddedInjective(d1.day, d2.day, 2);
  }

  /** `Path.name`: what follows the last "/". */
  function Basename(p: string): (n: string)
    ensures '/' !in n && |n| <= |p|
    ensures '/' !in p ==> n == p
  {
    if p == [] || p[|p| - 1] == '/' then "" else Basename(p[..|p| - 1]) + [p[|p| - 1]]
  }

  /** `dir / name` for a name with no "/". */
  function JoinPath(dir: string, name: string): string
  {
    dir + "/" + name
  }

  lemma {:induction false} BasenameOfJoin(dir: string, name: string)
    requires '/' !in name
    ensures Basename(JoinPath(dir, name)) == name
  {
    if name != [] {
      var init := name[..|name| - 1];
      assert JoinPath(dir, name)[..|JoinPath(dir, name)| - 1] == JoinPath(dir, init);
      BasenameOfJoin(dir, init);
      assert init + [name[|name| - 1]] == name;
    } else {
      assert JoinPath(dir, name)[|JoinPath(dir, name)| - 1] == '/';
    }
  }

  /** The file name `_create_archive_logfile_name` builds: the date first,
      then "-archive-", the log file's base name last, and no "/" anywhere. */
  function ArchiveFileName(date: Date, logFile: string): (name: string)
    ensures |name| == 19 + |Basename(logFile)|
    ensures name[..10] == IsoDate(date)
    ensures name[10..19] == "-archive-"
    ensures name[|name| - |Basename(logFile)|..] == Basename(logFile)
    ensures '/' !in name
  {
    IsoDate(date) + "-archive-" + Basename(logFile)
  }

  /** `_create_archive_logfile_name`: the archive file name inside the
      application-data folder. */
  function ArchivePath(folder: string, date: Date, logFile: string): (p: string)
    ensures |p| > |folder| + 1
    ensures p[..|folder| + 1] == folder + "/"
    ensures p[|folder| + 1..] == ArchiveFileName(date, logFile)
    ensures Basename(p) == ArchiveFileName(date, logFile)
  {
    BasenameOfJoin(folder, ArchiveFileName(date, logFile));
    JoinPath(folder, ArchiveFileName(date, logFile))
  }

  /** Log files with the same base name archived on the same day get the
      same archive path, so the later archive replaces the earlier one. */
  lemma ArchivePathsCollide(folder: string, date: Date, p: string, q: string)
    requires Basename(p) == Basename(q)
    ensures ArchivePath(folder, date, p) == ArchivePath(folder, date, q)
  {
  }

  /** The date sits right after the folder and its "/". */
  lemma ArchivePathDate(folder: string, date: Date, logFile: string)
    ensures |ArchivePath(folder, date, logFile)| >= |folder| + 11
    ensures ArchivePath(folder, date, logFile)[|folder| + 1..|folder| + 11] == IsoDate(date)
  {
    var name := ArchiveFileName(date, logFile);
    var p := ArchivePath(folder, date, logFile);
    assert p == (folder + "/") + name;
    assert p[|folder| + 1..|folder| + 11] == name[..10];
  }

  /** Archives made on different days never share a path. */
  lemma ArchivePathsOfDistinctDates(folder: string, d1: Date, d2: Date, p: string, q: string)
    requires ValidDate(d1) && ValidDate(d2) && d1 != d2
    ensures ArchivePath(folder, d1, p) != ArchivePath(folder, d2, q)
  {
    ArchivePathDate(folder, d1, p);
    ArchivePathDate(folder, d2, q);
    if ArchivePath(folder, d1, p) == ArchivePath(folder, d2, q) {
      IsoDateInjective(d1, d2);
    }
  }

  /** The archive path is never the log file's own path: its base name is
      longer. */
  lemma ArchivePathIsNotSource(folder: string, date: Date, logFile: string)
    ensures ArchivePath(folder, date, logFile) != logFile
  {
    assert Basename(ArchivePath(folder, date, logFile)) != Basename(logFile);
  }

  // ---------------------------------------------------------------------
  // Structured logs

  /** A decoded JSON document. */
  datatype Json =
    | JNull
    | JBool(b: bool)
    | JNumber(n: real)
    | JString(s: string)
    | JArray(items: seq<Json>)
    | JObject(fields: map<string, Json>)

  /** What `json.dump([], f, indent=2)` writes. */
  const EmptyJsonArrayText: string := "[]"

  /** `get_json_logs` on a file map: the decoded content, or, when the text
      does not decode, an empty list after overwriting the file with "[]". */
  function ReadJsonLogs(files: map<string, string>, path: string, decode: string -> Option<Json>):
    (out: (Result<Json>, map<string, string>))
    ensures path !in files ==> out == (Err(FileNotFoundError(path)), files)
    ensures path in files && decode(files[path]).Some? ==> out == (Ok(decode(files[path]).value), files)
    ensures path in files && decode(files[path]).None? ==>
      out == (Ok(JArray([])), files[path := EmptyJsonArrayText])
  {
    if path !in files then (Err(FileNotFoundError(path)), files)
    else
      match decode(files[path])
      case Some(logs) => (Ok(logs), files)
      case None => (Ok(JArray([])), files[path := EmptyJsonArrayText])
  }

  /** After a recovery the file decodes to the empty list, so a second read
      returns the same empty list and changes nothing. */
  lemma JsonRecoveryIsStable(files: map<string, string>, path: string, decode: string -> Option<Json>)
    requires path in files && decode(files[path]).None?
    requires decode(EmptyJsonArrayText) == Some(JArray([]))
    ensures ReadJsonLogs(files, path, decode).0 == Ok(JArray([]))
    ensures var after := ReadJsonLogs(files, path, decode).1;
            ReadJsonLogs(after, path, decode) == (Ok(JArray([])), after)
  {
  }

  /** An XML element: its tag, its text (None when it has none) and its
      child elements in document order. */
  datatype Element = Element(tag: string, text: Option<string>, children: seq<Element>)

  /** One structured log entry: child tag to child text. */
  type Record = map<string, Option<string>>

  /** `root.findall("log")`: the children tagged "log", in document order. */
  function LogChildren(es: seq<Element>): (logs: seq<Element>)
    ensures |logs| <= |es|
  {
    if es == [] then []
    else
      var init := LogChildren(es[..|es| - 1]);
      if es[|es| - 1].tag == "log" then init + [es[|es| - 1]] else init
  }

  /** `findall("log")` keeps exactly the children tagged "log". */
  lemma {:induction false} LogChildrenKeepsLogs(es: seq<Element>)
    ensures forall e :: e in LogChildren(es) ==> e in es && e.tag == "log"
    ensures forall e :: e in es && e.tag == "log" ==> e in LogChildren(es)
  {
    if es != [] {
      var init, last := es[..|es| - 1], es[|es| - 1];
      LogChildrenKeepsLogs(init);
      assert es == init + [last];
    }
  }

  /** The dict `get_xml_logs` fills from one entry's children: each child's
      tag bound to its text, a later child replacing an earlier one with the
      same tag. */
  function RecordOf(fields: seq<Element>): (r: Record)
    ensures r.Keys == set f | f in fields :: f.tag
  {
    if fields == [] then map[]
    else
      var init, last := fields[..|fields| - 1], fields[|fields| - 1];
      assert fields == init + [last];
      RecordOf(init)[last.tag := last.text]
  }

  /** Each tag is bound to the text of its last child with that tag. */
  lemma {:induction false} RecordOfLastWins(fields: seq<Element>, i: nat)
    requires i < |fields|
    requires forall j :: i < j < |fields| ==> fields[j].tag != fields[i].tag
    ensures fields[i].tag in RecordOf(fields)
    ensures RecordOf(fields)[fields[i].tag] == fields[i].text
  {
    if i < |fields| - 1 {
      var init := fields[..|fields| - 1];
      RecordOfLastWins(init, i);
    }
  }

  /** The entries of a list of `<log>` elements, in order. */
  function Records(logs: seq<Element>): (rs: seq<Record>)
    ensures |rs| == |logs|
  {
    if logs == [] then []
    else Records(logs[..|logs| - 1]) + [RecordOf(logs[|logs| - 1].children)]
  }

  /** One entry per `<log>` element, each built from that element's children. */
  lemma {:induction false} RecordsInOrder(logs: seq<Element>)
    ensures forall i :: 0 <= i < |logs| ==> Records(logs)[i] == RecordOf(logs[i].children)
  {
    if logs != [] {
      RecordsInOrder(logs[..|logs| - 1]);
    }
  }

  /** What `get_xml_logs` returns for a parsed document: one entry per
      `<log>` child, in order, each built from that child's children. */
  function XmlLogs(root: Element): (logs: seq<Record>)
    ensures |logs| == |LogChildren(root.children)|
    ensures forall i :: 0 <= i < |logs| ==> logs[i] == RecordOf(LogChildren(root.children)[i].children)
  {
    RecordsInOrder(LogChildren(root.children));
    Records(LogChildren(root.children))
  }

  lemma LogChildrenStep(es: seq<Element>, i: nat)
    requires i < |es|
    ensures LogChildren(es[..i + 1]) ==
      if es[i].tag == "log" then LogChildren(es[..i]) + [es[i]] else LogChildren(es[..i])
  {
    assert es[..i + 1][..i] == es[..i];
  }

  lemma RecordOfStep(fields: seq<Element>, j: nat)
    requires j < |fields|
    ensures RecordOf(fields[..j + 1]) == RecordOf(fields[..j])[fields[j].tag := fields[j].text]
  {
    assert fields[..j + 1][..j] == fields[..j];
  }

  lemma RecordsAppend(logs: seq<Element>, e: Element)
    ensures Records(logs + [e]) == Records(logs) + [RecordOf(e.children)]
  {
    assert (logs + [e])[..|logs|] == logs;
  }

  /** The inner loop of `get_xml_logs`: fill a dict from one entry's
      children. */
  method CollectEntry(log: Element) returns (trueLog: Record)
    ensures trueLog == RecordOf(log.children)
  {
    trueLog := map[];
    var j := 0;
    while j < |log.children|
      invariant 0 <= j <= |log.children|
      invariant trueLog == RecordOf(log.children[..j])
    {
      var attr := log.children[j];
      RecordOfStep(log.children, j);
      trueLog := trueLog[attr.tag := attr.text];
      j := j + 1;
    }
    assert log.children[..j] == log.children;
  }

  /** The outer loop of `get_xml_logs`: one dict per `<log>` child of the
      root, appended in document order. */
  method CollectLogs(root: Element) returns (logs: seq<Record>)
    ensures logs == XmlLogs(root)
  {
    logs := [];
    var i := 0;
    while i < |root.children|
      invariant 0 <= i <= |root.children|
      invariant logs == Records(LogChildren(root.children[..i]))
    {
      var log := root.children[i];
      LogChildrenStep(root.children, i);
      if log.tag == "log" {
        var trueLog := CollectEntry(log);
        RecordsAppend(LogChildren(root.children[..i]), log);
        logs := logs + [trueLog];
      }
      i := i + 1;
    }
    assert root.children[..i] == root.children;
  }

  // ---------------------------------------------------------------------
  // The module's state

  class AppData {
    /** `APP_DATA_FOLDER`, an absolute path. */
    const appDataFolder: string
    /** What the configuration file holds: the ledger `json.dump` last wrote. */
    var configFile: Ledger
    /** The `lru_cache` of `get_logit_config`: None until the first call,
        then the one ledger every caller shares and mutates. */
    var cache: Option<Ledger>
    /** The file system: path to text. */
    var files: map<string, string>

    /** The cached ledger, once loaded, is what the file holds. */
    ghost predicate Synced()
      reads this
    {
      cache.Some? ==> cache.value == configFile
    }

    /** What `get_logit_config` returns now. */
    function Loaded(): Ledger
      reads this
    {
      if cache.Some? then cache.value else configFile
    }

    /** Importing the library truncates the configuration file to an empty
        "files" object; nothing is cached yet. */
    constructor(folder: string, initialFiles: map<string, string>)
      ensures appDataFolder == folder && files == initialFiles
      ensures configFile == map[] && cache == None
      ensures Synced()
    {
      appDataFolder := folder;
      files := initialFiles;
      configFile := map[];
      cache := None;
    }

    /** `get_logit_config`: the first call reads the file; later calls
        return the cached ledger, with every change made to it since, and
        never look at the file again. */
    method GetLogitConfig() returns (config: Ledger)
      modifies this`cache
      ensures old(cache).None? ==> config == old(configFile)
      ensures old(cache).Some? ==> config == old(cache).value
      ensures cache == Some(config)
      ensures old(Synced()) ==> Synced()
    {
      if cache.None? {
        cache := Some(configFile);
      }
      config := cache.value;
    }

    /** `set_logit_config`: write the whole ledger to the file. */
    method SetLogitConfig(config: Ledger)
      modifies this`configFile
      ensures configFile == config
    {
      configFile := config;
    }

    /** `save_last_rotation_time`: set the path's entry to `now` in the
        cached ledger and write the ledger out; KeyError, with nothing
        written, when the path has no entry. */
    method SaveLastRotationTime(path: string, now: Timestamp) returns (r: Result<()>)
      modifies this`cache, this`configFile
      ensures var saved := Save(old(Loaded()), path, now);
              && (r.Ok? <==> saved.Ok?)
              && (saved.Ok? ==> cache == Some(saved.value) && configFile == saved.value)
              && (saved.Err? ==> r == Err(saved.exception) && cache == Some(old(Loaded())) && configFile == old(configFile))
      ensures old(Synced()) ==> Synced()
    {
      var config := GetLogitConfig();
      if path !in config {
        return Err(KeyError(path));
      }
      config := config[path := now];
      cache := Some(config);
      SetLogitConfig(config);
      r := Ok(());
    }

    /** `get_last_rotation_time`: the path's entry; an unseen path first gets
        an entry holding `now`, and only then is the ledger written out. */
    method GetLastRotationTime(path: string, now: Timestamp) returns (t: Timestamp)
      modifies this`cache, this`configFile
      ensures var touched := Touch(old(Loaded()), path, now);
              && t == touched[path]
              && cache == Some(touched)
              && (path in old(Loaded()) ==> configFile == old(configFile))
              && (path !in old(Loaded()) ==> configFile == touched)
      ensures path !in old(Loaded()) ==> t == now
      ensures old(Synced()) ==> Synced()
    {
      var config := GetLogitConfig();
      if path !in config {
        config := config[path := now];
        cache := Some(config);
        SetLogitConfig(config);
      }
      t := config[path];
    }

    /** `move_log_file`: move the log file to its archive path, then create
        an empty file at the original path. FileNotFoundError, with nothing
        changed, when the log file does not exist. */
    method MoveLogFile(path: string, today: Date) returns (r: Result<()>)
      modifies this`files
      ensures r.Err? <==> path !in old(files)
      ensures r.Err? ==> r.exception == FileNotFoundError(path) && files == old(files)
      ensures r.Ok? ==> files == old(files)[ArchivePath(appDataFolder, today, path) := old(files)[path]][path := ""]
      ensures r.Ok? ==> files[path] == "" && files[ArchivePath(appDataFolder, today, path)] == old(files)[path]
      ensures r.Ok? ==> forall p :: p in old(files) && p != path && p != ArchivePath(appDataFolder, today, path) ==>
        p in files && files[p] == old(files)[p]
    {
      if path !in files {
        return Err(FileNotFoundError(path));
      }
      var archive := ArchivePath(appDataFolder, today, path);
      ArchivePathIsNotSource(appDataFolder, today, path);
      // shutil.move: the archive path, replaced if it exists, gets the content
      files := (files - {path})[archive := files[path]];
      // Path.touch: the original path no longer exists, so it is created empty
      files := files[path := ""];
      r := Ok(());
    }

    /** `get_json_logs`. */
    method GetJsonLogs(path: string, decode: string -> Option<Json>) returns (r: Result<Json>)
      modifies this`files
      ensures (r, files) == ReadJsonLogs(old(files), path, decode)
    {
      if path !in files {
        return Err(FileNotFoundError(path));
      }
      var decoded := decode(files[path]);
      if decoded.None? {
        files := files[path := EmptyJsonArrayText];
        return Ok(JArray([]));
      }
      r := Ok(decoded.value);
    }

    /** `get_xml_logs`: one dict per `<log>` child of the root, in document
        order, each mapping the entry's child tags to their texts. */
    method GetXmlLogs(path: string, parse: string -> Option<Element>) returns (r: Result<seq<Record>>)
      ensures path !in files ==> r == Err(FileNotFoundError(path))
      ensures path in files && parse(files[path]).None? ==> r == Err(XmlParseError(path))
      ensures path in files && parse(files[path]).Some? ==> r == Ok(XmlLogs(parse(files[path]).value))
    {
      if path !in files {
        return Err(FileNotFoundError(path));
      }
      var tree := parse(files[path]);
      if tree.None? {
        return Err(XmlParseError(path));
      }
      var logs := CollectLogs(tree.value);
      r := Ok(logs);
    }
  }
}
