/** The `QrGenerator` client of qr_code_generator/wrapper.py: a parameter
    table, a `Config`, and the name of the next output file. The clock, the
    HTTP response and the filesystem come in as values. */
module Wrapper {
  import opened PyValues
  import opened PyStrings
  import opened OrderedDict
  import opened ClientLogic
  import opened Configuration

  /** What `hash_time()` produces: `QR-` then `%Y%m%d-%H%M%S`. */
  predicate IsTimestampName(stamp: string) {
    && |stamp| == 18
    && stamp[..3] == "QR-"
    && stamp[11] == '-'
    && forall i :: 3 <= i < 18 && i != 11 ==> '0' <= stamp[i] <= '9'
  }

  /** What `validate` leaves behind: the output filename, and the exception
      it raised, if any. */
  datatype Validation = Validation(filename: Option<string>, error: Option<Error>)

  /** `validate`, check by check: empty folders, then an extension in the
      filename (None is tolerated), then the timestamp fallback, whose
      collision loop raises TypeError on its first turn, then the
      required parameters. */
  function ValidateResult(cfg: Table, data: Table, name: Option<string>, stamp: string, fs: Files): Validation {
    if !Truthy(Get(cfg, "OUT_FOLDER")) || !Truthy(Get(cfg, "OUTPUT_FOLDER")) then
      Validation(name, Some(FileNotFoundError))
    else if name.Some? && '.' in name.value then
      Validation(name, Some(ValueError("Output file should not contain extension")))
    else if name.None? || name.value == "" then
      match OutputPath(cfg, data, Some(stamp))
      case Err(e) => Validation(Some(stamp), Some(e))
      case Ok(path) =>
        if ExistsNonEmpty(fs, path) then Validation(Some(stamp), Some(TypeError))
        else Validation(Some(stamp), FirstMissing(data, Get(cfg, "REQUIRED_PARAMETERS")))
    else
      Validation(name, FirstMissing(data, Get(cfg, "REQUIRED_PARAMETERS")))
  }

  /** `handle_response`: any status but 200 goes to `handle_api_error`,
      which always raises, so only a 200 reaches the write. */
  function Respond(cfg: Table, data: Table, name: Option<string>, response: Response, fs: Files): (r: Result<Files>)
    ensures r.Ok? ==> (response.status == 200 && OutputPath(cfg, data, name).Ok? &&
      r.value == fs[OutputPath(cfg, data, name).value := response.text])
    ensures response.status != 200 ==> r == Err(ApiError(response.status, response.errors))
  {
    if response.status != 200 then Err(ApiError(response.status, response.errors))
    else WriteOutput(cfg, data, name, response.text, fs)
  }

  /** `request(file_name)`: adopt a truthy file name, validate, build the URL,
      post, handle the response, and only then clean the filename up. */
  function RequestResult(cfg: Table, data: Table, name: Option<string>, fileName: Option<string>,
                         stamp: string, fs: Files, response: Response): RequestOutcome
  {
    var chosen := if fileName.Some? && fileName.value != "" then fileName else name;
    var v := ValidateResult(cfg, data, chosen, stamp, fs);
    if v.error.Some? then RequestOutcome(v.filename, None, Err(v.error.value))
    else match QueryUrlFor(Get(cfg, "API_URI"), data)
      case Err(e) => RequestOutcome(v.filename, None, Err(e))
      case Ok(url) =>
        match Respond(cfg, data, v.filename, response, fs)
        case Err(e) => RequestOutcome(v.filename, Some(url), Err(e))
        case Ok(written) => RequestOutcome(None, Some(url), Ok(written))
  }

  /** Empty folder settings are reported first, whatever else is wrong, and
      leave the filename as it was. */
  lemma ValidateFoldersFirst(cfg: Table, data: Table, name: Option<string>, stamp: string, fs: Files)
    requires !Truthy(Get(cfg, "OUT_FOLDER")) || !Truthy(Get(cfg, "OUTPUT_FOLDER"))
    ensures ValidateResult(cfg, data, name, stamp, fs) == Validation(name, Some(FileNotFoundError))
  {
  }

  /** Validation passes only with non-empty folders, a non-empty filename
      without `.`, a free output path when the timestamp was used, and every
      listed required parameter holding a truthy value; and then it has
      settled the filename. */
  lemma ValidatePasses(cfg: Table, data: Table, name: Option<string>, stamp: string, fs: Files)
    requires IsTimestampName(stamp)
    requires Get(cfg, "REQUIRED_PARAMETERS").PyList? || Get(cfg, "REQUIRED_PARAMETERS").PyStr?
    requires ValidateResult(cfg, data, name, stamp, fs).error == None
    ensures Truthy(Get(cfg, "OUT_FOLDER")) && Truthy(Get(cfg, "OUTPUT_FOLDER"))
    ensures var f := ValidateResult(cfg, data, name, stamp, fs).filename;
      f.Some? && f.value != "" && '.' !in f.value &&
      (name.Some? && name.value != "" ==> f == name) &&
      (name.None? || name.value == "" ==> (f == Some(stamp) && OutputPath(cfg, data, f).Ok? &&
        !ExistsNonEmpty(fs, OutputPath(cfg, data, f).value)))
    ensures forall i :: 0 <= i < |data| && Listed(Get(cfg, "REQUIRED_PARAMETERS"), data[i].0) ==> Truthy(data[i].1)
  {
    RequiredSatisfied(data, Get(cfg, "REQUIRED_PARAMETERS"));
    assert stamp[2] != '.';
    assert forall i :: 0 <= i < |stamp| ==> stamp[i] != '.' by {
      forall i | 0 <= i < |stamp| ensures stamp[i] != '.' {
        if i < 3 { assert stamp[i] == "QR-"[i]; }
      }
    }
  }

  /** A filename containing `.` is refused once the folders are set. */
  lemma ValidateRejectsExtension(cfg: Table, data: Table, n: string, stamp: string, fs: Files)
    requires Truthy(Get(cfg, "OUT_FOLDER")) && Truthy(Get(cfg, "OUTPUT_FOLDER"))
    requires '.' in n
    ensures ValidateResult(cfg, data, Some(n), stamp, fs).error == Some(ValueError("Output file should not contain extension"))
  {
  }

  /** The timestamp fallback: a missing or empty filename becomes the
      timestamp name, and if that file already exists non-empty the
      collision loop fails with TypeError instead of finding a new name. */
  lemma ValidateTimestampFallback(cfg: Table, data: Table, name: Option<string>, stamp: string, fs: Files)
    requires Truthy(Get(cfg, "OUT_FOLDER")) && Truthy(Get(cfg, "OUTPUT_FOLDER"))
    requires name.None? || name.value == ""
    ensures ValidateResult(cfg, data, name, stamp, fs).filename == Some(stamp)
    ensures OutputPath(cfg, data, Some(stamp)).Ok? && ExistsNonEmpty(fs, OutputPath(cfg, data, Some(stamp)).value) ==>
      ValidateResult(cfg, data, name, stamp, fs).error == Some(TypeError)
  {
  }

  /** The filename is cleaned up only after a request that went all the way
      through; any exception leaves it set once validation has passed, so
      the next `request()` without a name reuses it. */
  lemma RequestCleanup(cfg: Table, data: Table, name: Option<string>, fileName: Option<string>,
                       stamp: string, fs: Files, response: Response)
    requires IsTimestampName(stamp)
    ensures var o := RequestResult(cfg, data, name, fileName, stamp, fs, response);
      (o.result.Ok? ==> o.filename == None) &&
      (o.result.Err? && o.posted.Some? ==> o.filename.Some? && o.filename.value != "")
  {
    var chosen := if fileName.Some? && fileName.value != "" then fileName else name;
    ValidatedName(cfg, data, chosen, stamp, fs);
  }

  /** Once validation passes, the filename it settled on is the caller's
      own non-empty name or else the timestamp name, never empty. */
  lemma ValidatedName(cfg: Table, data: Table, name: Option<string>, stamp: string, fs: Files)
    requires IsTimestampName(stamp)
    ensures var v := ValidateResult(cfg, data, name, stamp, fs);
      v.error.None? ==> v.filename == (if name.Some? && name.value != "" then name else Some(stamp))
    ensures var v := ValidateResult(cfg, data, name, stamp, fs);
      v.error.None? ==> v.filename.Some? && v.filename.value != ""
  {
  }

  /** Nothing is posted before validation passes; a request writes the
      response body verbatim to the output path only on status 200, and
      otherwise leaves the files as they were. */
  lemma RequestWritesOnlyOn200(cfg: Table, data: Table, name: Option<string>, fileName: Option<string>,
                               stamp: string, fs: Files, response: Response)
    ensures var o := RequestResult(cfg, data, name, fileName, stamp, fs, response);
      var chosen := if fileName.Some? && fileName.value != "" then fileName else name;
      var v := ValidateResult(cfg, data, chosen, stamp, fs);
      (o.posted.Some? ==> v.error.None? && QueryUrlFor(Get(cfg, "API_URI"), data) == Ok(o.posted.value)) &&
      (o.result.Ok? ==> (response.status == 200 && OutputPath(cfg, data, v.filename).Ok? &&
        o.result.value == fs[OutputPath(cfg, data, v.filename).value := response.text])) &&
      (o.posted.Some? && response.status != 200 ==> o.result == Err(ApiError(response.status, response.errors)))
  {
  }

  /** The client object. */
  class QrGenerator {
    var data: Table
    var config: Config
    var outputFilename: Option<string>

    /** The table holds exactly the 22 declared keys in their order, and the
        settings object is sound. */
    ghost predicate Valid()
      reads this, config
    {
      Keys(data) == ParameterKeys() && config.Valid()
    }

    /** `__init__` up to the keyword options: the default table, a fresh
        `Config`, no filename, and a truthy token stored as the access token
        through `set_option`. */
    constructor (token: Value)
      ensures Valid() && fresh(config)
      ensures data == WithToken(DefaultParameters(), token)
      ensures config.entries == DefaultSettings() && outputFilename == None
    {
      data := DefaultParameters();
      config := new Config();
      outputFilename := None;
      new;
      if Truthy(token) {
        assert ParameterKeys()[0] == "access-token";
        var err := SetOption("access-token", token);
      }
    }

    /** `QrGenerator(token, **kwargs)`: the token, then every keyword option
        through `set_option`, in order; an unknown option raises KeyError.
        Python binds keywords named `token` and `self` to the parameters of
        `__init__`, so neither reaches `kwargs`. */
    static method Create(token: Value, kwargs: Table) returns (r: Result<QrGenerator>)
      requires !HasKey(kwargs, "token") && !HasKey(kwargs, "self")
      ensures r.Ok? <==> ApplyOptions(WithToken(DefaultParameters(), token), kwargs).Ok?
      ensures r.Err? ==> r.error == KeyError
      ensures r.Ok? ==> (fresh(r.value) && fresh(r.value.config) && r.value.Valid() &&
        r.value.data == ApplyOptions(WithToken(DefaultParameters(), token), kwargs).value &&
        r.value.config.entries == DefaultSettings() && r.value.outputFilename == None)
    {
      var g := new QrGenerator(token);
      var i := 0;
      while i < |kwargs|
        invariant 0 <= i <= |kwargs|
        invariant fresh(g) && fresh(g.config) && g.Valid()
        invariant g.config.entries == DefaultSettings() && g.outputFilename == None
        invariant ApplyOptions(WithToken(DefaultParameters(), token), kwargs) == ApplyOptions(g.data, kwargs[i..])
      {
        assert kwargs[i..][1..] == kwargs[i + 1..];
        var err := g.SetOption(kwargs[i].0, kwargs[i].1);
        if err.Some? {
          return Err(KeyError);
        }
        i := i + 1;
      }
      r := Ok(g);
    }

    /** `set_option(key, value)`: KeyError for an undeclared key, the table
        unchanged; otherwise only that key's value changes. */
    method SetOption(key: string, value: Value) returns (err: Option<Error>)
      requires Valid()
      modifies this`data
      ensures Valid()
      ensures err == (if key in ParameterKeys() then None else Some(KeyError))
      ensures data == if err.None? then Set(old(data), key, value) else old(data)
      ensures err.None? ==> Get(data, key) == value
      ensures forall other :: other != key ==> Get(data, other) == Get(old(data), other)
    {
      if !HasKey(data, key) {
        return Some(KeyError);
      }
      DefaultParametersShape();
      SameKeysDistinct(data, DefaultParameters());
      SetKeepsKeys(data, key, value);
      GetSet(data, key, value, key);
      forall other | other != key ensures Get(Set(data, key, value), other) == Get(data, other) {
        GetSet(data, key, value, other);
      }
      data := Set(data, key, value);
      err := None;
    }

    /** `get_option(key, obj)`: the stored value, or None for an undeclared
        key; `obj` is never consulted. */
    function GetOption(key: string, obj: string): (v: Value)
      reads this, config
      requires Valid()
      ensures key !in ParameterKeys() ==> v == PyNone
      ensures forall i :: 0 <= i < |data| && data[i].0 == key ==> v == data[i].1
    {
      DefaultParametersShape();
      SameKeysDistinct(data, DefaultParameters());
      GetFound(data, key);
      Get(data, key)
    }

    /** `create_query_url`. */
    method CreateQueryUrl() returns (r: Result<Value>)
      requires Valid()
      ensures r == QueryUrlFor(config.Get("API_URI"), data)
    {
      r := BuildQueryUrl(config.Get("API_URI"), data);
    }

    /** `output_file_exists`: whether the output path holds a non-empty
        file; building the path can raise. */
    function OutputFileExists(fs: Files): (r: Result<bool>)
      reads this, config
      ensures r.Ok? <==> OutputPath(config.entries, data, outputFilename).Ok?
      ensures r.Ok? ==> (r.value <==> ExistsNonEmpty(fs, OutputPath(config.entries, data, outputFilename).value))
    {
      match OutputPath(config.entries, data, outputFilename)
      case Err(e) => Err(e)
      case Ok(path) => Ok(ExistsNonEmpty(fs, path))
    }

    /** `validate`, which may settle the filename on the timestamp. */
    method Validate(stamp: string, fs: Files) returns (err: Option<Error>)
      requires Valid()
      modifies this`outputFilename
      ensures Validation(outputFilename, err) == ValidateResult(config.entries, data, old(outputFilename), stamp, fs)
    {
      if !Truthy(config.Get("OUT_FOLDER")) || !Truthy(config.Get("OUTPUT_FOLDER")) {
        return Some(FileNotFoundError);
      }
      if outputFilename.Some? && '.' in outputFilename.value {
        return Some(ValueError("Output file should not contain extension"));
      }
      if outputFilename.None? || outputFilename.value == "" {
        outputFilename := Some(stamp);
        var present := OutputFileExists(fs);
        if present.Err? {
          return Some(present.error);
        }
        if present.value {
          // output_filename + '-' + i: a str plus an int
          return Some(TypeError);
        }
      }
      err := CheckRequired(data, config.Get("REQUIRED_PARAMETERS"));
    }

    /** `to_output_file(content)`. */
    function ToOutputFile(content: string, fs: Files): (r: Result<Files>)
      reads this, config
      ensures r.Ok? ==> (OutputPath(config.entries, data, outputFilename).Ok? &&
        r.value == fs[OutputPath(config.entries, data, outputFilename).value := content])
      ensures r == Err(FileExistsError) <==>
        OutputPath(config.entries, data, outputFilename).Ok? &&
        ExistsNonEmpty(fs, OutputPath(config.entries, data, outputFilename).value) &&
        !Truthy(Get(config.entries, "FORCE_OVERWRITE"))
    {
      WriteOutput(config.entries, data, outputFilename, content, fs)
    }

    /** `handle_response(response)`. */
    function HandleResponse(response: Response, fs: Files): (r: Result<Files>)
      reads this, config
      ensures r.Ok? ==> response.status == 200
      ensures response.status != 200 ==> r == Err(ApiError(response.status, response.errors))
    {
      Respond(config.entries, data, outputFilename, response, fs)
    }

    /** `cleanup`: forget the filename. */
    method Cleanup()
      modifies this`outputFilename
      ensures outputFilename == None
    {
      outputFilename := None;
    }

    /** `request(file_name)` against the given clock reading, filesystem and
        API response. */
    method Request(fileName: Option<string>, stamp: string, fs: Files, response: Response)
      returns (posted: Option<Value>, result: Result<Files>)
      requires Valid()
      modifies this`outputFilename
      ensures RequestOutcome(outputFilename, posted, result) ==
        RequestResult(config.entries, data, old(outputFilename), fileName, stamp, fs, response)
    {
      posted := None;
      if fileName.Some? && fileName.value != "" {
        outputFilename := fileName;
      }
      ghost var v := ValidateResult(config.entries, data, outputFilename, stamp, fs);
      var err := Validate(stamp, fs);
      if err.Some? {
        return None, Err(err.value);
      }
      var url := CreateQueryUrl();
      if url.Err? {
        return None, Err(url.error);
      }
      posted := Some(url.value);
      result := HandleResponse(response, fs);
      assert result == Respond(config.entries, data, v.filename, response, fs);
      if result.Ok? {
        Cleanup();
      }
    }
  }
}
