/** The earlier `QrGenerator` of main.py: the same parameter table and
    request sequence as the packaged client, with a plain five-key settings
    dict, a `.env` token read from the environment, no timestamp filename
    and an environment lookup on a 401 response. */
module Legacy {
  import opened PyValues
  import opened OrderedDict
  import opened ClientLogic
  import opened Configuration

  type Environment = map<string, string>

  /** The settings dict main.py builds: no VERBOSE, output under `out/kfc`. */
  function LegacySettings(): Table {
    [ ("API_URI", PyStr(ApiUri)),
      ("FORCE_OVERWRITE", PyBool(false)),
      ("REQUIRED_PARAMETERS", DefaultRequired()),
      ("OUT_FOLDER", PyStr("out")),
      ("OUTPUT_FOLDER", PyStr("kfc")) ]
  }

  function LegacySettingKeys(): seq<string> {
    Keys(LegacySettings())
  }

  /** The token handling of `__init__`: a truthy `.env` is replaced by the
      environment's ACCESS_TOKEN (KeyError when it is unset), any other
      truthy token is stored as it is, a falsy one is ignored. */
  function InitialData(token: Value, env: Environment): Result<Table> {
    if !Truthy(token) then Ok(DefaultParameters())
    else if token == PyStr(".env") then
      if "ACCESS_TOKEN" in env then Ok(Set(DefaultParameters(), "access-token", PyStr(env["ACCESS_TOKEN"])))
      else Err(KeyError)
    else Ok(Set(DefaultParameters(), "access-token", token))
  }

  /** `handle_api_error`: as in the packaged client, except that a 401 first
      reads ACCESS_TOKEN from the environment, which raises KeyError when it
      is unset. */
  function LegacyApiError(status: int, errors: seq<FieldError>, env: Environment): Error {
    if status == 401 && "ACCESS_TOKEN" !in env then KeyError
    else ApiError(status, errors)
  }

  /** `validate`: empty folders, then a missing or empty filename, both as
      FileNotFoundError, then the required parameters; the filename is never
      changed. */
  function LegacyValidate(cfg: Table, data: Table, name: Option<string>): Option<Error> {
    if !Truthy(Get(cfg, "OUT_FOLDER")) || !Truthy(Get(cfg, "OUTPUT_FOLDER")) then Some(FileNotFoundError)
    else if name.None? || name.value == "" then Some(FileNotFoundError)
    else FirstMissing(data, Get(cfg, "REQUIRED_PARAMETERS"))
  }

  /** `handle_response` followed by `to_output_file`. */
  function LegacyRespond(cfg: Table, data: Table, name: Option<string>, response: Response,
                         fs: Files, env: Environment): Result<Files> {
    if response.status != 200 then Err(LegacyApiError(response.status, response.errors, env))
    else WriteOutput(cfg, data, name, response.text, fs)
  }

  /** `request(file_name)`: adopt a truthy file name, validate, post, handle
      the response, and clean the filename up only after all of that. */
  function LegacyRequestResult(cfg: Table, data: Table, name: Option<string>, fileName: Option<string>,
                               fs: Files, response: Response, env: Environment): RequestOutcome
  {
    var chosen := if fileName.Some? && fileName.value != "" then fileName else name;
    match LegacyValidate(cfg, data, chosen)
    case Some(e) => RequestOutcome(chosen, None, Err(e))
    case None =>
      match QueryUrlFor(Get(cfg, "API_URI"), data)
      case Err(e) => RequestOutcome(chosen, None, Err(e))
      case Ok(url) =>
        match LegacyRespond(cfg, data, chosen, response, fs, env)
        case Err(e) => RequestOutcome(chosen, Some(url), Err(e))
        case Ok(written) => RequestOutcome(None, Some(url), Ok(written))
  }

  /** A `.env` token succeeds exactly when ACCESS_TOKEN is set, and then the
      access token is its value; any other truthy token is kept verbatim. */
  lemma InitialDataToken(token: Value, env: Environment)
    ensures token == PyStr(".env") ==>
      (InitialData(token, env).Ok? <==> "ACCESS_TOKEN" in env)
    ensures token == PyStr(".env") && "ACCESS_TOKEN" in env ==>
      Get(InitialData(token, env).value, "access-token") == PyStr(env["ACCESS_TOKEN"])
    ensures Truthy(token) && token != PyStr(".env") ==>
      Get(InitialData(token, env).value, "access-token") == token
    ensures InitialData(token, env).Ok? ==> Keys(InitialData(token, env).value) == ParameterKeys()
  {
    SetAccessToken(token);
    if "ACCESS_TOKEN" in env {
      SetAccessToken(PyStr(env["ACCESS_TOKEN"]));
    }
  }

  /** The two clients part ways on `.env`: the packaged one stores the text
      `.env` itself as the access token, this one stores the environment's
      token. */
  lemma EnvTokenDiffers(env: Environment)
    requires "ACCESS_TOKEN" in env && env["ACCESS_TOKEN"] != ".env"
    ensures InitialData(PyStr(".env"), env).Ok?
    ensures Get(InitialData(PyStr(".env"), env).value, "access-token") == PyStr(env["ACCESS_TOKEN"])
    ensures Get(WithToken(DefaultParameters(), PyStr(".env")), "access-token") == PyStr(".env")
    ensures InitialData(PyStr(".env"), env).value != WithToken(DefaultParameters(), PyStr(".env"))
  {
    InitialDataToken(PyStr(".env"), env);
    SetAccessToken(PyStr(".env"));
  }

  /** A 401 depends on the environment; every other status is handled as by
      the packaged client. */
  lemma LegacyApiErrorSpec(status: int, errors: seq<FieldError>, env: Environment)
    ensures status == 401 ==>
      LegacyApiError(status, errors, env) == if "ACCESS_TOKEN" in env then InvalidCredentialsError else KeyError
    ensures status != 401 ==> LegacyApiError(status, errors, env) == ApiError(status, errors)
  {
  }

  /** Validation passes exactly when the folders and the filename are
      non-empty and every listed required parameter is truthy; unlike the
      packaged client, a missing filename is an error, not a timestamp. */
  lemma LegacyValidatePasses(cfg: Table, data: Table, name: Option<string>)
    requires Get(cfg, "REQUIRED_PARAMETERS").PyList? || Get(cfg, "REQUIRED_PARAMETERS").PyStr?
    ensures LegacyValidate(cfg, data, name) == None <==>
      Truthy(Get(cfg, "OUT_FOLDER")) && Truthy(Get(cfg, "OUTPUT_FOLDER")) &&
      name.Some? && name.value != "" &&
      forall i :: 0 <= i < |data| && Listed(Get(cfg, "REQUIRED_PARAMETERS"), data[i].0) ==> Truthy(data[i].1)
  {
    RequiredSatisfied(data, Get(cfg, "REQUIRED_PARAMETERS"));
  }

  /** A request leaves the filename set after any failure and clears it
      after success; nothing is written unless the status is 200. */
  lemma LegacyRequestCleanup(cfg: Table, data: Table, name: Option<string>, fileName: Option<string>,
                             fs: Files, response: Response, env: Environment)
    ensures var o := LegacyRequestResult(cfg, data, name, fileName, fs, response, env);
      (o.result.Ok? ==> o.filename == None && response.status == 200) &&
      (o.result.Err? && o.posted.Some? ==> o.filename.Some? && o.filename.value != "") &&
      (o.posted.Some? && response.status != 200 ==>
        o.result == Err(LegacyApiError(response.status, response.errors, env)))
  {
  }

  /** The main.py client object. */
  class QrGenerator {
    var data: Table
    var config: Table
    var outputFilename: Option<string>

    /** Both dicts hold exactly their declared keys, in order. */
    ghost predicate Valid()
      reads this
    {
      Keys(data) == ParameterKeys() && Keys(config) == LegacySettingKeys()
    }

    /** The dicts as `__init__` builds them before the token is looked at. */
    constructor ()
      ensures Valid()
      ensures data == DefaultParameters() && config == LegacySettings() && outputFilename == None
    {
      data := DefaultParameters();
      config := LegacySettings();
      outputFilename := None;
    }

    /** `QrGenerator(token, **kwargs)` with the process environment `env`:
        the token first, then the keyword options through `set_option`.
        Keywords named `token` and `self` bind to the parameters of
        `__init__`, so neither reaches `kwargs`. */
    static method Create(token: Value, kwargs: Table, env: Environment) returns (r: Result<QrGenerator>)
      requires !HasKey(kwargs, "token") && !HasKey(kwargs, "self")
      ensures InitialData(token, env).Err? ==> r == Err(KeyError)
      ensures InitialData(token, env).Ok? ==>
        (r.Ok? <==> ApplyOptions(InitialData(token, env).value, kwargs).Ok?)
      ensures r.Err? ==> r.error == KeyError
      ensures r.Ok? ==> (fresh(r.value) && r.value.Valid() &&
        r.value.data == ApplyOptions(InitialData(token, env).value, kwargs).value &&
        r.value.config == LegacySettings() && r.value.outputFilename == None)
    {
      var g := new QrGenerator();
      var init := InitialData(token, env);
      if init.Err? {
        return Err(KeyError);
      }
      InitialDataToken(token, env);
      g.data := init.value;
      var i := 0;
      while i < |kwargs|
        invariant 0 <= i <= |kwargs|
        invariant fresh(g) && g.Valid()
        invariant g.config == LegacySettings() && g.outputFilename == None
        invariant ApplyOptions(InitialData(token, env).value, kwargs) == ApplyOptions(g.data, kwargs[i..])
      {
        assert kwargs[i..][1..] == kwargs[i + 1..];
        var err := g.SetOption(kwargs[i].0, kwargs[i].1);
        if err.Some? {
          return Err(KeyError);
        }
        i := i + 1;
      }
      r := Ok(g);
    }

    /** `set_option(key, value)`: KeyError for an undeclared key, the dict
        unchanged; otherwise only that key's value changes. */
    method SetOption(key: string, value: Value) returns (err: Option<Error>)
      requires Valid()
      modifies this`data
      ensures Valid()
      ensures err == (if key in ParameterKeys() then None else Some(KeyError))
      ensures data == if err.None? then Set(old(data), key, value) else old(data)
      ensures err.None? ==> Get(data, key) == value
      ensures forall other :: other != key ==> Get(data, other) == Get(old(data), other)
    {
      if !HasKey(data, key) {
        return Some(KeyError);
      }
      DefaultParametersShape();
      SameKeysDistinct(data, DefaultParameters());
      SetKeepsKeys(data, key, value);
      GetSet(data, key, value, key);
      forall other | other != key ensures Get(Set(data, key, value), other) == Get(data, other) {
        GetSet(data, key, value, other);
      }
      data := Set(data, key, value);
      err := None;
    }

    /** `get_option(key)`: the stored value, or None for an undeclared key. */
    function GetOption(key: string): (v: Value)
      reads this
      requires Valid()
      ensures key !in ParameterKeys() ==> v == PyNone
      ensures forall i :: 0 <= i < |data| && data[i].0 == key ==> v == data[i].1
    {
      DefaultParametersShape();
      SameKeysDistinct(data, DefaultParameters());
      GetFound(data, key);
      Get(data, key)
    }

    /** `create_query_url`. */
    method CreateQueryUrl() returns (r: Result<Value>)
      ensures r == QueryUrlFor(Get(config, "API_URI"), data)
    {
      r := BuildQueryUrl(Get(config, "API_URI"), data);
    }

    /** `validate`, which reads but never changes the object. */
    method Validate() returns (err: Option<Error>)
      ensures err == LegacyValidate(config, data, outputFilename)
    {
      if !Truthy(Get(config, "OUT_FOLDER")) || !Truthy(Get(config, "OUTPUT_FOLDER")) {
        return Some(FileNotFoundError);
      }
      if outputFilename.None? || outputFilename.value == "" {
        return Some(FileNotFoundError);
      }
      err := CheckRequired(data, Get(config, "REQUIRED_PARAMETERS"));
    }

    /** `handle_response` and `to_output_file`. */
    function HandleResponse(response: Response, fs: Files, env: Environment): (r: Result<Files>)
      reads this
      ensures r.Ok? ==> (response.status == 200 && OutputPath(config, data, outputFilename).Ok? &&
        r.value == fs[OutputPath(config, data, outputFilename).value := response.text])
      ensures response.status != 200 ==> r == Err(LegacyApiError(response.status, response.errors, env))
    {
      LegacyRespond(config, data, outputFilename, response, fs, env)
    }

    /** `cleanup`. */
    method Cleanup()
      modifies this`outputFilename
      ensures outputFilename == None
    {
      outputFilename := None;
    }

    /** `request(file_name)` against the given filesystem, API response and
        environment. */
    method Request(fileName: Option<string>, fs: Files, response: Response, env: Environment)
      returns (posted: Option<Value>, result: Result<Files>)
      modifies this`outputFilename
      ensures RequestOutcome(outputFilename, posted, result) ==
        LegacyRequestResult(config, data, old(outputFilename), fileName, fs, response, env)
    {
      posted := None;
      if fileName.Some? && fileName.value != "" {
        outputFilename := fileName;
      }
      var err := Validate();
      if err.Some? {
        return None, Err(err.value);
      }
      var url := CreateQueryUrl();
      if url.Err? {
        return None, Err(url.error);
      }
      posted := Some(url.value);
      result := HandleResponse(response, fs, env);
      assert result == LegacyRespond(config, data, outputFilename, response, fs, env);
      if result.Ok? {
        Cleanup();
      }
    }
  }
}
