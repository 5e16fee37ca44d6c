/** The logic both `QrGenerator` classes share: the parameter table and its
    defaults, the query URL, the required-parameter check, the output path
    with its overwrite rule, and the dispatch from HTTP status to exception.
    The two classes hold the same copies of this code, so it is stated once. */
module ClientLogic {
  import opened PyValues
  import opened PyStrings
  import opened OrderedDict

  /** The filesystem as the client sees it: the content stored under each path. */
  type Files = map<string, string>

  /** One entry of the `errors` list of a 422 response. */
  datatype FieldError = FieldError(field: string, message: string)

  /** The API's answer: status code, body text, and for a 422 the already
      decoded `errors` list. */
  datatype Response = Response(status: int, text: string, errors: seq<FieldError>)

  // ---------------------------------------------------------------------
  // The parameter table

  /** The 22 rendering parameters with their defaults, in declaration order. */
  function DefaultParameters(): Table {
    [ ("access-token", PyNone),
      ("qr_code_text", PyStr("SPERZIEBONEN")),
      ("image_format", PyStr("SVG")),
      ("image_width", PyInt(500)),
      ("download", PyInt(0)),
      ("foreground_color", PyStr("#000000")),
      ("background_color", PyStr("#FFFFFF")),
      ("marker_left_inner_color", PyStr("#000000")),
      ("marker_left_outer_color", PyStr("#000000")),
      ("marker_right_inner_color", PyStr("#000000")),
      ("marker_right_outer_color", PyStr("#000000")),
      ("marker_bottom_inner_color", PyStr("#000000")),
      ("marker_bottom_outer_color", PyStr("#000000")),
      ("marker_left_template", PyStr("version1")),
      ("marker_right_template", PyStr("version1")),
      ("marker_bottom_template", PyStr("version1")),
      ("qr_code_logo", PyStr("no-logo")),
      ("frame_color", PyStr("#000000")),
      ("frame_text", PyNone),
      ("frame_text_color", PyStr("#ffffff")),
      ("frame_icon_name", PyStr("app")),
      ("frame_name", PyStr("no-frame")) ]
  }

  function ParameterKeys(): seq<string> {
    Keys(DefaultParameters())
  }

  /** The default table holds 22 distinct keys, and exactly three of its
      defaults are falsy: the access token, `download` and `frame_text`. */
  lemma DefaultParametersShape()
    ensures |DefaultParameters()| == 22 && DistinctKeys(DefaultParameters())
    ensures forall i :: 0 <= i < 22 ==>
      (!Truthy(DefaultParameters()[i].1) <==> DefaultParameters()[i].0 in ["access-token", "download", "frame_text"])
  {
    var t := DefaultParameters();
    forall i, j | 0 <= i < j < |t| ensures t[i].0 != t[j].0 {
      if j < 11 {
        KeysDifferBelow(i, j);
      } else if 11 <= i {
        KeysDifferAbove(i, j);
      } else {
        KeysDifferAcross(i, j);
      }
    }
  }

  /** The distinctness of the keys, in three blocks of index pairs. */
  lemma KeysDifferBelow(i: int, j: int)
    requires 0 <= i < j < 11
    ensures DefaultParameters()[i].0 != DefaultParameters()[j].0
  {
  }

  lemma KeysDifferAbove(i: int, j: int)
    requires 11 <= i < j < 22
    ensures DefaultParameters()[i].0 != DefaultParameters()[j].0
  {
  }

  lemma KeysDifferAcross(i: int, j: int)
    requires 0 <= i < 11 <= j < 22
    ensures DefaultParameters()[i].0 != DefaultParameters()[j].0
  {
  }

  /** A truthy token is stored verbatim as the access token; a falsy one
      leaves the table alone. */
  function WithToken(t: Table, token: Value): Table {
    if Truthy(token) then Set(t, "access-token", token) else t
  }

  /** Storing an access token in the default table keeps its keys, and
      looking the token up gives it back. */
  lemma SetAccessToken(v: Value)
    ensures Keys(Set(DefaultParameters(), "access-token", v)) == ParameterKeys()
    ensures Get(Set(DefaultParameters(), "access-token", v), "access-token") == v
  {
    DefaultParametersShape();
    assert Keys(DefaultParameters())[0] == "access-token";
    SetKeepsKeys(DefaultParameters(), "access-token", v);
    GetSet(DefaultParameters(), "access-token", v, "access-token");
  }

  /** `for key, value in kwargs.items(): self.set_option(key, value)`:
      the first unknown key raises KeyError. */
  function ApplyOptions(t: Table, kwargs: Table): Result<Table>
    decreases |kwargs|
  {
    if kwargs == [] then Ok(t)
    else if !HasKey(t, kwargs[0].0) then Err(KeyError)
    else ApplyOptions(Set(t, kwargs[0].0, kwargs[0].1), kwargs[1..])
  }

  /** Applying keyword options succeeds exactly when every option names a
      declared key; it then keeps the key sequence, gives every named key its
      option value and leaves every other key alone. */
  lemma {:induction false} ApplyOptionsSpec(t: Table, kwargs: Table, k: string)
    requires DistinctKeys(t) && DistinctKeys(kwargs)
    ensures ApplyOptions(t, kwargs).Ok? <==> forall i :: 0 <= i < |kwargs| ==> HasKey(t, kwargs[i].0)
    ensures ApplyOptions(t, kwargs).Err? ==> ApplyOptions(t, kwargs).error == KeyError
    ensures ApplyOptions(t, kwargs).Ok? ==>
      var r := ApplyOptions(t, kwargs).value;
      Keys(r) == Keys(t) && DistinctKeys(r) &&
      Get(r, k) == (if HasKey(kwargs, k) then Get(kwargs, k) else Get(t, k))
    decreases |kwargs|
  {
    if kwargs != [] {
      var (k0, v0) := kwargs[0];
      KeysCons(kwargs[0], kwargs[1..]);
      assert kwargs == [kwargs[0]] + kwargs[1..];
      if HasKey(t, k0) {
        var t' := Set(t, k0, v0);
        SetKeepsKeys(t, k0, v0);
        assert forall x :: HasKey(t', x) <==> HasKey(t, x);
        ApplyOptionsSpec(t', kwargs[1..], k);
        GetSet(t, k0, v0, k);
        assert !HasKey(kwargs[1..], k0) by {
          forall i | 0 <= i < |kwargs[1..]| ensures Keys(kwargs[1..])[i] != k0 {
            assert kwargs[i + 1].0 != kwargs[0].0;
          }
        }
      } else {
        assert !(forall i :: 0 <= i < |kwargs| ==> HasKey(t, kwargs[i].0));
      }
    }
  }

  // ---------------------------------------------------------------------
  // The query URL

  /** `str(key) + "=" + str(value)`. */
  function Pair(key: string, v: Value): string {
    key + "=" + ToStr(v)
  }

  /** The `key=value` pairs of the truthy entries, in declaration order. */
  function Pairs(data: Table): seq<string>
    decreases |data|
  {
    if data == [] then []
    else
      var init := Pairs(data[..|data| - 1]);
      var (k, v) := data[|data| - 1];
      if Truthy(v) then init + [Pair(k, v)] else init
  }

  /** The URL the request is posted to: the API prefix, then the pairs
      joined by `&`. */
  function QueryUrl(prefix: string, data: Table): string {
    prefix + Join("&", Pairs(data))
  }

  /** What `create_query_url` yields for whatever value `API_URI` holds: a
      prefix that is not a string makes the first concatenation raise
      TypeError, or comes back unchanged when nothing is appended to it. */
  function QueryUrlFor(apiUri: Value, data: Table): Result<Value> {
    match apiUri
    case PyStr(p) => Ok(PyStr(QueryUrl(p, data)))
    case _ => if Pairs(data) == [] then Ok(apiUri) else Err(TypeError)
  }

  /** `create_query_url`: walk the table, appending each truthy entry, with an
      `&` in front of every entry but the first one appended. */
  method BuildQueryUrl(apiUri: Value, data: Table) returns (r: Result<Value>)
    ensures r == QueryUrlFor(apiUri, data)
  {
    var url := apiUri;
    var i := 0;
    UrlStart(apiUri, data);
    while i < |data|
      invariant 0 <= i <= |data|
      invariant UrlSoFar(apiUri, data, i, url)
    {
      var (key, value) := data[i];
      UrlStep(apiUri, data, i, url);
      if Truthy(value) {
        if !url.PyStr? {
          return Err(TypeError);
        }
        if url == apiUri {
          url := PyStr(url.s + key + "=" + ToStr(value));
        } else {
          url := PyStr(url.s + "&" + key + "=" + ToStr(value));
        }
      }
      i := i + 1;
    }
    UrlEnd(apiUri, data, url);
    r := Ok(url);
  }

  /** The loop invariant of `create_query_url` after `i` entries: with a
      string prefix, the URL so far is the prefix and the pairs of those
      entries, and it still equals the prefix exactly when no pair was
      added; with any other prefix, nothing has been added yet. */
  ghost predicate UrlSoFar(apiUri: Value, data: Table, i: int, url: Value)
    requires 0 <= i <= |data|
  {
    && (apiUri.PyStr? ==>
          url == PyStr(QueryUrl(apiUri.s, data[..i])) && (url == apiUri <==> Pairs(data[..i]) == []))
    && (!apiUri.PyStr? ==> url == apiUri && Pairs(data[..i]) == [])
  }

  /** The invariant holds before the loop. */
  lemma UrlStart(apiUri: Value, data: Table)
    ensures UrlSoFar(apiUri, data, 0, apiUri)
  {
    assert data[..0] == [];
  }

  /** One turn of the loop keeps the invariant, and a truthy entry met with a
      non-string prefix is exactly the TypeError case. */
  lemma UrlStep(apiUri: Value, data: Table, i: int, url: Value)
    requires 0 <= i < |data| && UrlSoFar(apiUri, data, i, url)
    ensures var k, v := data[i].0, data[i].1;
      && (!Truthy(v) ==> UrlSoFar(apiUri, data, i + 1, url))
      && (Truthy(v) && !url.PyStr? ==> QueryUrlFor(apiUri, data) == Err(TypeError))
      && (Truthy(v) && url.PyStr? && url == apiUri ==>
            UrlSoFar(apiUri, data, i + 1, PyStr(url.s + k + "=" + ToStr(v))))
      && (Truthy(v) && url.PyStr? && url != apiUri ==>
            UrlSoFar(apiUri, data, i + 1, PyStr(url.s + "&" + k + "=" + ToStr(v))))
  {
    var k, v := data[i].0, data[i].1;
    var prefix := if apiUri.PyStr? then apiUri.s else "";
    QueryStep(prefix, data, i);
    if Truthy(v) {
      assert Pair(k, v) == k + "=" + ToStr(v);
      if !url.PyStr? {
        PairsGrow(data, i + 1);
      } else if url == apiUri {
        assert url.s + k + "=" + ToStr(v) == QueryUrl(prefix, data[..i]) + Pair(k, v);
      } else {
        assert url.s + "&" + k + "=" + ToStr(v) == QueryUrl(prefix, data[..i]) + "&" + Pair(k, v);
      }
    }
  }

  /** After the last entry the URL is the specified one. */
  lemma UrlEnd(apiUri: Value, data: Table, url: Value)
    requires UrlSoFar(apiUri, data, |data|, url)
    ensures Ok(url) == QueryUrlFor(apiUri, data)
  {
    assert data[..|data|] == data;
  }

  /** The pairs of a prefix of the table are never more than those of the
      whole table. */
  lemma {:induction false} PairsGrow(data: Table, n: int)
    requires 0 <= n <= |data|
    ensures |Pairs(data[..n])| <= |Pairs(data)|
    decreases |data| - n
  {
    if n < |data| {
      assert data[..n + 1][..n] == data[..n];
      PairsGrow(data, n + 1);
    } else {
      assert data[..n] == data;
    }
  }

  /** One turn of the loop: a truthy entry adds its pair, after an `&`
      unless it is the first, and a falsy one adds nothing; once a pair is
      added the URL is longer than the prefix. */
  lemma QueryStep(prefix: string, data: Table, i: int)
    requires 0 <= i < |data|
    ensures var before, k, v := data[..i], data[i].0, data[i].1;
      && Pairs(data[..i + 1]) == (if Truthy(v) then Pairs(before) + [Pair(k, v)] else Pairs(before))
      && QueryUrl(prefix, data[..i + 1]) ==
           (if !Truthy(v) then QueryUrl(prefix, before)
            else if Pairs(before) == [] then QueryUrl(prefix, before) + Pair(k, v)
            else QueryUrl(prefix, before) + "&" + Pair(k, v))
    ensures Pairs(data[..i + 1]) != [] ==> |QueryUrl(prefix, data[..i + 1])| > |prefix|
  {
    assert data[..i + 1][..i] == data[..i];
    assert data[..i + 1][i] == data[i];
    if Truthy(data[i].1) && Pairs(data[..i]) != [] {
      JoinSnoc("&", Pairs(data[..i]), Pair(data[i].0, data[i].1));
    }
    PairsNonEmptyJoin(data[..i + 1]);
  }

  /** A non-empty list of pairs joins into a non-empty string. */
  lemma PairsNonEmptyJoin(data: Table)
    ensures Pairs(data) != [] ==> |Join("&", Pairs(data))| > 0
  {
    var ps := Pairs(data);
    if ps != [] {
      PairsMembership(data, ps[0]);
      JoinHead("&", ps);
    }
  }

  /** A join starts with the first character of its first part. */
  lemma {:induction false} JoinHead(sep: string, parts: seq<string>)
    requires |parts| >= 1 && parts[0] != ""
    ensures |Join(sep, parts)| >= 1 && Join(sep, parts)[0] == parts[0][0]
    decreases |parts|
  {
    if |parts| > 1 {
      JoinHead(sep, parts[..|parts| - 1]);
    }
  }

  /** The pairs are exactly the truthy entries rendered as `key=value`. */
  lemma {:induction false} PairsMembership(data: Table, p: string)
    ensures p in Pairs(data) <==> exists i :: 0 <= i < |data| && Truthy(data[i].1) && p == Pair(data[i].0, data[i].1)
    decreases |data|
  {
    if data != [] {
      var init := data[..|data| - 1];
      PairsMembership(init, p);
      if exists i :: 0 <= i < |data| && Truthy(data[i].1) && p == Pair(data[i].0, data[i].1) {
        var i :| 0 <= i < |data| && Truthy(data[i].1) && p == Pair(data[i].0, data[i].1);
        if i < |data| - 1 {
          assert init[i] == data[i];
        }
      }
      forall i | 0 <= i < |init| ensures init[i] == data[i] { }
    }
  }

  /** With no truthy entry, the URL is the API prefix alone; with one, the
      pairs are non-empty. */
  lemma {:induction false} PairsEmpty(data: Table)
    ensures Pairs(data) == [] <==> forall i :: 0 <= i < |data| ==> !Truthy(data[i].1)
  {
    if Pairs(data) == [] {
      forall i | 0 <= i < |data| ensures !Truthy(data[i].1) {
        PairsMembership(data, Pair(data[i].0, data[i].1));
      }
    } else {
      PairsMembership(data, Pairs(data)[0]);
    }
  }

  /** When no value is truthy, the query URL is exactly the API prefix. */
  lemma QueryUrlWithoutValues(prefix: string, data: Table)
    requires forall i :: 0 <= i < |data| ==> !Truthy(data[i].1)
    ensures QueryUrl(prefix, data) == prefix
  {
    PairsEmpty(data);
  }

  /** The query part never starts with `&`: its first character is the first
      character of the first appended key, or `=` for an empty key. */
  lemma QueryNoLeadingAmpersand(prefix: string, data: Table)
    requires forall i :: 0 <= i < |data| && data[i].0 != "" ==> data[i].0[0] != '&'
    requires exists i :: 0 <= i < |data| && Truthy(data[i].1)
    ensures |QueryUrl(prefix, data)| > |prefix|
    ensures QueryUrl(prefix, data)[|prefix|] != '&'
  {
    PairsEmpty(data);
    var ps := Pairs(data);
    PairsMembership(data, ps[0]);
    JoinHead("&", ps);
    var i :| 0 <= i < |data| && Truthy(data[i].1) && ps[0] == Pair(data[i].0, data[i].1);
    assert ps[0][0] == (if data[i].0 == "" then '=' else data[i].0[0]);
  }

  /** Splitting the query part at `&` gives back the pairs, one per truthy
      entry, as long as no key or value text contains `&`. */
  lemma QueryDecodes(prefix: string, data: Table)
    requires forall i :: 0 <= i < |data| && Truthy(data[i].1) ==> '&' !in Pair(data[i].0, data[i].1)
    requires exists i :: 0 <= i < |data| && Truthy(data[i].1)
    ensures QueryUrl(prefix, data)[..|prefix|] == prefix
    ensures Split(QueryUrl(prefix, data)[|prefix|..], '&') == Pairs(data)
  {
    PairsEmpty(data);
    var ps := Pairs(data);
    forall j | 0 <= j < |ps| ensures '&' !in ps[j] {
      PairsMembership(data, ps[j]);
    }
    JoinSplit(ps, '&');
    assert QueryUrl(prefix, data)[|prefix|..] == Join("&", ps);
  }

  /** `s` begins with `p`. */
  predicate StartsWith(s: string, p: string) {
    |p| <= |s| && s[..|p|] == p
  }

  /** A pair for one key never starts with `key=` of another key, when
      neither key contains `=`. */
  lemma OtherKeyPrefix(k: string, kj: string, v: string)
    requires '=' !in k && '=' !in kj && k != kj
    ensures !StartsWith(kj + "=" + v, k + "=")
  {
    var p, q := kj + "=" + v, k + "=";
    if |q| <= |p| {
      if |kj| < |k| {
        assert k[|kj|] in k;
        assert p[..|q|][|kj|] != q[|kj|];
      } else if |kj| > |k| {
        assert kj[|k|] in kj;
        assert p[..|q|][|k|] != q[|k|];
      } else {
        assert p[..|q|][..|k|] == kj && q[..|k|] == k;
      }
    }
  }

  /** A parameter holding a falsy value never shows up in the query: no
      pair starts with its `key=`. */
  lemma FalsyOmitted(data: Table, i: int)
    requires DistinctKeys(data)
    requires forall j :: 0 <= j < |data| ==> '=' !in data[j].0
    requires 0 <= i < |data| && !Truthy(data[i].1)
    ensures forall p :: p in Pairs(data) ==> !StartsWith(p, data[i].0 + "=")
  {
    var k := data[i].0;
    forall p | p in Pairs(data) ensures !StartsWith(p, k + "=") {
      PairsMembership(data, p);
      var j :| 0 <= j < |data| && Truthy(data[j].1) && p == Pair(data[j].0, data[j].1);
      assert data[j].0 != k by {
        if i < j { assert data[i].0 != data[j].0; }
        if j < i { assert data[j].0 != data[i].0; }
      }
      OtherKeyPrefix(k, data[j].0, ToStr(data[j].1));
    }
  }

  // ---------------------------------------------------------------------
  // The required-parameter check

  /** REQUIRED_PARAMETERS as both settings tables ship it. */
  function DefaultRequired(): Value {
    PyList([PyStr("access-token"), PyStr("qr_code_text")])
  }

  /** The loop at the end of `validate`: the first entry, in table order,
      whose key `in REQUIRED_PARAMETERS` and whose value is falsy raises
      MissingRequiredParameterError naming it; a REQUIRED_PARAMETERS that is
      neither list nor string makes the first `in` raise TypeError. */
  function FirstMissing(data: Table, required: Value): Option<Error>
    decreases |data|
  {
    if data == [] then None
    else match Contains(required, data[0].0)
      case Err(e) => Some(e)
      case Ok(listed) =>
        if listed && !Truthy(data[0].1) then Some(MissingRequiredParameterError(data[0].0))
        else FirstMissing(data[1..], required)
  }

  /** The loop itself, entry by entry. */
  method CheckRequired(data: Table, required: Value) returns (err: Option<Error>)
    ensures err == FirstMissing(data, required)
  {
    var i := 0;
    while i < |data|
      invariant 0 <= i <= |data|
      invariant FirstMissing(data, required) == FirstMissing(data[i..], required)
    {
      assert data[i..][1..] == data[i + 1..];
      var (key, value) := data[i];
      var listed := Contains(required, key);
      if listed.Err? {
        return Some(listed.error);
      }
      if listed.value && !Truthy(value) {
        return Some(MissingRequiredParameterError(key));
      }
      i := i + 1;
    }
    err := None;
  }

  /** `key in REQUIRED_PARAMETERS` holds. */
  predicate Listed(required: Value, key: string) {
    Contains(required, key) == Ok(true)
  }

  /** With a list or string of required names, the check passes exactly when
      every listed key holds a truthy value. */
  lemma {:induction false} RequiredSatisfied(data: Table, required: Value)
    requires required.PyList? || required.PyStr?
    ensures FirstMissing(data, required) == None <==>
      forall i :: 0 <= i < |data| && Listed(required, data[i].0) ==> Truthy(data[i].1)
    decreases |data|
  {
    if data != [] {
      RequiredSatisfied(data[1..], required);
      assert forall i :: 1 <= i < |data| ==> data[1..][i - 1] == data[i];
    }
  }

  /** The check names the earliest offending key in table order. */
  lemma {:induction false} ReportsEarliest(data: Table, required: Value, i: int)
    requires required.PyList? || required.PyStr?
    requires 0 <= i < |data| && Listed(required, data[i].0) && !Truthy(data[i].1)
    requires forall j :: 0 <= j < i ==> !(Listed(required, data[j].0) && !Truthy(data[j].1))
    ensures FirstMissing(data, required) == Some(MissingRequiredParameterError(data[i].0))
    decreases i
  {
    if i > 0 {
      ReportsEarliest(data[1..], required, i - 1);
    }
  }

  /** With the shipped REQUIRED_PARAMETERS and the declared table order, a
      missing access token is reported before a missing QR text, the text is
      reported when only it is missing, and the check passes when both are
      set. */
  lemma DefaultRequiredOrder(data: Table)
    requires Keys(data) == ParameterKeys()
    ensures !Truthy(Get(data, "access-token")) ==>
      FirstMissing(data, DefaultRequired()) == Some(MissingRequiredParameterError("access-token"))
    ensures Truthy(Get(data, "access-token")) && !Truthy(Get(data, "qr_code_text")) ==>
      FirstMissing(data, DefaultRequired()) == Some(MissingRequiredParameterError("qr_code_text"))
    ensures Truthy(Get(data, "access-token")) && Truthy(Get(data, "qr_code_text")) ==>
      FirstMissing(data, DefaultRequired()) == None
  {
    DefaultParametersShape();
    SameKeysDistinct(data, DefaultParameters());
    var req := DefaultRequired();
    assert Keys(data)[0] == "access-token" && Keys(data)[1] == "qr_code_text";
    GetAt(data, 0);
    GetAt(data, 1);
    assert forall i :: 2 <= i < |data| ==> !Listed(req, data[i].0) by {
      forall i | 2 <= i < |data| ensures !Listed(req, data[i].0) {
        assert data[i].0 == Keys(data)[i] == ParameterKeys()[i];
      }
    }
    if !Truthy(data[0].1) {
      ReportsEarliest(data, req, 0);
    } else if !Truthy(data[1].1) {
      ReportsEarliest(data, req, 1);
    } else {
      RequiredSatisfied(data, req);
    }
  }

  // ---------------------------------------------------------------------
  // The output file

  /** `OUT_FOLDER + '/' + OUTPUT_FOLDER + '/' + output_filename + '.' +
      image_format.lower()`, evaluated left to right: a non-string folder or a
      None filename raises TypeError, a non-string format AttributeError. */
  function OutputPath(cfg: Table, data: Table, name: Option<string>): Result<string> {
    var out, sub, fmt := Get(cfg, "OUT_FOLDER"), Get(cfg, "OUTPUT_FOLDER"), Get(data, "image_format");
    if !out.PyStr? || !sub.PyStr? || name.None? then Err(TypeError)
    else if !fmt.PyStr? then Err(AttributeError)
    else Ok(out.s + "/" + sub.s + "/" + name.value + "." + Lower(fmt.s))
  }

  /** `os.path.exists(file) and not os.stat(file).st_size == 0`. */
  predicate ExistsNonEmpty(fs: Files, path: string) {
    path in fs && fs[path] != ""
  }

  /** `to_output_file`: refuse an existing non-empty file unless
      FORCE_OVERWRITE is truthy, otherwise store the content verbatim. */
  function WriteOutput(cfg: Table, data: Table, name: Option<string>, content: string, fs: Files): Result<Files> {
    match OutputPath(cfg, data, name)
    case Err(e) => Err(e)
    case Ok(path) =>
      if ExistsNonEmpty(fs, path) && !Truthy(Get(cfg, "FORCE_OVERWRITE")) then Err(FileExistsError)
      else Ok(fs[path := content])
  }

  /** Two filenames never share an output path: the path determines the
      filename. */
  lemma OutputPathInjective(cfg: Table, data: Table, n1: string, n2: string)
    requires OutputPath(cfg, data, Some(n1)).Ok?
    requires OutputPath(cfg, data, Some(n1)) == OutputPath(cfg, data, Some(n2))
    ensures n1 == n2
  {
    var out, sub, fmt := Get(cfg, "OUT_FOLDER").s, Get(cfg, "OUTPUT_FOLDER").s, Get(data, "image_format").s;
    var dir := out + "/" + sub + "/";
    var tail := "." + Lower(fmt);
    assert OutputPath(cfg, data, Some(n1)).value == dir + n1 + tail;
    assert OutputPath(cfg, data, Some(n2)).value == dir + n2 + tail;
    MiddleCancels(dir, n1, n2, tail);
  }

  /** A successful write stores the content verbatim at the output path,
      changes no other path, and happened onto a missing or empty file or
      with FORCE_OVERWRITE set. */
  lemma WriteOutputStores(cfg: Table, data: Table, name: Option<string>, content: string, fs: Files)
    requires WriteOutput(cfg, data, name, content, fs).Ok?
    ensures OutputPath(cfg, data, name).Ok?
    ensures var fs' := WriteOutput(cfg, data, name, content, fs).value;
      var path := OutputPath(cfg, data, name).value;
      path in fs' && fs'[path] == content && fs'.Keys == fs.Keys + {path} &&
      forall q :: q in fs && q != path ==> fs'[q] == fs[q]
    ensures !ExistsNonEmpty(fs, OutputPath(cfg, data, name).value) || Truthy(Get(cfg, "FORCE_OVERWRITE"))
  {
  }

  /** Writing the same non-empty output twice without FORCE_OVERWRITE fails
      the second time with FileExistsError; with it, the second content wins. */
  lemma RewriteRefused(cfg: Table, data: Table, name: Option<string>, c1: string, c2: string, fs: Files)
    requires WriteOutput(cfg, data, name, c1, fs).Ok? && c1 != ""
    ensures var fs1 := WriteOutput(cfg, data, name, c1, fs).value;
      WriteOutput(cfg, data, name, c2, fs1) ==
        if Truthy(Get(cfg, "FORCE_OVERWRITE")) then Ok(fs1[OutputPath(cfg, data, name).value := c2])
        else Err(FileExistsError)
  {
  }

  /** With folders `out` and `demo`, filename `card` and format `SVG`, the
      body is written verbatim to `out/demo/card.svg`. */
  lemma WriteOutputExample(cfg: Table, data: Table, fs: Files)
    requires Get(cfg, "OUT_FOLDER") == PyStr("out") && Get(cfg, "OUTPUT_FOLDER") == PyStr("demo")
    requires Get(data, "image_format") == PyStr("SVG")
    requires "out/demo/card.svg" !in fs
    ensures WriteOutput(cfg, data, Some("card"), "<svg>X</svg>", fs) == Ok(fs["out/demo/card.svg" := "<svg>X</svg>"])
  {
    LowerExamples();
    ExamplePathText();
    assert OutputPath(cfg, data, Some("card")) == Ok("out" + "/" + "demo" + "/" + "card" + "." + "svg");
  }

  /** The example path, spelled out; kept apart from the lemma above so that
      the literal comparison is checked in a small context. */
  lemma ExamplePathText()
    ensures "out" + "/" + "demo" + "/" + "card" + "." + "svg" == "out/demo/card.svg"
  {
  }


  /** The observable outcome of one `request`: the filename left set, the
      URL posted (None when nothing was sent), and the files or the
      exception. */
  datatype RequestOutcome = RequestOutcome(filename: Option<string>, posted: Option<Value>, result: Result<Files>)

  // ---------------------------------------------------------------------
  // The status dispatch

  /** The text of an UnprocessableRequestError. */
  function IssueMessage(e: FieldError): string {
    "Issue with field " + e.field + ": " + e.message
  }

  /** `handle_api_error`: the exception raised for a status code. It has no
      normal outcome. For 422 the loop raises on its first entry, so only the
      first entry surfaces; an empty list falls through to UnknownApiError. */
  function ApiError(status: int, errors: seq<FieldError>): Error {
    if status == 401 then InvalidCredentialsError
    else if status == 404 then FileNotFoundError
    else if status == 422 && errors != [] then UnprocessableRequestError(IssueMessage(errors[0]))
    else if status == 429 then MonthlyRequestLimitExceededError
    else UnknownApiError("An unhandled API exception occurred")
  }

  /** Which exception each status raises, in both directions. */
  lemma ApiErrorDispatch(status: int, errors: seq<FieldError>)
    ensures ApiError(status, errors).InvalidCredentialsError? <==> status == 401
    ensures ApiError(status, errors).FileNotFoundError? <==> status == 404
    ensures ApiError(status, errors).UnprocessableRequestError? <==> status == 422 && errors != []
    ensures ApiError(status, errors).MonthlyRequestLimitExceededError? <==> status == 429
    ensures ApiError(status, errors).UnknownApiError? <==>
      status != 401 && status != 404 && status != 429 && !(status == 422 && errors != [])
  {
  }

  /** A 422 surfaces its first entry only, with both its field and its
      message in the exception text. */
  lemma UnprocessableNamesFirst(errors: seq<FieldError>)
    requires errors != []
    ensures ApiError(422, errors) == ApiError(422, errors[..1])
    ensures var m := ApiError(422, errors).message;
      IsSubstring(errors[0].field, m) && IsSubstring(errors[0].message, m)
  {
    var e := errors[0];
    var m := IssueMessage(e);
    var head := "Issue with field ";
    assert OccursAt(e.field, m, |head|) by {
      assert m[|head|..|head| + |e.field|] == e.field;
    }
    assert OccursAt(e.message, m, |m| - |e.message|) by {
      assert m[|m| - |e.message|..] == e.message;
    }
  }
}
