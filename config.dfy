/** The `Config` settings object of qr_code_generator/config.py: a dict with
    six fixed keys, a lookup that never raises, a setter that refuses new
    keys, and a loader for `key=value` `.ini` files. */
module Configuration {
  import opened PyValues
  import opened PyStrings
  import opened OrderedDict
  import opened ClientLogic

  const ApiUri: string := "https://api.qr-code-generator.com/v1/create?"

  /** The six settings a fresh `Config` holds, in insertion order. */
  function DefaultSettings(): Table {
    [ ("API_URI", PyStr(ApiUri)),
      ("FORCE_OVERWRITE", PyBool(false)),
      ("REQUIRED_PARAMETERS", DefaultRequired()),
      ("OUT_FOLDER", PyStr("out")),
      ("OUTPUT_FOLDER", PyStr("output")),
      ("VERBOSE", PyBool(false)) ]
  }

  function SettingKeys(): seq<string> {
    Keys(DefaultSettings())
  }

  /** `file.split('.')[-1]`: the text after the last `.`, or the whole name. */
  function Extension(file: string): string {
    var pieces := Split(file, '.');
    pieces[|pieces| - 1]
  }

  /** `load` accepts exactly the name `ini` itself and names ending in `.ini`. */
  lemma ExtensionIsIni(file: string)
    ensures Extension(file) == "ini" <==> file == "ini" || (|file| >= 4 && file[|file| - 4..] == ".ini")
  {
    if file == "ini" {
      SplitNoSeparator(file, '.');
    } else if |file| >= 4 && file[|file| - 4..] == ".ini" {
      IniSuffixAccepted(file);
    }
    if Extension(file) == "ini" {
      AcceptedEndsInIni(file);
    }
  }

  lemma IniSuffixAccepted(file: string)
    requires |file| >= 4 && file[|file| - 4..] == ".ini"
    ensures Extension(file) == "ini"
  {
    var a := file[..|file| - 4];
    assert file == a + ['.'] + "ini";
    SplitAround(a, "ini", '.');
    SplitNoSeparator("ini", '.');
  }

  lemma AcceptedEndsInIni(file: string)
    requires Extension(file) == "ini"
    ensures file == "ini" || (|file| >= 4 && file[|file| - 4..] == ".ini")
  {
    var ps := Split(file, '.');
    SplitJoin(file, '.');
    if |ps| > 1 {
      var init := Join(".", ps[..|ps| - 1]);
      assert Join(".", ps) == init + "." + ps[|ps| - 1];
      assert file == init + ".ini";
    }
  }

  /** `load`'s coercion: a value that lower-cases to `true` or `false`
      becomes a boolean, anything else stays a string. */
  function Coerce(value: string): Value {
    if Lower(value) == "true" then PyBool(true)
    else if Lower(value) == "false" then PyBool(false)
    else PyStr(value)
  }

  /** One line of the file: the key before the first `=`, the value between
      the first and the second; a line without `=` raises IndexError. */
  function ParseLine(line: string): Result<(string, Value)> {
    var pieces := Split(line, '=');
    if |pieces| < 2 then Err(IndexError) else Ok((pieces[0], Coerce(pieces[1])))
  }

  /** The loop of `load`: each parsed pair goes through `set`, so an unknown
      key raises KeyError; the lines before a failing one stay applied. */
  function LoadLines(t: Table, lines: seq<string>): (Table, Option<Error>)
    decreases |lines|
  {
    if lines == [] then (t, None)
    else match ParseLine(lines[0])
      case Err(e) => (t, Some(e))
      case Ok(kv) =>
        if !HasKey(t, kv.0) then (t, Some(KeyError))
        else LoadLines(Set(t, kv.0, kv.1), lines[1..])
  }

  /** `load(file)` on a file whose `readlines()` are `lines`: the extension is
      checked before anything is read. */
  function LoadResult(t: Table, file: string, lines: seq<string>): (Table, Option<Error>) {
    if Extension(file) != "ini" then (t, Some(ValueError("Selected file is not a .ini file")))
    else LoadLines(t, lines)
  }

  /** Loading never adds, removes or reorders a key, whatever the file says. */
  lemma {:induction false} LoadKeepsKeys(t: Table, lines: seq<string>)
    ensures Keys(LoadLines(t, lines).0) == Keys(t)
    decreases |lines|
  {
    if lines != [] && ParseLine(lines[0]).Ok? {
      var kv := ParseLine(lines[0]).value;
      if HasKey(t, kv.0) {
        SetKeepsKeys(t, kv.0, kv.1);
        LoadKeepsKeys(Set(t, kv.0, kv.1), lines[1..]);
      }
    }
  }

  /** A line parses exactly when it contains `=`. */
  lemma ParseLineFails(line: string)
    ensures ParseLine(line).Err? <==> '=' !in line
    ensures ParseLine(line).Err? ==> ParseLine(line).error == IndexError
  {
    if '=' !in line {
      SplitNoSeparator(line, '=');
    } else {
      var i :| 0 <= i < |line| && line[i] == '=';
      assert line == line[..i] + ['='] + line[i + 1..];
      SplitAround(line[..i], line[i + 1..], '=');
    }
  }

  /** A line `key=value` followed by nothing or by a further `=...` parses
      to that key and the coerced value, when neither contains `=`. */
  lemma ParseLineOfPair(key: string, value: string, rest: string)
    requires '=' !in key && '=' !in value
    requires rest == "" || rest[0] == '='
    ensures ParseLine(key + "=" + value + rest) == Ok((key, Coerce(value)))
  {
    SplitNoSeparator(key, '=');
    SplitNoSeparator(value, '=');
    if rest == "" {
      assert key + "=" + value + rest == key + ['='] + value;
      SplitAround(key, value, '=');
    } else {
      var tail := rest[1..];
      assert key + "=" + value + rest == key + ['='] + (value + ['='] + tail);
      SplitAround(key, value + ['='] + tail, '=');
      SplitAround(value, tail, '=');
    }
  }

  /** `readlines()` keeps each line's newline, so a value that still carries
      it is never coerced: only a last line without newline can yield a
      boolean. */
  lemma CoerceKeepsNewline(value: string)
    requires '\n' in value
    ensures Coerce(value) == PyStr(value)
  {
    var i :| 0 <= i < |value| && value[i] == '\n';
    assert Lower(value)[i] == '\n';
    assert '\n' in Lower(value);
  }

  /** Case does not matter to the coercion, the newline does. */
  lemma CoerceExamples()
    ensures Coerce("True") == PyBool(true) && Coerce("FALSE") == PyBool(false)
    ensures Coerce("true\n") == PyStr("true\n") && Coerce("out") == PyStr("out")
  {
    LowerExamples();
    CoerceKeepsNewline("true\n");
    assert Lower("out") == "out";
  }

  /** The settings object. */
  class Config {
    var entries: Table

    /** The key sequence is the six settings in their original order. */
    ghost predicate Valid()
      reads this
    {
      Keys(entries) == SettingKeys()
    }

    /** `Config()`: the six defaults. */
    constructor ()
      ensures Valid() && entries == DefaultSettings()
    {
      entries := DefaultSettings();
    }

    /** `get(key)`: the stored value, or None for a key not held. */
    function Get(key: string): (v: Value)
      reads this
      requires Valid()
      ensures key !in SettingKeys() ==> v == PyNone
      ensures forall i :: 0 <= i < |entries| && entries[i].0 == key ==> v == entries[i].1
    {
      SameKeysDistinct(entries, DefaultSettings());
      GetFound(entries, key);
      OrderedDict.Get(entries, key)
    }

    /** `set(key, value)`: KeyError for a key not already held, the map
      unchanged; otherwise only that key's value changes. */
    method Set(key: string, value: Value) returns (err: Option<Error>)
      requires Valid()
      modifies this
      ensures Valid()
      ensures err == (if key in SettingKeys() then None else Some(KeyError))
      ensures entries == if err.None? then OrderedDict.Set(old(entries), key, value) else old(entries)
    {
      if !HasKey(entries, key) {
        return Some(KeyError);
      }
      SetKeepsKeys(entries, key, value);
      entries := OrderedDict.Set(entries, key, value);
      err := None;
    }

    /** `load(file)`, with the file's `readlines()` given as `lines`. */
    method Load(file: string, lines: seq<string>) returns (err: Option<Error>)
      requires Valid()
      modifies this
      ensures Valid()
      ensures (entries, err) == LoadResult(old(entries), file, lines)
    {
      if Extension(file) != "ini" {
        return Some(ValueError("Selected file is not a .ini file"));
      }
      var i := 0;
      while i < |lines|
        invariant 0 <= i <= |lines|
        invariant Valid()
        invariant LoadLines(old(entries), lines) == LoadLines(entries, lines[i..])
      {
        assert lines[i..][1..] == lines[i + 1..];
        var parsed := ParseLine(lines[i]);
        if parsed.Err? {
          return Some(parsed.error);
        }
        var (key, value) := parsed.value;
        err := Set(key, value);
        if err.Some? {
          return;
        }
        i := i + 1;
      }
      err := None;
    }
  }
}
