/** The command-line entry point of qr_code_generator/__main__.py: every
    `key=value` argument becomes a keyword option, and `main` hands them to
    the packaged `QrGenerator`. */
module Cli {
  import opened PyValues
  import opened PyStrings
  import opened OrderedDict
  import opened ClientLogic
  import Wrapper

  const DoubleDefined: string := "Double defined key in calling arguments"
  const MissingValue: string := "Missing value for at least one argument"

  /** One argument: the key is the text before the first `=`, the value is
      everything after it with every further `=` dropped. */
  function SplitArg(arg: string): (string, string) {
    var pieces := Split(arg, '=');
    (pieces[0], Concat(pieces[1..]))
  }

  /** The argument loop on `sys.argv[1:]`: a repeated key is reported before
      an empty value; each accepted argument is appended to the dict. */
  function ParsedArgs(argv: seq<string>): Result<Table>
    decreases |argv|
  {
    if argv == [] then Ok([])
    else match ParsedArgs(argv[..|argv| - 1])
      case Err(e) => Err(e)
      case Ok(t) =>
        var kv := SplitArg(argv[|argv| - 1]);
        if HasKey(t, kv.0) then Err(ValueError(DoubleDefined))
        else if kv.1 == "" then Err(ValueError(MissingValue))
        else Ok(t + [(kv.0, PyStr(kv.1))])
  }

  /** The argument loop itself. */
  method ParseArgs(argv: seq<string>) returns (r: Result<Table>)
    ensures r == ParsedArgs(argv)
  {
    var args: Table := [];
    var i := 0;
    while i < |argv|
      invariant 0 <= i <= |argv|
      invariant ParsedArgs(argv[..i]) == Ok(args)
    {
      assert argv[..i + 1][..i] == argv[..i];
      var kv := SplitArg(argv[i]);
      if HasKey(args, kv.0) {
        r := Err(ValueError(DoubleDefined));
        ParsedArgsStops(argv, i + 1);
        return;
      }
      if kv.1 == "" {
        r := Err(ValueError(MissingValue));
        ParsedArgsStops(argv, i + 1);
        return;
      }
      args := args + [(kv.0, PyStr(kv.1))];
      i := i + 1;
    }
    assert argv[..i] == argv;
    r := Ok(args);
  }

  /** Once a prefix of the arguments fails, the whole loop fails the same way. */
  lemma {:induction false} ParsedArgsStops(argv: seq<string>, n: int)
    requires 0 <= n <= |argv| && ParsedArgs(argv[..n]).Err?
    ensures ParsedArgs(argv) == ParsedArgs(argv[..n])
    decreases |argv| - n
  {
    if n < |argv| {
      assert argv[..n + 1][..n] == argv[..n];
      ParsedArgsStops(argv, n + 1);
    } else {
      assert argv[..n] == argv;
    }
  }

  /** No two arguments share a key. */
  predicate DistinctArgKeys(argv: seq<string>) {
    forall i, j :: 0 <= i < j < |argv| ==> SplitArg(argv[i]).0 != SplitArg(argv[j]).0
  }

  /** Every argument carries a non-empty value. */
  predicate ValuesPresent(argv: seq<string>) {
    forall i :: 0 <= i < |argv| ==> SplitArg(argv[i]).1 != ""
  }

  /** A successful loop holds one entry per argument, in order, each the
      argument's key and value. */
  lemma {:induction false} ParsedArgsEntries(argv: seq<string>)
    requires ParsedArgs(argv).Ok?
    ensures |ParsedArgs(argv).value| == |argv|
    ensures forall i :: 0 <= i < |argv| ==>
      ParsedArgs(argv).value[i] == (SplitArg(argv[i]).0, PyStr(SplitArg(argv[i]).1))
    decreases |argv|
  {
    if argv != [] {
      var init := argv[..|argv| - 1];
      ParsedArgsEntries(init);
      var t := ParsedArgs(init).value;
      forall i | 0 <= i < |init| ensures ParsedArgs(argv).value[i] == t[i] && init[i] == argv[i] { }
    }
  }

  /** The loop fails only with one of its two messages. */
  lemma {:induction false} ParsedArgsErrors(argv: seq<string>)
    ensures ParsedArgs(argv).Err? ==>
      ParsedArgs(argv).error in {ValueError(DoubleDefined), ValueError(MissingValue)}
    decreases |argv|
  {
    if argv != [] {
      ParsedArgsErrors(argv[..|argv| - 1]);
    }
  }

  /** The loop succeeds exactly when the keys are pairwise distinct and
      every value is non-empty; the dict it builds then has distinct keys. */
  lemma {:induction false} ParsedArgsSpec(argv: seq<string>)
    ensures ParsedArgs(argv).Ok? <==> DistinctArgKeys(argv) && ValuesPresent(argv)
    ensures ParsedArgs(argv).Ok? ==> DistinctKeys(ParsedArgs(argv).value)
    decreases |argv|
  {
    if argv != [] {
      var init := argv[..|argv| - 1];
      var kv := SplitArg(argv[|argv| - 1]);
      ParsedArgsSpec(init);
      ArgsSnoc(argv);
      if ParsedArgs(init).Ok? {
        var t := ParsedArgs(init).value;
        KeyParsedBefore(init, kv.0);
        if ParsedArgs(argv).Ok? {
          AppendKeepsDistinct(t, kv.0, PyStr(kv.1));
        }
      }
    }
  }

  /** Both conditions of the loop, split at the last argument. */
  lemma ArgsSnoc(argv: seq<string>)
    requires argv != []
    ensures var init, kv := argv[..|argv| - 1], SplitArg(argv[|argv| - 1]);
      DistinctArgKeys(argv) <==>
        (DistinctArgKeys(init) && forall i :: 0 <= i < |init| ==> SplitArg(init[i]).0 != kv.0)
    ensures var init, kv := argv[..|argv| - 1], SplitArg(argv[|argv| - 1]);
      ValuesPresent(argv) <==> ValuesPresent(init) && kv.1 != ""
  {
    var init := argv[..|argv| - 1];
    assert forall i :: 0 <= i < |init| ==> init[i] == argv[i];
  }

  /** A successful prefix holds a key exactly when some argument of it has
      that key. */
  lemma KeyParsedBefore(init: seq<string>, key: string)
    requires ParsedArgs(init).Ok?
    ensures HasKey(ParsedArgs(init).value, key) <==>
      exists i :: 0 <= i < |init| && SplitArg(init[i]).0 == key
  {
    var t := ParsedArgs(init).value;
    ParsedArgsEntries(init);
    if HasKey(t, key) {
      var i :| 0 <= i < |t| && Keys(t)[i] == key;
      assert SplitArg(init[i]).0 == key;
    }
    if exists i :: 0 <= i < |init| && SplitArg(init[i]).0 == key {
      var i :| 0 <= i < |init| && SplitArg(init[i]).0 == key;
      assert Keys(t)[i] == key;
    }
  }

  /** Appending a key the dict does not hold keeps its keys distinct. */
  lemma AppendKeepsDistinct(t: Table, k: string, v: Value)
    requires DistinctKeys(t) && !HasKey(t, k)
    ensures DistinctKeys(t + [(k, v)])
  {
    var u := t + [(k, v)];
    forall i, j | 0 <= i < j < |u| ensures u[i].0 != u[j].0 {
      if j < |t| {
        assert u[i] == t[i] && u[j] == t[j];
      } else {
        assert u[i].0 == Keys(t)[i];
      }
    }
  }

  /** `key=value` with a key free of `=` splits back into that key and the
      value without its `=` signs. */
  lemma SplitArgOfPair(key: string, value: string)
    requires '=' !in key
    ensures SplitArg(key + "=" + value) == (key, RemoveAll(value, '='))
  {
    assert key + "=" + value == key + ['='] + value;
    SplitAround(key, value, '=');
    SplitNoSeparator(key, '=');
    ConcatSplit(value, '=');
  }

  /** An argument without `=` has an empty value, so it is refused. */
  lemma SplitArgWithoutValue(arg: string)
    requires '=' !in arg
    ensures SplitArg(arg) == (arg, "")
    ensures ParsedArgs([arg]) == Err(ValueError(MissingValue))
  {
    SplitNoSeparator(arg, '=');
    assert [arg][..0] == [];
  }

  /** A repeated key wins over a missing value: `a=1 a` reports the
      repetition. */
  lemma DoubleDefinedFirst()
    ensures ParsedArgs(["a=1", "a"]) == Err(ValueError(DoubleDefined))
  {
    SplitArgOfPair("a", "1");
    SplitArgWithoutValue("a");
    assert "a" + "=" + "1" == "a=1";
    assert RemoveAll("1", '=') == "1";
    assert SplitArg("a=1") == ("a", "1");
    assert ["a=1"][..0] == [] && ["a=1"][0] == "a=1";
    assert !HasKey([], "a");
    var one: seq<string> := ["a=1"];
    assert one[..|one| - 1] == [] && one[|one| - 1] == "a=1";
    assert ParsedArgs(one[..|one| - 1]) == Ok([]);
    var kv := SplitArg(one[|one| - 1]);
    assert kv == ("a", "1");
    assert !HasKey([], kv.0) && kv.1 != "";
    assert [] + [(kv.0, PyStr(kv.1))] == [("a", PyStr("1"))];
    assert ParsedArgs(one) == Ok([("a", PyStr("1"))]);
    assert ["a=1", "a"][..1] == ["a=1"];
    assert HasKey([("a", PyStr("1"))], "a") by {
      assert Keys([("a", PyStr("1"))])[0] == "a";
    }
  }

  /** How `main(**kwargs)` calls the constructor: the token argument and the
      keyword options. */
  datatype Call = Call(token: Value, options: Table)

  /** `main`: an `access-token` option is popped and passed as the token;
      otherwise a `token` option binds to the token parameter by name. Python
      raises TypeError when the token is passed twice (both `access-token` and
      `token`), and when an option named `self` collides with the bound
      instance. */
  function MainCall(kwargs: Table): Result<Call> {
    if HasKey(kwargs, "access-token") then
      var rest := Remove(kwargs, "access-token");
      if HasKey(rest, "token") || HasKey(rest, "self") then Err(TypeError)
      else Ok(Call(Get(kwargs, "access-token"), rest))
    else if HasKey(kwargs, "self") then Err(TypeError)
    else if HasKey(kwargs, "token") then Ok(Call(Get(kwargs, "token"), Remove(kwargs, "token")))
    else Ok(Call(PyNone, kwargs))
  }

  /** The routing fails only when both `access-token` and `token` are given
      or an option is named `self`; otherwise the token comes from
      `access-token`, else from `token`, else is None, and the options are
      every other entry, unchanged. */
  lemma MainCallSpec(kwargs: Table, other: string)
    requires DistinctKeys(kwargs)
    ensures MainCall(kwargs).Err? <==>
      (HasKey(kwargs, "access-token") && HasKey(kwargs, "token")) || HasKey(kwargs, "self")
    ensures MainCall(kwargs).Err? ==> MainCall(kwargs).error == TypeError
    ensures MainCall(kwargs).Ok? ==> (
      var c := MainCall(kwargs).value;
      && c.token == (if HasKey(kwargs, "access-token") then Get(kwargs, "access-token")
                     else if HasKey(kwargs, "token") then Get(kwargs, "token") else PyNone)
      && !HasKey(c.options, "access-token") && !HasKey(c.options, "token") && !HasKey(c.options, "self")
      && DistinctKeys(c.options)
      && (other != "access-token" && other != "token" ==>
            (HasKey(c.options, other) <==> HasKey(kwargs, other)) && Get(c.options, other) == Get(kwargs, other)))
  {
    RemoveSpec(kwargs, "access-token", other);
    RemoveSpec(kwargs, "access-token", "token");
    RemoveSpec(kwargs, "access-token", "self");
    RemoveSpec(kwargs, "token", other);
    RemoveSpec(kwargs, "token", "access-token");
    RemoveSpec(kwargs, "token", "self");
  }

  /** What `main(**kwargs)` prints, or the exception it raises: the routing,
      the construction, then `get_option('API_URI', 'config')`. */
  function MainResult(kwargs: Table): Result<Value> {
    match MainCall(kwargs)
    case Err(e) => Err(e)
    case Ok(c) =>
      match ApplyOptions(WithToken(DefaultParameters(), c.token), c.options)
      case Err(e) => Err(e)
      case Ok(t) => Ok(Get(t, "API_URI"))
  }

  /** `main` succeeds exactly when the routing does and every remaining
      option names a declared parameter; a routing failure is TypeError, a
      construction failure KeyError; and what it prints is always None. */
  lemma MainResultSpec(kwargs: Table)
    requires DistinctKeys(kwargs)
    ensures MainResult(kwargs).Ok? <==> (MainCall(kwargs).Ok? &&
      forall i :: 0 <= i < |MainCall(kwargs).value.options| ==> MainCall(kwargs).value.options[i].0 in ParameterKeys())
    ensures MainResult(kwargs).Err? ==>
      MainResult(kwargs).error == (if MainCall(kwargs).Err? then TypeError else KeyError)
    ensures MainResult(kwargs).Ok? ==> MainResult(kwargs).value == PyNone
  {
    MainCallSpec(kwargs, "");
    if MainCall(kwargs).Ok? {
      var c := MainCall(kwargs).value;
      var t := WithToken(DefaultParameters(), c.token);
      DefaultParametersShape();
      SetKeepsKeys(DefaultParameters(), "access-token", c.token);
      assert Keys(t) == ParameterKeys() by {
        if Truthy(c.token) {
          SetAccessToken(c.token);
        }
      }
      ApplyOptionsSpec(t, c.options, "API_URI");
      OptionLookupIgnoresSettings();
    }
  }

  /** `main(**kwargs)`: build the generator and return what it prints. */
  method Run(kwargs: Table) returns (printed: Result<Value>)
    requires DistinctKeys(kwargs)
    ensures printed == MainResult(kwargs)
  {
    var call := MainCall(kwargs);
    if call.Err? {
      return Err(call.error);
    }
    MainCallSpec(kwargs, "");
    MainResultSpec(kwargs);
    var g := Wrapper.QrGenerator.Create(call.value.token, call.value.options);
    if g.Err? {
      return Err(g.error);
    }
    OptionLookupIgnoresSettings();
    printed := Ok(g.value.GetOption("API_URI", "config"));
  }

  /** `get_option` reads only the parameter table, so the settings key that
      `main` prints is always None. */
  lemma OptionLookupIgnoresSettings()
    ensures "API_URI" !in ParameterKeys()
  {
    DefaultParametersShape();
    forall i | 0 <= i < |ParameterKeys()| ensures ParameterKeys()[i] != "API_URI" {
      assert ParameterKeys()[i] == DefaultParameters()[i].0;
    }
  }

  /** The whole command line: the argument loop, then `main` on its dict
      (`main()` with no arguments is `main` on the empty dict). */
  function CommandLineResult(argv: seq<string>): Result<Value> {
    match ParsedArgs(argv)
    case Err(e) => Err(e)
    case Ok(args) => MainResult(args)
  }

  /** `python -m qr_code_generator key=value ...`, with the arguments after
      the program name. */
  method RunCommandLine(argv: seq<string>) returns (printed: Result<Value>)
    ensures printed == CommandLineResult(argv)
    ensures printed.Err? ==>
      printed.error in {ValueError(DoubleDefined), ValueError(MissingValue), TypeError, KeyError}
    ensures printed.Ok? ==> printed.value == PyNone
  {
    var args := ParseArgs(argv);
    ParsedArgsSpec(argv);
    ParsedArgsErrors(argv);
    if args.Err? {
      return Err(args.error);
    }
    MainResultSpec(args.value);
    printed := Run(args.value);
  }

  /** A command line of one `key=value` argument prints None when the key
      is a declared parameter, raises TypeError for `self` and KeyError for
      any other key. */
  lemma OneArgument(key: string, value: string)
    requires '=' !in key && '=' !in value && value != ""
    requires key != "access-token" && key != "token"
    ensures CommandLineResult([key + "=" + value]) ==
      if key == "self" then Err(TypeError)
      else if key in ParameterKeys() then Ok(PyNone)
      else Err(KeyError)
  {
    SingleArgument(key, value);
    SingleOption(key, PyStr(value));
  }

  /** `qr_code_text=x` prints None. */
  lemma DeclaredOptionExample()
    ensures CommandLineResult(["qr_code_text=x"]) == Ok(PyNone)
  {
    assert "qr_code_text" + "=" + "x" == "qr_code_text=x";
    OneArgument("qr_code_text", "x");
    DefaultParametersShape();
    assert ParameterKeys()[1] == "qr_code_text";
  }

  /** `self=x` raises TypeError before the constructor runs. */
  lemma SelfOptionExample()
    ensures CommandLineResult(["self=x"]) == Err(TypeError)
  {
    assert "self" + "=" + "x" == "self=x";
    OneArgument("self", "x");
  }

  /** `main` with one option: it succeeds exactly when the option names a
      declared parameter other than `self`, and raises TypeError for `self`. */
  lemma SingleOption(key: string, v: Value)
    requires key != "access-token" && key != "token"
    ensures key == "self" ==> MainResult([(key, v)]) == Err(TypeError)
    ensures key != "self" ==>
      MainResult([(key, v)]) == if key in ParameterKeys() then Ok(PyNone) else Err(KeyError)
  {
    var t := [(key, v)];
    assert Keys(t) == [key];
    MainResultSpec(t);
  }

  /** One `key=value` argument parses to a one-entry dict. */
  lemma SingleArgument(key: string, value: string)
    requires '=' !in key && '=' !in value && value != ""
    ensures ParsedArgs([key + "=" + value]) == Ok([(key, PyStr(value))])
  {
    var a := key + "=" + value;
    SplitArgOfPair(key, value);
    RemoveAllFree(value, '=');
    assert [a][..0] == [];
    assert ParsedArgs([a][..0]) == Ok([]);
    assert !HasKey([], key);
    assert [] + [(key, PyStr(value))] == [(key, PyStr(value))];
  }
}
