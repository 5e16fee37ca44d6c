# QR code generator client — a Dafny model

This project models the deterministic core of the Python client for the
qr-code-generator.com HTTP API. It covers four parts:

- the `QrGenerator` class of `qr_code_generator/wrapper.py`, with its 22-key parameter table (`data`), its `Config`, its output filename, the query-URL builder, the validator, the status-code dispatch, the output-path and overwrite rule, and the `request` sequence;
- the earlier `QrGenerator` of `main.py`, which has a plain five-key settings dict, reads a `.env` token from the environment, refuses a missing filename instead of using a timestamp, and reads the environment on a 401 response;
- the `Config` settings dict of `qr_code_generator/config.py`, with `get`, `set` and the `key=value` `.ini` loader;
- the command line of `qr_code_generator/__main__.py`: the loop that turns `key=value` arguments into keyword options, and `main`'s routing of `access-token` to the constructor.

Python's semantics are written out where the code relies on them:

- truthiness;
- `str()` of ints, booleans, None and lists;
- `in` on lists and strings, and the TypeError it raises on anything else;
- `str.split` with one separator character, `''.join`, and `.lower()`;
- dicts that keep insertion order;
- the left-to-right evaluation of `+`, which fixes whether TypeError or AttributeError is raised first;
- how keyword arguments called `token` and `self` bind to the constructor's own parameters, and the TypeError when one of them is given twice.

Mutable objects are Dafny classes whose methods are proved against specification functions. The outside world enters only as values:

- the filesystem is a map from path to content;
- the API response is a status code, a body text and the already-decoded list of field errors;
- the clock reading is a string;
- the environment is a map.

Files:

- `py_values.dfy`: Python values, errors, truthiness, `str()`, `in`.
- `py_strings.dfy`: split, join, lower, substrings and decimal text.
- `ordered_dict.dfy`: the insertion-ordered dict.
- `client_logic.dfy`: the logic both generators share, namely the parameter defaults, kwargs, the query URL, the required check, the output file and the status dispatch.
- `config.dfy`: `Config`.
- `wrapper.dfy`: the packaged `QrGenerator`.
- `legacy.dfy`: the `main.py` `QrGenerator`.
- `cli.dfy`: the command line.

Three behaviours of the code are easy to misread; the model follows the code:

- `request` clears the filename only after a request that went all the way through. An exception from validation, the API or the write leaves the filename set, so the next `request()` without a name reuses it (wrapper.py:176-183, main.py:174-181).
- When the timestamp name is already taken, the collision loop computes `output_filename + '-' + i`, a string plus an int. That raises TypeError on the first turn of the loop, so no second name is ever tried (wrapper.py:371-374).
- In the packaged client, the class docstring says a token of `.env` loads the token from the environment (wrapper.py:19). The code stores the text `.env` instead, because the environment branch sits under `if not token` inside `if token:` and can never run (wrapper.py:67-74). Only `main.py` reads the environment.

## Model

| member | source | states |
|---|---|---|
| PyStrings.SplitJoin | qr_code_generator/config.py:85 | joining the pieces of `split(c)` with `c` gives back the original string |
| PyStrings.SplitPiecesFree | qr_code_generator/config.py:91-92 | no piece of `split(c)` contains `c` |
| PyStrings.SplitNoSeparator | qr_code_generator/config.py:85 | a string without `c` splits into a one-element list holding itself |
| PyStrings.SplitAround | qr_code_generator/__main__.py:20-21 | splitting distributes over one occurrence of the separator |
| PyStrings.JoinSplit | qr_code_generator/__main__.py:20-21 | splitting the join of separator-free pieces gives back those pieces |
| PyStrings.ConcatSplit | qr_code_generator/__main__.py:21 | `''.join(s.split(c))` is `s` with every `c` removed |
| PyStrings.RemoveAll | qr_code_generator/__main__.py:21 | the result holds no `c` and is no longer than the input |
| PyStrings.NatToDecimal | qr_code_generator/wrapper.py:158 | `str(n)` is a non-empty string of digits whose decimal value is `n` |
| OrderedDict.Get | qr_code_generator/wrapper.py:140-143 | a dict lookup guarded by `except KeyError` gives None for a key the dict does not hold |
| OrderedDict.GetAt | qr_code_generator/config.py:35-38 | in a dict without repeated keys, looking up an entry's key gives that entry's value |
| OrderedDict.GetFound | qr_code_generator/config.py:35-38 | the previous lemma for every entry at once |
| OrderedDict.SameKeysDistinct | qr_code_generator/config.py:61-64 | tables with equal key sequences are both free of repeats if one is |
| OrderedDict.SetKeepsKeys | qr_code_generator/config.py:64 | assigning to an existing key keeps the key sequence, its order and its distinctness |
| OrderedDict.GetSet | qr_code_generator/wrapper.py:113-115 | after `d[k] = v` the lookup of `k` gives `v`, and every other key keeps its value |
| OrderedDict.KeysCons | qr_code_generator/__main__.py:9 | the keys of a table with an entry in front are that entry's key followed by the rest |
| OrderedDict.RemoveSpec | qr_code_generator/__main__.py:9 | `pop(k)` removes `k`, keeps the keys distinct, and keeps every other key with its value |
| OrderedDict.RemoveKeysSub | qr_code_generator/__main__.py:9 | every key left after `pop(k)` was there before and is not `k` |
| ClientLogic.DefaultParametersShape | qr_code_generator/wrapper.py:40-63 | the defaults are 22 distinct keys, and exactly `access-token`, `download` and `frame_text` are falsy |
| ClientLogic.SetAccessToken | qr_code_generator/wrapper.py:67-74 | storing an access token in the defaults keeps the 22 keys, and the lookup gives the token back |
| ClientLogic.ApplyOptionsSpec | qr_code_generator/wrapper.py:76-77 | applying kwargs through `set_option` succeeds iff every kwarg names a declared key; failure is KeyError; success keeps the keys, gives each named key its kwarg value and leaves the others alone |
| ClientLogic.BuildQueryUrl | qr_code_generator/wrapper.py:154-161 | the loop, including its `== API_URI` test, computes the prefix followed by the `&`-joined `key=str(value)` pairs of the truthy entries, or TypeError when a non-string prefix meets a pair |
| ClientLogic.PairsNonEmptyJoin | qr_code_generator/wrapper.py:156-158 | a non-empty list of pairs joins to a non-empty string |
| ClientLogic.JoinHead | qr_code_generator/wrapper.py:157-158 | a join starts with the first character of its first piece |
| ClientLogic.PairsMembership | qr_code_generator/wrapper.py:155-160 | a pair appears in the query iff some entry holds a truthy value and renders to it |
| ClientLogic.PairsEmpty | qr_code_generator/wrapper.py:156 | there are no pairs iff every value is falsy |
| ClientLogic.QueryUrlWithoutValues | qr_code_generator/wrapper.py:154-161 | with no truthy value the URL is exactly `API_URI` |
| ClientLogic.QueryNoLeadingAmpersand | qr_code_generator/wrapper.py:157-158 | with a truthy value and no key starting with `&`, the URL is longer than `API_URI` and the character after the prefix is not `&` |
| ClientLogic.QueryDecodes | qr_code_generator/wrapper.py:154-161 | the URL starts with `API_URI`, and splitting the rest at `&` gives back the pairs, in table order |
| ClientLogic.OtherKeyPrefix | qr_code_generator/wrapper.py:158 | `kj=v` never starts with `k=` for a different key without `=` |
| ClientLogic.FalsyOmitted | qr_code_generator/wrapper.py:156 | no pair in the query starts with the key of an entry whose value is falsy |
| ClientLogic.CheckRequired | qr_code_generator/wrapper.py:377-379 | the loop reports the first entry, in table order, whose key is listed as required and whose value is falsy, or the TypeError of `in` on an unsupported container |
| ClientLogic.RequiredSatisfied | qr_code_generator/wrapper.py:377-379 | the check passes iff every listed entry holds a truthy value |
| ClientLogic.ReportsEarliest | qr_code_generator/wrapper.py:377-379 | the error names the earliest listed entry whose value is falsy |
| ClientLogic.DefaultRequiredOrder | qr_code_generator/config.py:12-15 | with the default list, a falsy `access-token` is reported before `qr_code_text`, and both truthy pass |
| ClientLogic.OutputPathInjective | qr_code_generator/wrapper.py:291-292 | two filenames never give the same output path |
| ClientLogic.WriteOutputStores | qr_code_generator/wrapper.py:237-242 | a successful write stores the content verbatim under the output path, leaves every other path alone, and is allowed only onto a missing or empty file or with FORCE_OVERWRITE truthy |
| ClientLogic.RewriteRefused | qr_code_generator/wrapper.py:237-238 | after a non-empty write, a second write to the same name raises FileExistsError without FORCE_OVERWRITE and replaces the content with it |
| ClientLogic.WriteOutputExample | qr_code_generator/wrapper.py:239-240 | folders `out`/`demo`, format `SVG` and name `card` write to `out/demo/card.svg` |
| ClientLogic.ApiErrorDispatch | qr_code_generator/wrapper.py:269-280 | 401, 404, 422 with a non-empty list, and 429 each map to their error, and everything else, including an empty 422, maps to UnknownApiError |
| ClientLogic.UnprocessableNamesFirst | qr_code_generator/wrapper.py:274-277 | a 422 reports only the first field error, and its message contains that field and that message |
| Configuration.ExtensionIsIni | qr_code_generator/config.py:85-87 | `load` accepts a name iff it is `ini` or ends in `.ini` |
| Configuration.IniSuffixAccepted | qr_code_generator/config.py:85-86 | a name ending in `.ini` has extension `ini` |
| Configuration.AcceptedEndsInIni | qr_code_generator/config.py:85-86 | a name with extension `ini` is `ini` or ends in `.ini` |
| Configuration.LoadKeepsKeys | qr_code_generator/config.py:103 | loading never adds, removes or reorders a key |
| Configuration.ParseLineFails | qr_code_generator/config.py:91-92 | a line fails to parse iff it holds no `=`, and then the error is IndexError |
| Configuration.ParseLineOfPair | qr_code_generator/config.py:91-99 | `key=value` followed by nothing or by `=...` parses to the key and the coerced value |
| Configuration.CoerceKeepsNewline | qr_code_generator/config.py:95-99 | a value that still carries its newline stays a string |
| Configuration.CoerceExamples | qr_code_generator/config.py:95-99 | `True` and `FALSE` become booleans; `true\n` and `out` stay strings |
| Configuration.Config.constructor | qr_code_generator/config.py:10-18 | a fresh `Config` holds exactly the six defaults, in order |
| Configuration.Config.Get | qr_code_generator/config.py:35-38 | `get` returns the stored value, or None for a key not held |
| Configuration.Config.Set | qr_code_generator/config.py:61-64 | `set` raises KeyError for a key not held and leaves the dict unchanged; otherwise only that key's value changes |
| Configuration.Config.Load | qr_code_generator/config.py:85-103 | `load` refuses a non-`.ini` name before reading, then applies the lines in order through `set`, and stops at the first IndexError or KeyError with the earlier lines applied |
| Wrapper.Respond | qr_code_generator/wrapper.py:198-200 | only status 200 writes, and it writes the body to the output path; any other status gives the dispatched error |
| Wrapper.ValidateFoldersFirst | qr_code_generator/wrapper.py:360-361 | an empty folder setting is reported first, whatever else is wrong |
| Wrapper.ValidatePasses | qr_code_generator/wrapper.py:360-379 | passing validation means non-empty folders, a settled non-empty filename without `.`, a free path when the timestamp is used, and every listed required value truthy |
| Wrapper.ValidateRejectsExtension | qr_code_generator/wrapper.py:363-365 | a filename containing `.` raises the extension ValueError |
| Wrapper.ValidateTimestampFallback | qr_code_generator/wrapper.py:369-374 | a missing or empty filename becomes the timestamp name; if that file exists non-empty, the loop raises TypeError |
| Wrapper.RequestCleanup | qr_code_generator/wrapper.py:176-183 | success clears the filename; a failure after posting leaves it set |
| Wrapper.ValidatedName | qr_code_generator/wrapper.py:359-369 | once validation passes the filename is set and non-empty: the caller's own name, or the timestamp name when none was given |
| Wrapper.RequestWritesOnlyOn200 | qr_code_generator/wrapper.py:176-200 | the URL is posted only after validation passes; files change only on status 200, and then by the body under the output path; any other status gives the dispatched error |
| Wrapper.QrGenerator.constructor | qr_code_generator/wrapper.py:39-74 | the defaults, a fresh `Config`, no filename, and a truthy token stored verbatim as `access-token` |
| Wrapper.QrGenerator.Create | qr_code_generator/wrapper.py:39-77 | construction succeeds iff every kwarg names a declared parameter, raises KeyError otherwise, and on success holds the token and kwargs applied in order; keywords named `token` or `self` bind to `__init__`'s own parameters and never reach `kwargs` |
| Wrapper.QrGenerator.SetOption | qr_code_generator/wrapper.py:113-115 | an undeclared key raises KeyError and leaves `data` unchanged; a declared one changes that value only, and looking it up gives the new value |
| Wrapper.QrGenerator.GetOption | qr_code_generator/wrapper.py:140-143 | the stored value, or None for an undeclared key, whatever `obj` says |
| Wrapper.QrGenerator.CreateQueryUrl | qr_code_generator/wrapper.py:154-161 | the URL built from the configured `API_URI` and the table |
| Wrapper.QrGenerator.OutputFileExists | qr_code_generator/wrapper.py:291-295 | an error iff the path cannot be built; otherwise whether the path holds a non-empty file |
| Wrapper.QrGenerator.Validate | qr_code_generator/wrapper.py:360-379 | the checks in source order, with the filename settled on the timestamp when it was missing |
| Wrapper.QrGenerator.ToOutputFile | qr_code_generator/wrapper.py:237-242 | FileExistsError iff the path exists non-empty and FORCE_OVERWRITE is falsy; a success stores the content under the path |
| Wrapper.QrGenerator.HandleResponse | qr_code_generator/wrapper.py:198-200 | a non-200 status always raises the dispatched error; only 200 can succeed |
| Wrapper.QrGenerator.Cleanup | qr_code_generator/wrapper.py:217 | the filename becomes None |
| Wrapper.QrGenerator.Request | qr_code_generator/wrapper.py:176-183 | filename, posted URL and outcome are those of the request sequence, including cleanup only on success |
| Legacy.InitialDataToken | main.py:73-77 | a `.env` token succeeds iff ACCESS_TOKEN is set and stores its value; any other truthy token is stored verbatim; the keys stay the 22 declared ones |
| Legacy.EnvTokenDiffers | main.py:73-77 | for `.env`, this client stores the environment's token while the packaged one stores the text `.env` |
| Legacy.LegacyApiErrorSpec | main.py:266-278 | a 401 raises KeyError when ACCESS_TOKEN is unset and InvalidCredentialsError otherwise; other statuses dispatch as in the packaged client |
| Legacy.LegacyValidatePasses | main.py:296-304 | validation passes iff the folders and the filename are non-empty and every listed required value is truthy |
| Legacy.LegacyRequestCleanup | main.py:174-181 | success clears the filename and needs status 200; a failure after posting leaves it set; a non-200 status gives the dispatched error |
| Legacy.QrGenerator.constructor | main.py:37-71 | the 22 defaults, the five settings, no filename |
| Legacy.QrGenerator.Create | main.py:36-80 | the token handling, then the kwargs through `set_option`; KeyError from an unset ACCESS_TOKEN or an undeclared kwarg; keywords named `token` or `self` bind to `__init__`'s own parameters and never reach `kwargs` |
| Legacy.QrGenerator.SetOption | main.py:112-114 | an undeclared key raises KeyError and leaves `data` unchanged; a declared one changes that value only |
| Legacy.QrGenerator.GetOption | main.py:137-140 | the stored value, or None for an undeclared key |
| Legacy.QrGenerator.CreateQueryUrl | main.py:152-159 | the URL built from `API_URI` and the table, by the shared rule |
| Legacy.QrGenerator.Validate | main.py:296-304 | folders, then filename, both as FileNotFoundError, then the required check; nothing changes |
| Legacy.QrGenerator.HandleResponse | main.py:196-198 | only status 200 writes, and it writes the body verbatim; other statuses raise the dispatched error |
| Legacy.QrGenerator.Cleanup | main.py:215 | the filename becomes None |
| Legacy.QrGenerator.Request | main.py:174-181 | filename, posted URL and outcome are those of the request sequence |
| Cli.ParseArgs | qr_code_generator/__main__.py:17-27 | the loop computes the parsed dict or the first error |
| Cli.ParsedArgsStops | qr_code_generator/__main__.py:22-25 | the first failing argument decides the outcome |
| Cli.ParsedArgsEntries | qr_code_generator/__main__.py:26 | on success there is one entry per argument, in order, holding that argument's key and value |
| Cli.ParsedArgsErrors | qr_code_generator/__main__.py:22-25 | the only errors are the double-defined and the missing-value ValueErrors |
| Cli.ParsedArgsSpec | qr_code_generator/__main__.py:19-26 | parsing succeeds iff the keys are pairwise distinct and every value is non-empty, and the resulting dict has distinct keys |
| Cli.KeyParsedBefore | qr_code_generator/__main__.py:22-26 | after a successful prefix the dict holds a key exactly when some earlier argument carried it |
| Cli.AppendKeepsDistinct | qr_code_generator/__main__.py:22-26 | storing a key the dict does not hold keeps every key distinct |
| Cli.SplitArgOfPair | qr_code_generator/__main__.py:20-21 | `key=value` with an `=`-free key splits into the key and the value with its `=` signs dropped |
| Cli.SplitArgWithoutValue | qr_code_generator/__main__.py:20-25 | an argument without `=` has an empty value and is refused as missing |
| Cli.DoubleDefinedFirst | qr_code_generator/__main__.py:22-25 | for `a=1 a`, the repeated key is reported, not the missing value |
| Cli.MainCallSpec | qr_code_generator/__main__.py:7-12 | the routing fails, with TypeError, iff both `access-token` and `token` are given or an option is named `self`; the token comes from `access-token`, else `token`, else None; the options are every other entry, unchanged, and hold none of `access-token`, `token` or `self` |
| Cli.OptionLookupIgnoresSettings | qr_code_generator/__main__.py:13 | `API_URI` is not a parameter key, so `get_option('API_URI', 'config')` finds nothing |
| Cli.MainResultSpec | qr_code_generator/__main__.py:6-13 | `main` succeeds iff the routing does and every remaining option names a declared parameter; a routing failure is TypeError, a construction failure KeyError; the printed value is None |
| Cli.Run | qr_code_generator/__main__.py:6-13 | running `main` gives exactly the outcome `MainResultSpec` characterises |
| Cli.RunCommandLine | qr_code_generator/__main__.py:16-29 | the argument errors come first; after a successful parse the outcome is `main`'s on the parsed dict (no arguments is `main()` on the empty dict); the printed value is always None |
| Cli.OneArgument | qr_code_generator/__main__.py:6-27 | a command line of one `key=value` prints None for a declared parameter, raises TypeError for `self` and KeyError for any other key |
| Cli.DeclaredOptionExample | qr_code_generator/__main__.py:6-27 | `qr_code_text=x` prints None |
| Cli.SelfOptionExample | qr_code_generator/__main__.py:6-12 | `self=x` raises TypeError before the constructor runs |
| Cli.SingleOption | qr_code_generator/__main__.py:6-13 | `main` with one option other than the token names succeeds iff that option is a declared parameter, and raises TypeError for `self` |
| Cli.SingleArgument | qr_code_generator/__main__.py:19-26 | one `key=value` argument parses to the one-entry dict of that key and value |

## Left out

- HTTP: `requests.post` is replaced by the response it would return. The decoding of a 422 body into field errors (`json.loads`) is done before the model sees it.
- Filesystem: the `os.mkdir` calls at construction are not modelled. The `os.path.exists`/`os.stat` size test is membership with non-empty content in the file map. Failures of `open` and `writelines` are not modelled, and `writelines` of a string is modelled as writing the string.
- Clock and environment: `hash_time` is a given stamp string. `os.environ` is a map given as a parameter.
- Console output: the `__log` colour printing and the `print` calls are left out. `Cli.Run` returns the printed value instead of printing it.
- `Config(*args, **kwargs)`: the extra constructor arguments of the dict subclass are left out, because every caller builds a `Config()` without them.
- Attribute assignment from outside: the `Valid` invariants assume callers change `data` and the settings only through the modelled methods. Code that assigns `output_filename`, `config` or `data` directly is not modelled, except that `Request` takes any prior filename.
- Filenames that are not strings: `output_filename` is `Option<string>`. Other Python types, which `'.' in` would reject with TypeError, are left out.
- Floats and dicts: `Value` has no float or dict case, so a caller's `set_option('image_width', 2.5)` and the `str()` of such a value in the URL are not modelled.
- PyValues.Repr: `repr()` of strings inside a list does not escape quotes or backslashes.
- PyStrings.Lower: lower-cases ASCII letters only. Other letters with a lower-case form are left unchanged, which is enough for the `true`/`false` comparison but not for `image_format` values outside ASCII.
- Wrapper.ValidateTimestampFallback: only the first turn of the collision loop is modelled, because that turn already raises TypeError.
