# Elementals: path resolution, example functions and scaffolding names

This project models the core of the `elementals` package and of its scaffolding
script:

- **The strict resolver** (`utils/param_paths.py`). A `$`-prefixed path such as
  `$params.items[1].val` is tokenized into names and integer indices. The tokens
  are walked from the parameter bundle one step at a time. The result is the
  value, the caller's default, a `KeyError` or a `ValueError`.
  `resolve_template` and `apply_path_map` rebuild nested dict/list/tuple
  templates under the `none`/`keep`/`error` missing-path policy.
- **The permissive resolver** (`utils/pathmap.py`). The path is scanned
  character by character and resolved as it goes. Every miss gives `None`.
  `render_template` rebuilds templates the same way but never raises and never
  flattens records.
- **The parameter bundle** (`params.py`): the records, their defaults, and the
  record value both resolvers start from.
- **The function contract** (`base.py`): characteristics with their defaults,
  the base `run` that raises `NotImplementedError`, and `run_dict`'s
  normalisation.
- **The four example functions**: `multiply`, `lcm`, `concat` and `echo`.
  Each has a missing-parameter error, a success payload and the meta dump.
  `lcm` also has its exception path, and `multiply` uses Python's `*`.
- **The scaffolding script** (`scripts/scaffold_function.py`): `to_snake`,
  `to_pascal`, the file names derived from `--name`, and the merge of the new
  function's entry into the configuration mapping.

Python values are the datatype `Values.Value`: `None`, bool, int, str, a
datetime in ticks, list, tuple, dict and pydantic record. Dicts are association
lists in insertion order. Raised exceptions are the `Failure` side of
`Values.Result`, and the `_MISSING` sentinel is `None` of `Values.Option`.
`_tokenize`, the strict `resolve_path`, the permissive `_resolve_path` and the
configuration merge are loops or in-place updates in the source. They are
modelled as methods, each proved equal to a specification function. Every
property is then proved about that function.

Where the documented design and the code differ, the model follows the code:

- `_tokenize` strips every leading `$` (`lstrip("$")`), not only one.
- On an unmatched `[` the pending name is committed first. The `[` and the rest
  of the part then become a separate name: `a[0` gives `a` and `[0`, not `a[0`.
- The strict `_get_child` indexes into a string through its generic fallback,
  giving a one-character string.
- The permissive resolver refuses negative indices and never flattens records.
- `multiply` does not catch the `TypeError` of `a * b`: that exception escapes
  `run`.

## Model

| member | source | states |
|---|---|---|
| Text.Find | packages/elementals/src/elementals/utils/param_paths.py:37 | `str.find`: -1 exactly when the character does not occur from the start position on; otherwise the first position there that holds it |
| Text.Split | packages/elementals/src/elementals/utils/param_paths.py:24 | `str.split(sep)`: the pieces hold no separator, and joined with the separator they give the string back |
| Text.LStripChar | packages/elementals/src/elementals/utils/param_paths.py:19 | `lstrip("$")` removes a prefix made only of that character, and what is left does not start with it |
| Text.StripLeftSpec | packages/elementals/src/elementals/utils/param_paths.py:19 | `lstrip()` removes a whitespace-only prefix, and what is left does not start with whitespace |
| Text.StripRightSpec | packages/elementals/src/elementals/utils/param_paths.py:19 | `rstrip()` removes a whitespace-only suffix, and what is left does not end with whitespace |
| Text.StripNoSpace | packages/elementals/src/elementals/utils/param_paths.py:42 | stripping a string without whitespace leaves it unchanged |
| Text.ParseInt | packages/elementals/src/elementals/utils/param_paths.py:44-45 | `int()` on an optional `-` followed by ASCII digits: non-positive with the sign, non-negative without it |
| Text.Decimal | packages/elementals/src/elementals/examples/concat.py:37 | `str()` of an integer is an integer literal, with no whitespace, dot or bracket |
| Text.ParseDecimal | packages/elementals/src/elementals/examples/concat.py:37 | reading the decimal text of an integer back gives the integer |
| Values.Keys | packages/elementals/src/elementals/utils/param_paths.py:136-137 | a dict's keys, one per entry, in iteration order |
| Values.Lookup | packages/elementals/src/elementals/utils/param_paths.py:80-81 | `dict.get`: absent exactly when the key is not among the keys; a found value is stored under that key |
| Values.Put | scripts/scaffold_function.py:135 | `d[k] = v`: an existing key keeps its position, a new key is added last |
| Values.PutLookup | scripts/scaffold_function.py:135 | after `d[k] = v`, `k` reads `v` and every other key reads as before |
| Values.Update | scripts/scaffold_function.py:124-134 | after `dict.update` every old key and every new key is present |
| Values.UpdateLookup | scripts/scaffold_function.py:124-134 | after `dict.update(kvs)` a key of `kvs` reads its last value there, and any other key reads as before |
| Values.UpdateDistinct | scripts/scaffold_function.py:124-134 | with distinct keys in `kvs`, each key of `kvs` reads its value there, and any other key reads as before |
| Values.Dump | packages/elementals/src/elementals/utils/param_paths.py:119-120 | `model_dump()` leaves no record anywhere and keeps a record-free value as it is; a record becomes a dict with the same keys; dict keys and list and tuple lengths are kept |
| Values.DumpChildren | packages/elementals/src/elementals/utils/param_paths.py:119-120 | `model_dump()` descends: a record's fields and a dict's entries keep name and order with each value dumped, and each list or tuple item is dumped in place |
| Values.Repeat | packages/elementals/src/elementals/examples/multiply.py:28 | a string, list or tuple times `n` keeps its kind, is `n` times as long (empty when `n <= 0`), and holds the original over and over: position `k` is the original's position `k mod len` |
| Values.Multiply | packages/elementals/src/elementals/examples/multiply.py:28 | two integers (bools count as 0 and 1) give their product; a sequence and an integer, in either order, give the sequence repeated that many times; an int result comes only from two integers; two non-integers, and every failure, give `TypeError` |
| Values.Collect | packages/elementals/src/elementals/utils/param_paths.py:137-141 | a comprehension whose elements may raise succeeds iff every element does, with one value per element; otherwise it raises the error of the first element that raises, every element before it having succeeded |
| Params.NewProcessInfo | packages/elementals/src/elementals/params.py:10-14 | only `process_id` is given; `version` is 1, and `run_id` and `source_system` are `None` |
| Params.NewEnvironment | packages/elementals/src/elementals/params.py:16-20 | the defaults: name `dev`, debug off, no region, 0 retries |
| Params.NewMeta | packages/elementals/src/elementals/params.py:5-8 | no call id, an empty config, and the timestamp the caller supplies |
| Params.NewParams | packages/elementals/src/elementals/params.py:22-27 | empty `params` and `savepoint`; no process, environment or meta |
| Params.OptStr | packages/elementals/src/elementals/params.py:13-14 | an optional string is `None` exactly when absent, and otherwise the string |
| Params.ProcessValue | packages/elementals/src/elementals/params.py:10-14 | a record whose fields are process_id, version, run_id and source_system, in that order |
| Params.EnvironmentValue | packages/elementals/src/elementals/params.py:16-20 | a record whose fields are name, debug, region and max_retries, in that order |
| Params.MetaValue | packages/elementals/src/elementals/params.py:5-8 | a record whose fields are call_id, timestamp and config, in that order |
| Params.OptProcess | packages/elementals/src/elementals/params.py:25 | the `process` field is `None` exactly when no process is set |
| Params.OptEnvironment | packages/elementals/src/elementals/params.py:26 | the `environment` field is `None` exactly when no environment is set |
| Params.OptMeta | packages/elementals/src/elementals/params.py:27 | the `meta` field is `None` exactly when no meta is set |
| Params.BundleValue | packages/elementals/src/elementals/params.py:22-27 | the bundle is a record whose fields are params, savepoint, process, environment and meta, in that order |
| Params.BundleParams | packages/elementals/src/elementals/params.py:23 | the bundle's `params` field is the params dict |
| Params.BundleSavepoint | packages/elementals/src/elementals/params.py:24 | the bundle's `savepoint` field is the savepoint dict |
| Params.BundleProcess | packages/elementals/src/elementals/params.py:25 | the bundle's `process` field is the process record, or `None` |
| Params.BundleEnvironment | packages/elementals/src/elementals/params.py:26 | the bundle's `environment` field is the environment record, or `None` |
| Params.BundleMeta | packages/elementals/src/elementals/params.py:27 | the bundle's `meta` field is the meta record, or `None` |
| Params.MetaDump | packages/elementals/src/elementals/examples/echo.py:22 | `None` exactly when there is no meta; otherwise a dict with the keys call_id, timestamp and config; never holds a record |
| ParamPaths.Tokenize | packages/elementals/src/elementals/utils/param_paths.py:17-55 | the loop over the parts returns exactly the tokens of the definition: every leading `$` dropped, whitespace stripped, split on `.`, empty parts skipped, each part scanned |
| ParamPaths.TokenizePart | packages/elementals/src/elementals/utils/param_paths.py:27-54 | the `while` loop over one part returns its tokens: names flushed at `[` and at the end; bracket contents become an index or a name; an unmatched `[` ends the part as one name |
| ParamPaths.SegmentUnmatched | packages/elementals/src/elementals/utils/param_paths.py:33-41 | at an unmatched `[` the pending name is committed, then `[` and the rest of the part form one last name |
| ParamPaths.GetChild | packages/elementals/src/elementals/utils/param_paths.py:61-96 | `None` is a miss; an index into a record or dict is a miss; a found list or tuple element is in the container; a found dict value or record field is stored under that name |
| ParamPaths.Resolve | packages/elementals/src/elementals/utils/param_paths.py:99-121 | `ValueError` exactly when the stripped path does not start with `$`; `KeyError("Path not found: …")` exactly when it does, no default is given and the walk misses; no other error; a path that resolves gives the value reached, dumped if it is a record under `dump_models`; a miss with a default gives the default |
| ParamPaths.ResolvePath | packages/elementals/src/elementals/utils/param_paths.py:110-121 | the token loop that reassigns `current` and returns at the first miss returns exactly `Resolve`'s result |
| ParamPaths.MissingDefault | packages/elementals/src/elementals/utils/param_paths.py:142-150 | a policy other than none, keep or error is a `ValueError`; exactly `error` passes no default |
| ParamPaths.ResolveItems | packages/elementals/src/elementals/utils/param_paths.py:138-141 | the items render without error iff every item does, giving each item's result in place; otherwise the error is that of the first item that raises, in order |
| ParamPaths.ResolveEntries | packages/elementals/src/elementals/utils/param_paths.py:136-137 | the same for a dict's values, each key kept in its position |
| ParamPaths.ApplyPathMap | packages/elementals/src/elementals/utils/param_paths.py:161-169 | a success is always a dict; the `TypeError` is raised exactly when the template renders to a value that is not a dict |
| ParamPaths.TemplateErrors | packages/elementals/src/elementals/utils/param_paths.py:142-155 | rendering raises nothing but the policy's `ValueError` or a path's `KeyError` |
| ParamPaths.TemplateShape | packages/elementals/src/elementals/utils/param_paths.py:135-141 | a rendered template keeps dict keys in order, list and tuple kinds and lengths, and every leaf that is not a path string |
| ParamPaths.TemplateLiterals | packages/elementals/src/elementals/utils/param_paths.py:156 | a template without path strings renders to itself under any policy |
| ParamPaths.TemplateTotal | packages/elementals/src/elementals/utils/param_paths.py:143-146 | under `none` or `keep`, rendering never raises |
| ParamPaths.TemplateBadPolicy | packages/elementals/src/elementals/utils/param_paths.py:149-150 | under an unknown policy, rendering raises the policy `ValueError` iff the template holds a path string |
| ParamPaths.TemplateErrorPolicy | packages/elementals/src/elementals/utils/param_paths.py:147-155 | under `error`, rendering fails iff some path string misses, and the failure is the `KeyError` of a path string of the template that misses |
| ParamPaths.TemplateMissingError | packages/elementals/src/elementals/utils/param_paths.py:147-155 | under `error`, a failed render raises the `KeyError` naming a path string of the template that does not resolve |
| ParamPaths.MissingPolicy | packages/elementals/src/elementals/utils/param_paths.py:142-155 | a path that does not resolve renders to `None` under none, to itself under keep, to its `KeyError` under error, and to the `ValueError` under any other policy |
| ParamPaths.FoundPolicy | packages/elementals/src/elementals/utils/param_paths.py:151-152 | a path that resolves renders to its value under every known policy, flattened when it is a record and `dump_models` is set |
| ParamPaths.ApplyPathMapDict | packages/elementals/src/elementals/utils/param_paths.py:166-169 | a dict path map gives exactly what `resolve_template` gives |
| PathMap.GetAttrOrKey | packages/elementals/src/elementals/utils/pathmap.py:7-18 | a key present in a dict wins; a record gives its field or a miss; an absent dict key or any other value is a miss |
| PathMap.Child | packages/elementals/src/elementals/utils/pathmap.py:59-65 | an index succeeds iff the value is a list or tuple and `0 <= idx < len`, and it gives that element |
| PathMap.Prepend | packages/elementals/src/elementals/utils/pathmap.py:33-49 | committed tokens go before the rest of the scan, and a failed scan stays failed |
| PathMap.ScanFlush | packages/elementals/src/elementals/utils/pathmap.py:33-49 | at a `.`, a `[` or the end, the pending name is committed before anything else |
| PathMap.CommitStep | packages/elementals/src/elementals/utils/pathmap.py:34-39 | committing a non-empty pending name is one `_get_attr_or_key` step, and a miss gives `None` |
| PathMap.DotStep | packages/elementals/src/elementals/utils/pathmap.py:33-41 | a `.` with nothing pending is skipped |
| PathMap.BracketStep | packages/elementals/src/elementals/utils/pathmap.py:50-67 | a matched bracket holding an integer literal is one index step, and the scan continues after `]` |
| PathMap.CharStep | packages/elementals/src/elementals/utils/pathmap.py:68-69 | any other character joins the pending name |
| PathMap.ResolveLoop | packages/elementals/src/elementals/utils/pathmap.py:21-76 | the character loop over `cur`, `token` and `i` returns exactly the scan-then-walk definition: `None` at the first failed step or malformed bracket, otherwise the value reached |
| PathMap.RenderItems | packages/elementals/src/elementals/utils/pathmap.py:105-108 | each item is rendered in place, and the length is kept |
| PathMap.RenderEntries | packages/elementals/src/elementals/utils/pathmap.py:103-104 | each value is rendered under its own key, in order |
| PathMap.RenderShape | packages/elementals/src/elementals/utils/pathmap.py:95-111 | a rendered template keeps dict keys in order, list and tuple kinds and lengths, and every leaf that is not a `$` string |
| PathMap.RenderLiterals | packages/elementals/src/elementals/utils/pathmap.py:109-111 | a template without `$` strings renders to itself |
| Resolvers.TokensRender | packages/elementals/src/elementals/utils/param_paths.py:17-55 | tokenizing `$` plus the canonical text of well-formed tokens gives back those tokens |
| Resolvers.PartsRender | packages/elementals/src/elementals/utils/param_paths.py:24-54 | splitting canonical text on `.` and scanning each part gives back the tokens |
| Resolvers.CanonicalIsPath | packages/elementals/src/elementals/utils/param_paths.py:12-14 | `$` followed by canonical text is a path expression |
| Resolvers.PermissiveCanonical | packages/elementals/src/elementals/utils/pathmap.py:79-92 | on canonical text, with or without the `$`, the permissive resolver walks the tokens, and a miss gives `None` |
| Resolvers.StrictCanonical | packages/elementals/src/elementals/utils/param_paths.py:110-121 | on canonical text the strict resolver walks the tokens, then applies the default, the `KeyError` or the flattening |
| Resolvers.ChildRefines | packages/elementals/src/elementals/utils/param_paths.py:61-96 | every step the permissive resolver takes, `_get_child` takes too, to the same value |
| Resolvers.WalkRefines | packages/elementals/src/elementals/utils/param_paths.py:112-118 | every walk the permissive resolver completes, the strict walk completes too, to the same value |
| Resolvers.PermissiveRefinesStrict | packages/elementals/src/elementals/utils/param_paths.py:99-121 | whatever non-`None` value the permissive resolver finds on a canonical path, the strict resolver returns too, flattened if it is a record and `dump_models` is set |
| Resolvers.NegativeIndex | packages/elementals/src/elementals/utils/param_paths.py:83-86 | a negative index counts from the end for the strict resolver and misses for the permissive one |
| Resolvers.StringIndex | packages/elementals/src/elementals/utils/param_paths.py:88-92 | the strict resolver indexes into a string and gets a one-character string; the permissive one misses |
| Resolvers.KeyBracket | packages/elementals/src/elementals/utils/param_paths.py:42-47 | non-numeric bracket text is a key for the strict tokenizer (`$a[x]` gives `a`, `x`), while the permissive scanner rejects the whole path |
| Resolvers.UnmatchedBracket | packages/elementals/src/elementals/utils/param_paths.py:33-41 | `$a[0` tokenizes to `a` and `[0`, while the permissive scanner rejects the path |
| Resolvers.ExtraDollar | packages/elementals/src/elementals/utils/param_paths.py:19 | the strict tokenizer drops every leading `$` |
| Resolvers.NoDollarField | packages/elementals/src/elementals/params.py:22-27 | no bundle field name starts with `$`, so both resolvers miss such a name at the root |
| Resolvers.DoubleDollar | packages/elementals/src/elementals/utils/pathmap.py:90-92 | `$$path` is `path` for the strict tokenizer; the permissive resolver drops only one `$`, looks for a field named `$…` and returns `None` |
| Resolvers.DollarOnly | packages/elementals/src/elementals/utils/param_paths.py:19-21 | a bare `$` has no tokens; the strict resolver returns the whole bundle (flattened under `dump_models`), and the permissive resolver returns the bundle |
| Resolvers.PaddedText | packages/elementals/src/elementals/utils/param_paths.py:19 | `lstrip("$")` leaves ` $…` alone and `strip()` then removes only the space |
| Resolvers.PaddedPath | packages/elementals/src/elementals/utils/param_paths.py:12-21 | a path with a space before its `$` passes `_is_path_expr` but keeps the `$` on its first name, so without a default it raises `KeyError` |
| Resolvers.EnvironmentFlattened | packages/elementals/src/elementals/utils/param_paths.py:119-120 | `$environment` gives the environment record from the permissive resolver and from the strict one without `dump_models`; with `dump_models` it gives a dict whose `name` is the environment's name |
| Responses.SuccessDict | packages/elementals/src/elementals/examples/multiply.py:29-33 | the success dict reads status `success`, the data and the meta, and has no `error` |
| Responses.ErrorDict | packages/elementals/src/elementals/examples/multiply.py:22-27 | the error dict reads status `error`, data `None`, the meta, and an error item with the given code and message |
| Responses.ErrorItem | packages/elementals/src/elementals/responses.py:6-9 | the error item reads the given code and message |
| Responses.SuccessIsResponse | packages/elementals/src/elementals/responses.py:11-15 | with meta `None` or a dict, the success dict has the `ElementalResponse` shape |
| Responses.ErrorIsResponse | packages/elementals/src/elementals/responses.py:6-15 | with meta `None` or a dict, the error dict has the `ElementalResponse` shape, with an `ErrorItem` of string code and message |
| Base.ParseRole | packages/elementals/src/elementals/enums.py:3-10 | a role read from a string has that string as its value |
| Base.ParseSync | packages/elementals/src/elementals/enums.py:12-14 | a sync type read from a string has that string as its value |
| Base.ParseResource | packages/elementals/src/elementals/enums.py:16-20 | a resource type read from a string has that string as its value |
| Base.ParseDuration | packages/elementals/src/elementals/enums.py:22-25 | a duration class read from a string has that string as its value |
| Base.RoleRoundTrip | packages/elementals/src/elementals/enums.py:3-10 | every role is read back from its value, so no two roles share a value |
| Base.SyncRoundTrip | packages/elementals/src/elementals/enums.py:12-14 | every sync type is read back from its value |
| Base.ResourceRoundTrip | packages/elementals/src/elementals/enums.py:16-20 | every resource type is read back from its value |
| Base.DurationRoundTrip | packages/elementals/src/elementals/enums.py:22-25 | every duration class is read back from its value |
| Base.NewCharacteristics | packages/elementals/src/elementals/base.py:10-17 | name, description and role are stored; sync, resource type and duration default to sync, cpu and short |
| Base.NewFunction | packages/elementals/src/elementals/base.py:24-25 | the constructor stores the characteristics unchanged |
| Base.BaseRun | packages/elementals/src/elementals/base.py:27-29 | the base `run` always raises `NotImplementedError` |
| Base.RunDict | packages/elementals/src/elementals/base.py:31-43 | an exception from `run` passes through; a dict comes back unchanged; a record becomes its field mapping; anything else raises `TypeError`; every success is a dict |
| Base.RunDictIdempotent | packages/elementals/src/elementals/base.py:37-43 | normalising twice is the same as normalising once |
| Base.RunDictSucceeds | packages/elementals/src/elementals/base.py:37-43 | `run_dict` succeeds iff `run` returned a dict or a record |
| MultiplyFunction.Payload | packages/elementals/src/elementals/examples/multiply.py:31 | the data reads `a`, `b` and `product` |
| MultiplyFunction.Run | packages/elementals/src/elementals/examples/multiply.py:18-33 | a missing or `None` operand gives `missing_param` with data `None`; otherwise the payload holds both operands and their product, or the product's `TypeError` escapes; every answer carries the meta dump and is a valid response |
| MultiplyFunction.IntegerProduct | packages/elementals/src/elementals/examples/multiply.py:28-33 | two integer operands give success with their integer product |
| MultiplyFunction.ZeroIsGiven | packages/elementals/src/elementals/examples/multiply.py:21 | 0 counts as given, not missing, and the product is 0 |
| MultiplyFunction.ThreeTimesFour | packages/elementals/tests/test_multiply.py:4-12 | `a = 3`, `b = 4` gives the payload 3, 4, 12 |
| MultiplyFunction.MissingReported | packages/elementals/tests/test_multiply.py:14-20 | an absent `b` reports `missing_param` |
| LcmFunction.Gcd | packages/elementals/src/elementals/examples/lcm.py:37 | `math.gcd` of the magnitudes is 0 iff both are 0 |
| LcmFunction.GcdDivides | packages/elementals/src/elementals/examples/lcm.py:37 | the gcd divides both numbers |
| LcmFunction.GcdGreatest | packages/elementals/src/elementals/examples/lcm.py:37 | every common divisor divides the gcd |
| LcmFunction.Bezout | packages/elementals/src/elementals/examples/lcm.py:37 | the gcd is an integer combination of the two numbers |
| LcmFunction.LcmOf | packages/elementals/src/elementals/examples/lcm.py:37 | `abs(a*b) // gcd(a, b)` raises `ZeroDivisionError` iff both are 0, and is never negative |
| LcmFunction.LcmZero | packages/elementals/src/elementals/examples/lcm.py:37 | exactly one zero operand gives 0 |
| LcmFunction.LcmShape | packages/elementals/src/elementals/examples/lcm.py:37 | for non-zero operands the division is exact, and the result is `\|a\|` times `\|b\| / gcd` |
| LcmFunction.LcmCommonMultiple | packages/elementals/src/elementals/examples/lcm.py:37 | for non-zero operands the result is positive, a multiple of `\|a\|` and `\|b\|`, and divides `\|a*b\|` |
| LcmFunction.LcmLeast | packages/elementals/src/elementals/examples/lcm.py:37 | every common multiple of `a` and `b` is a multiple of the result |
| LcmFunction.LcmValue | packages/elementals/src/elementals/examples/lcm.py:37 | two integers give `LcmOf`'s result or its exception; any other operand gives `TypeError` |
| LcmFunction.Payload | packages/elementals/src/elementals/examples/lcm.py:40 | the data reads `lcm` |
| LcmFunction.Run | packages/elementals/src/elementals/examples/lcm.py:26-49 | never raises, and always answers a valid response with the meta dump; a missing operand gives `missing_param`; an exception gives code `exception` with its message and data `None`; otherwise the payload holds the lcm |
| LcmFunction.BothZero | packages/elementals/src/elementals/examples/lcm.py:36-49 | `a = b = 0` reports `exception` with the division-by-zero message and data `None` |
| LcmFunction.IntegerLcm | packages/elementals/src/elementals/examples/lcm.py:37-42 | non-zero integers give success with a positive common multiple of both |
| LcmFunction.SixAndEight | packages/elementals/tests/test_lcm.py:4-8 | the lcm of 6 and 8 is 24 |
| LcmFunction.MissingReported | packages/elementals/tests/test_lcm.py:10-14 | an absent `b` reports `missing_param` |
| ConcatFunction.Format | packages/elementals/src/elementals/examples/concat.py:37 | a string formats as itself; an integer formats as a decimal literal that reads back as the integer |
| ConcatFunction.Payload | packages/elementals/src/elementals/examples/concat.py:40 | the data reads `text1`, `text2` and `concat` |
| ConcatFunction.Run | packages/elementals/src/elementals/examples/concat.py:27-42 | a missing or `None` text gives `missing_param` with data `None`; otherwise the payload holds both inputs and their formatted concatenation; every answer is a valid response with the meta dump |
| ConcatFunction.StringConcat | packages/elementals/tests/test_concat.py:4-11 | for two strings, `concat` has length `\|t1\| + \|t2\|`, starts with `t1` and ends with `t2` |
| ConcatFunction.EmptyIsGiven | packages/elementals/src/elementals/examples/concat.py:30 | an empty string counts as given, not missing |
| ConcatFunction.IntegerFormatted | packages/elementals/src/elementals/examples/concat.py:37 | an integer `text1` is written in decimal ahead of `text2`, and that prefix reads back as the integer |
| ConcatFunction.MissingReported | packages/elementals/tests/test_concat.py:14-19 | an absent `text2` reports `missing_param` |
| EchoFunction.Payload | packages/elementals/tests/test_echo.py:4-10 | `echo` holds the bundle's params and `savepoint` holds its savepoint |
| EchoFunction.Run | packages/elementals/src/elementals/examples/echo.py:18-23 | always a valid success response, with no error, the echo payload and the meta dump |
| Elementals.Characteristics | packages/elementals/src/elementals/examples/echo.py:9-16 | multiply and echo carry their fixed characteristics; the others carry the ones they were built with |
| Elementals.Run | packages/elementals/src/elementals/base.py:27-29 | each class answers with its own `run`, and the base class with the raising one |
| Elementals.RunDict | packages/elementals/src/elementals/base.py:31-43 | every success of the inherited `run_dict` is a dict |
| Elementals.ExamplesRunDict | packages/elementals/src/elementals/base.py:41-42 | the examples return dicts, so `run_dict` returns `run`'s result, and every success is a valid response |
| Elementals.OnlyMultiplyRaises | packages/elementals/src/elementals/examples/lcm.py:36-49 | lcm, concat and echo always answer with a dict |
| Elementals.AbstractRaises | packages/elementals/src/elementals/base.py:27-29 | `run_dict` on the base class raises `NotImplementedError` |
| Scaffold.Remove | scripts/scaffold_function.py:29-36 | dropping characters never lengthens a string and leaves none of them |
| Scaffold.RemoveAppend | scripts/scaffold_function.py:29-36 | dropping characters distributes over concatenation |
| Scaffold.CamelSplit | scripts/scaffold_function.py:30 | the first substitution never shortens the name and keeps its first character |
| Scaffold.HumpSplit | scripts/scaffold_function.py:31 | the second substitution never shortens the name and keeps its first character |
| Scaffold.ToSnake | scripts/scaffold_function.py:29-31 | the output has no capital, and it starts with the input's first character lower-cased |
| Scaffold.CamelSplitInserts | scripts/scaffold_function.py:30 | the first substitution only inserts underscores |
| Scaffold.HumpSplitInserts | scripts/scaffold_function.py:31 | the second substitution only inserts underscores |
| Scaffold.ToSnakeLetters | scripts/scaffold_function.py:29-31 | with underscores removed, the output is the lower-cased input with underscores removed |
| Scaffold.CamelSplitNoUpper | scripts/scaffold_function.py:30 | a name without capitals is unchanged by the first substitution |
| Scaffold.HumpSplitNoUpper | scripts/scaffold_function.py:31 | a name without capitals is unchanged by the second substitution |
| Scaffold.ToSnakeNoUpper | scripts/scaffold_function.py:29-31 | a name without capitals comes back unchanged |
| Scaffold.ToSnakeIdempotent | scripts/scaffold_function.py:29-31 | converting twice is the same as converting once |
| Scaffold.CamelTwo | scripts/scaffold_function.py:30 | two capitalised words get one underscore between them |
| Scaffold.HumpTwo | scripts/scaffold_function.py:31 | the second substitution finds nothing more to split in two joined words |
| Scaffold.TwoWords | scripts/scaffold_function.py:29-31 | two capitalised words come out lower-cased and joined by one underscore |
| Scaffold.ModuleFile | scripts/scaffold_function.py:140 | the module file is the snake-case name plus `.py` |
| Scaffold.TestFile | scripts/scaffold_function.py:155 | the test file is `test_`, the snake-case name and `.py` |
| Scaffold.SumNames | scripts/scaffold_function.py:6 | `Sum` gives module `sum` and the files `sum.py` and `test_sum.py` |
| Scaffold.WordLen | scripts/scaffold_function.py:35 | the longest separator-free prefix |
| Scaffold.SepRun | scripts/scaffold_function.py:35 | the longest run of separators at the start, at least one when the string starts with one |
| Scaffold.SepSplit | scripts/scaffold_function.py:35 | `re.split` on separator runs gives at least one piece, and no piece holds a separator |
| Scaffold.FlattenSepSplit | scripts/scaffold_function.py:35 | the pieces put together are the input without its separators |
| Scaffold.SplitTwo | scripts/scaffold_function.py:35 | two words around a run of separators split into exactly those two words |
| Scaffold.Capitalize | scripts/scaffold_function.py:36 | `capitalize` keeps the length and adds no separator; the first character is upper-cased and every later one lower-cased |
| Scaffold.CapitalizeLower | scripts/scaffold_function.py:36 | `capitalize` changes case only |
| Scaffold.Pascal | scripts/scaffold_function.py:36 | the join of the capitalised non-empty pieces holds no separator |
| Scaffold.PascalLower | scripts/scaffold_function.py:36 | lower-cased, the join is the lower-cased concatenation of the pieces |
| Scaffold.PascalTwo | scripts/scaffold_function.py:36 | two non-empty pieces join as their capitalisations |
| Scaffold.ToPascal | scripts/scaffold_function.py:34-36 | the output holds no `_`, `-` or whitespace |
| Scaffold.ToPascalLetters | scripts/scaffold_function.py:34-36 | lower-cased, the output is the lower-cased input without its separators |
| Scaffold.ToPascalAllSeps | scripts/scaffold_function.py:34-36 | a name made only of separators gives the empty name |
| Scaffold.TwoParts | scripts/scaffold_function.py:34-36 | two words around a run of separators give the two words capitalised and joined |
| Scaffold.SumTwoPascal | scripts/scaffold_function.py:34-36 | `sum_two` gives `SumTwo` |
| Scaffold.FixedEntries | scripts/scaffold_function.py:124-134 | the nine fixed entries have distinct keys |
| Scaffold.FixedValues | scripts/scaffold_function.py:124-134 | the fixed entries hold the name, the description, the module path, the class name, `enabled`, and the role, sync, resource and duration strings; those strings read back as business action, sync, cpu and short |
| Scaffold.MergeEntry | scripts/scaffold_function.py:118-135 | `AttributeError` exactly when the existing entry is truthy but not a mapping; otherwise the key set is the old one, plus the function's name when it was absent |
| Scaffold.MergeKeepsOthers | scripts/scaffold_function.py:135 | every other configuration entry is unchanged |
| Scaffold.MergeEntryFields | scripts/scaffold_function.py:119-134 | the new entry holds the nine fixed values, and every other key of the existing entry with its old value |
| Scaffold.Config.constructor | scripts/scaffold_function.py:118 | the mapping holds the loaded configuration unchanged |
| Scaffold.Config.Merge | scripts/scaffold_function.py:118-135 | the in-place merge stores exactly `MergeEntry`'s mapping, or raises its `AttributeError` and leaves the mapping untouched |

## Left out

- Generic Python attribute access. Attribute access covers only the declared
  fields of a record. Both resolvers' fallbacks that reach other attributes are
  left out: `getattr`/item access on other objects, the `model_dump` fallback,
  and built-in methods such as `params.items` on a dict without an `items` key.
- Python parsing leniency. Bracket indices are ASCII `-?[0-9]+` in both
  resolvers. Unicode digits accepted by `str.isdigit`, and the `+`, `_` and
  inner whitespace accepted by `int()`, are not modelled.
- Floats and bytes are not modelled.
- `ConcatFunction.Run`: requires both texts to be `None`, a bool, an int or a
  string. `str()` of containers, records and datetimes is not spelled out.
- `Elementals.Run`: carries the same requirement for the concatenation.
- Lower-casing, upper-casing, `capitalize` and whitespace are ASCII only.
- Dict keys are strings.
- `Meta.timestamp`'s default reads the clock. The caller supplies the timestamp
  as ticks.
- The constructors that read the configuration file (`load_config`) are I/O.
  The fixed characteristics are constants, and the configured ones are
  parameters.
- The loader's import of a function class by name is reflection. The closed
  `Elementals.Elemental` datatype stands in for it.
- In `main` of the scaffolding script, these are left out: argparse (including
  the parsed but unused `--module`), `load_yaml`/`save_yaml`, the directory and
  file writes with their `--force` check, the printed messages and the file
  templates. YAML's key sorting on save is output formatting.
- `main` derives the configuration name and class name with `to_pascal`, and
  the module name with `to_snake`. `Scaffold.Config.Merge` takes all three as
  parameters.
- `Scaffold.Config.Merge`: the source updates the existing entry object in
  place before storing it back. Aliasing of that object from elsewhere in the
  mapping is not modelled.
- Exception messages are modelled where the source fixes them:
  `Base.RunDict`'s `TypeError` prints an approximation of `repr(type(...))`, and
  the `TypeError` texts of `*` and `abs` follow CPython's wording without being
  relied on.
- The `__main__` JSON print in `echo.py` is left out.
- The `details` field of an error item is never set by the examples and is left
  out.
- Python integers are unbounded, so there is no wrap-around to model.
