# cargo-port: manifest parsing, report building and package verification

cargo-port mirrors the software packages listed in a tab-separated
manifest and checks the local copies. Each data line names a package by
`id`, `version`, `platform`, `arch`, with its upstream `url`, its file
extension `ext`, its SHA-256 digest and a flag that says whether to
prefer the upstream URL over the mirror at
`https://depot.galaxyproject.org/software/`. Lines starting with `#` are
comments.

This project models two scripts of the repository in Dafny and proves
properties about them:

- `bin/verify.py`: its own manifest parser; the xUnit report builder; the
  hash check, which removes a bad file unless in dry-run mode; the
  file-type check; and `main`. `main` walks the records over a
  filesystem, records failures in the report and ends with
  `sys.exit(0)`. Modules `VerifyManifest`, `XUnit` and `Verify`.
- `cargoport/utils.py`: its manifest parser, which strips lines and keeps
  a sticky status code; the package name; the depot and download URLs;
  and a hash check that only reports. Module `CargoportUtils`.

The modules shared by both:
- `Common`: the Python exceptions that matter, as a `Result`.
- `Text`: `str.split`, `'\t'.join`, `str.strip`, `lower` and decimal
  numbers.
- `Host`: the filesystem as a map from existing paths to files or
  directories, `os.path.join`, `os.unlink`, and the output of an external
  tool.
- `Manifest`: comment lines, the `zip` dict, and `package_to_path`.

The form follows the code:
- The two `yield_packages` loops are methods with loop invariants. They
  are proved against `DataLines` and `YieldAt`.
- `XUnitReportBuilder` is a class. Its methods are proved against the
  function `Apply` on the builder's abstract state `Data()`.
- `main` is the method `Verify.RunManifest`. It drives the class over the
  parsed records and is proved equal to the function `Verify.Run`. Every
  property of a run is proved about `Run`.
- The name, URL and hash functions are functions.

Behaviour of the code as written that a reader may not expect, which the
model keeps:
- `error` and `failure` raise only `total`. The `errors` and `failures`
  counters stay 0 (`XUnit.FromEmpty`).
- A package whose checks pass adds no test case (`Verify.MatchAddsNoCase`).
- A row with the wrong column count is still yielded, as a partial record.
- `cleanup_file` is never defined, so an empty file ends `main` with a
  `NameError` (`Verify.EmptyFileRaises`). No `EmptyFile` failure is ever
  recorded.
- Exceptions are not caught at the record boundary:
  - a missing `ext`, `url` or `sha` column raises `KeyError`;
  - a failing `file` tool raises `CalledProcessError`;
  - a failing `os.unlink` raises `OSError`.

  Each of these ends the run with no report (`Verify.RunOutcome.Crashed`).

## Model

| member | source | states |
|---|---|---|
| Text.JoinSplit | bin/verify.py:26 | joining the pieces of `s.split(c)` with `c` gives back `s` |
| Text.SplitJoin | bin/verify.py:26 | splitting the join of separator-free pieces gives back exactly those pieces |
| Text.SplitWithTail | bin/verify.py:26 | splitting a join followed by a separator-free tail gives the pieces, with the tail glued to the last one |
| Text.TrimStartSpec | cargoport/utils.py:21 | `lstrip()` keeps the longest suffix that does not start with whitespace, and everything it cuts off is whitespace |
| Text.TrimEndSpec | cargoport/utils.py:21 | `rstrip()` keeps the longest prefix that does not end with whitespace, and everything it cuts off is whitespace |
| Text.StripSpec | bin/verify.py:22 | `strip()` removes a whitespace-only prefix and suffix and nothing else: the result is a slice of the input with no whitespace at either end |
| Text.StripIdempotent | cargoport/utils.py:21 | stripping twice is stripping once |
| Text.StripNewline | cargoport/utils.py:21 | stripping a line with no padding but its final newline gives the line without the newline |
| Text.LowerEqual | bin/verify.py:91 | two strings are equal after `lower()` exactly when they have the same length and agree position by position up to case |
| Text.DecimalRoundTrip | bin/verify.py:38 | the decimal text written for a counter reads back as that counter |
| Text.JoinFour | bin/verify.py:119 | joining four parts puts the separator between each neighbouring pair and nowhere else |
| Host.Unlink | bin/verify.py:97 | `os.unlink` succeeds exactly on an existing file, removes that path alone and keeps every other entry; otherwise it raises OSError for the path |
| Host.PathJoin | bin/verify.py:137 | `os.path.join` ends with its second argument; an absolute second argument replaces the first; otherwise the first argument precedes it unchanged when it is empty or ends in '/', and followed by one '/' when it does not |
| Manifest.DataLines | bin/verify.py:18-20 | the data lines are exactly the lines not starting with '#', in strictly increasing order |
| Manifest.ZipSpec | bin/verify.py:26 | with distinct keys, the dict comprehension over `zip` holds exactly the first min(keys, fields) keys, each bound to the field at its position |
| Manifest.PackageToPathDefinition | bin/verify.py:118-119 | `package_to_path(**ld)` is id + "_" + version + "_" + platform + "_" + arch, with "" for an absent key |
| Manifest.PackageToPathIgnoresOthers | bin/verify.py:118-119 | changing `ext` or any column other than the four naming ones leaves the result unchanged |
| Manifest.PackageToPathSplits | cargoport/utils.py:63-64 | when no naming field contains '_', splitting the result on '_' gives back the four fields |
| VerifyManifest.YieldPackages | bin/verify.py:16-33 | the parse yields one item per data line, in order, each the record of that line (with, in meta mode, its 0-based number, its text and the status code passed in) |
| VerifyManifest.YieldsFollowDataLines | bin/verify.py:18-31 | every non-comment line gives exactly one item carrying its own record, comment lines give none, items follow input order, and in meta mode the status code is always the one passed in |
| VerifyManifest.OnlyCommentsYieldNothing | bin/verify.py:18-20 | a manifest of comments alone has no data line |
| VerifyManifest.KeysDistinct | bin/verify.py:17 | the eight column names are distinct |
| VerifyManifest.RecordShape | bin/verify.py:22-26 | whatever its column count, a row's record holds exactly min(8, field count) keys, taken positionally from the unstripped `line.split('\t')` |
| VerifyManifest.LastFieldKeepsNewline | bin/verify.py:26 | for a well-formed line ending in a newline, `use_upstream` is the last field with the newline still on it |
| CargoportUtils.YieldPackages | cargoport/utils.py:16-33 | the parse yields one item per data line, in order, each the record of the stripped split, in meta mode with the status code as it stands after that line |
| CargoportUtils.YieldsUpToSpec | cargoport/utils.py:17-31 | the items the first n lines give are those of the data lines among them, in order, one each |
| CargoportUtils.RetcodeStep | cargoport/utils.py:22-24 | one more line sets the status code to 1 when it is a data line with the wrong column count, and leaves it as it was otherwise |
| CargoportUtils.RetcodeSticky | cargoport/utils.py:22-24 | once a data line with the wrong column count is seen, the status code is 1 for that line and every later one |
| CargoportUtils.RetcodeKept | cargoport/utils.py:16-29 | with no malformed data line so far, the status code is still the initial value |
| CargoportUtils.HeaderKeysDistinct | cargoport/utils.py:12 | the eight header keys are distinct |
| CargoportUtils.RecordShape | cargoport/utils.py:21-26 | a row's record holds exactly min(8, field count) keys, taken positionally from the stripped split |
| CargoportUtils.LastFieldStripped | cargoport/utils.py:21-26 | for a line made of eight tab-free fields joined by tabs and ended by a newline, whose first field does not start and whose last field does not end with whitespace, `upstream_first` is the last field without the newline; the whole line is stripped, so outer whitespace of those two fields would be lost too |
| CargoportUtils.PackageNameIsPathPlusExt | cargoport/utils.py:36-37 | `package_name` succeeds exactly when id, version, platform, arch and ext are all present, and then equals `package_to_path(**ld) + ld['ext']`; otherwise it raises KeyError for the first missing one |
| CargoportUtils.DepotUrlIsServerIdName | cargoport/utils.py:40-41 | `depot_url` is the package server, the id, '/', then the package name; it fails exactly when `package_name` does, with the same KeyError |
| CargoportUtils.FullRecordResolves | cargoport/utils.py:36-48 | a record holding every header key never raises in the three derivations; its URL is `url` when `upstream_first` is "True" and the depot URL otherwise |
| CargoportUtils.GetUrlChoice | cargoport/utils.py:44-48 | `get_url` is the upstream URL verbatim when `upstream_first` is exactly "True", and the depot URL for any other value |
| CargoportUtils.WellFormedRowResolves | cargoport/utils.py:21-48 | a row with eight fields never raises in `package_name`, `depot_url` or `get_url`, and the URL is field 4 when field 7 is "True", the depot URL built from its fields otherwise |
| CargoportUtils.VerifyFileOutcome | cargoport/utils.py:67-78 | `verify_file` returns None exactly when the tool succeeded and its stripped first-64-character digest matches `sha` up to case; a mismatch gives "<actual> != <expected> in <path>" in lower case; a tool failure gives its message |
| XUnit.ApplyAllSpec | bin/verify.py:60-81 | each builder call raises `total` by one and appends one entry, existing entries untouched and new ones in call order; `skips` rises by the number of skips; `errors` and `failures` never change |
| XUnit.FromEmpty | bin/verify.py:54-77 | from a fresh builder, after any calls, the case list has `total` entries, `errors` and `failures` are 0, and `skips` counts the skip calls |
| XUnit.EntryShapes | bin/verify.py:62-77 | `error` and `failure` with the same arguments append the same entry; `ok` and `skip` append a case with an empty error block |
| XUnit.ReadCountsRender | bin/verify.py:83-85 | the serialized suite declares exactly the builder's `tests`, `errors`, `failures` and `skip` counters, read back from the text |
| XUnit.XUnitReportBuilder.constructor | bin/verify.py:54-58 | a new builder has every counter 0 and no case |
| XUnit.XUnitReportBuilder.Ok | bin/verify.py:60-62 | `ok` moves the builder's state by one ok call and keeps the one-entry-per-call invariant |
| XUnit.XUnitReportBuilder.Error | bin/verify.py:64-67 | `error` moves the builder's state by one error call and keeps the invariant |
| XUnit.XUnitReportBuilder.Failure | bin/verify.py:69-72 | `failure` moves the builder's state by one failure call and keeps the invariant |
| XUnit.XUnitReportBuilder.Skip | bin/verify.py:74-77 | `skip` moves the builder's state by one skip call and keeps the invariant |
| XUnit.XUnitReportBuilder.AddTest | bin/verify.py:79-81 | `__add_test` appends one rendered case and changes nothing else |
| XUnit.XUnitReportBuilder.Serialize | bin/verify.py:83-85 | `serialize` returns the rendering of the current state, sets the joined cases, and leaves the counters and case list alone |
| XUnit.CallsThenSerializeTwice | bin/verify.py:60-85 | a builder driven through any calls and then serialized twice returns the same text both times, the rendering of those calls applied in order |
| Verify.HashError | bin/verify.py:89-93 | the exception `verify_file` catches is absent exactly when the tool succeeded and its digest matches `sha` ignoring case |
| Verify.HashErrorText | bin/verify.py:90-92 | digests match exactly when they agree character by character up to case; a mismatch reads "Bad hash, <actual> != <expected> in <path>", with both digests lower-cased, and a tool failure reads as its own message |
| Verify.VerifyFileOutcome | bin/verify.py:88-98 | a matching digest gives None and leaves the filesystem alone; otherwise the caught message is returned, and the file is removed exactly when not in dry-run mode; OSError is raised when a removal is due but the path is not a file |
| Verify.VerifyFiletype | bin/verify.py:101-105 | `verify_filetype` never returns an error; it raises exactly when the `file` tool fails |
| Verify.RecordsHaveId | bin/verify.py:131-134 | every record the parser yields has an `id`, so `ld['id']` never raises |
| Verify.MissingIsSkipped | bin/verify.py:134-140 | a record whose `id` directory or output file does not exist changes nothing: no case and no visited path |
| Verify.EmptyFileRaises | bin/verify.py:144-146 | an existing empty output file makes `main` raise NameError for `cleanup_file` |
| Verify.MatchAddsNoCase | bin/verify.py:142-155 | a non-empty file whose digest matches and whose type check runs only adds its path to the visited list |
| Verify.MismatchAddsFailure | bin/verify.py:149-151 | a non-empty file with a bad digest adds one ValidationError failure named by `package_to_path`, is visited, and is removed unless in dry-run mode |
| Verify.ReportedExtends | bin/verify.py:150-155 | recording a `verify_*` error appends one ValidationError failure counted in `total`, and recording None changes nothing |
| Verify.CheckOutputExtends | bin/verify.py:144-155 | the checks on an existing output file only append ValidationError failures and visited paths, and only ever remove files, none in dry-run mode; this holds even when they raise |
| Verify.StepExtends | bin/verify.py:131-155 | one record only appends ValidationError failures, each counted in `total`; it keeps `errors`, `failures` and `skips`, only appends visited paths, and only removes files (none in dry-run mode), even when it raises |
| Verify.RunFromExtends | bin/verify.py:131-155 | the same holds for the whole record loop, over any records |
| Verify.ExtendsInitial | bin/verify.py:128-129 | after any records, a report that started from the liveness case keeps it first, holds only ValidationError failures after it, counts every case in `total` and has 0 errors, failures and skips |
| Verify.RunReport | bin/verify.py:127-159 | a completed run exits with 0 and writes a report whose first case is "I.Am.Alive", whose other cases are all ValidationError failures, and which declares `tests` = number of cases with 0 errors, failures and skips; no run creates or changes a file of the modelled tree, and a dry run removes none |
| Verify.NoDataLines | bin/verify.py:126-159 | a manifest with no data line exits with 0 after a report of the liveness case alone, `tests="1"`; it visits nothing and touches no file of the modelled tree |
| Verify.InitialCases | bin/verify.py:128-129 | before any record, the report holds the single case "I.Am.Alive" with an empty error block |
| Verify.InitialCounts | bin/verify.py:128-129 | before any record, the serialized report declares `tests="1"` and 0 errors, failures and skips |
| Verify.ItemsAreRecords | bin/verify.py:131 | the items the parser yields to `main` are plain records, one per data line, in order |
| Verify.ProcessRecord | bin/verify.py:132-155 | the loop body, run on the builder, ends in exactly the state or the exception the one-record function gives |
| Verify.RunManifest | bin/verify.py:122-159 | `main`, run imperatively over the parsed records and the builder, gives exactly the outcome of `Run` |

## Left out

- Subprocesses: `sha256sum`, `file --mime-type`, `curl` and `ln -s` are not run. The first two are function parameters from a path to the tool's output or to its failure message.
- `download_url` and `symlink_depot` are out. They are wrappers around one subprocess call and nothing in the modelled code calls them.
- Logging: every `log.*` call and `logging.basicConfig` is left out. They only write to the console.
- Files: opening the manifest is out; the model takes its lines. Writing `report.xml` is out; the model returns its text.
- Paths: `os.path.abspath` on visited paths is not modelled. The visited list holds the joined relative path.
- Laziness: the generators are modelled as the sequence they yield, so laziness is not captured. Both parsers are consumed whole.
- The `builtins` imports that adapt Python 2 to Python 3 are left out.
- The `except` in both `yield_packages`: nothing in the body can raise on a line of text, so that branch is not modelled.
- Verify.VerifyFile: compares the digest as text. Under Python 3 `check_output` returns bytes, and bytes never equal the `str` digest, so every check would fail. The model gives the comparison the evidently intended string meaning.
- CargoportUtils.VerifyFile: same bytes-versus-str simplification as `Verify.VerifyFile`.
- XUnit.Render: leaves out the indentation of the XML templates and uses newlines only. The code does no XML escaping, and neither does the model.
- Text.Lower: models `lower()` on ASCII letters only. Other characters are left unchanged, where Python would also lower non-ASCII letters.
- Directories: a directory's size is an input, as `os.path.getsize` reports it; nothing else about a directory is modelled.
- Text.IsSpace: follows Python 3 `str.isspace`. Under Python 2, `strip()` on a byte string removes only ASCII whitespace; that variant is not modelled.
- Host.Tree: keys are path strings as written, with no normalisation. Aliases such as "./a/x" and "a/x" are different entries, and unlinking one leaves the other.
- Verify.VerifyFiletype: every `Failed` run of `file` is reported as CalledProcessError. A tool that cannot be started raises FileNotFoundError (an OSError) in Python; the model does not tell the two apart.
- Verify.Run: the external tools are pure functions of the path. Two runs of a tool on the same path see the same output.
