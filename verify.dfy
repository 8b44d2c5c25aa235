/** bin/verify.py: the hash and type checks and the `main` loop that runs
    them over the manifest, against an abstract filesystem and abstract
    tool outputs. */
module Verify {
  import opened Common
  import opened Text
  import opened Host
  import opened Manifest
  import opened XUnit
  import VerifyManifest

  /** The digest read from `sha256sum` equals `sha` ignoring case. */
  predicate HashMatches(sha: string, run: ToolRun) {
    run.Output? && Lower(HashDigest(run.text)) == Lower(sha)
  }

  /** The text of the exception `verify_file` catches, if one is raised:
      the tool's own failure, or the mismatch it raises itself. */
  function HashError(path: string, sha: string, run: ToolRun): (r: Option<string>)
    ensures r.None? <==> HashMatches(sha, run)
  {
    match run
    case Failed(message) => Some(message)
    case Output(text) =>
      var fileHash := Lower(HashDigest(text));
      if fileHash != Lower(sha) then Some("Bad hash, " + fileHash + " != " + Lower(sha) + " in " + path)
      else None
  }

  /** `verify_file(path, sha, dryrun)`: None when the digest matches.
      Otherwise the text of the exception caught, after removing the file
      unless `dryrun`; a failing `os.unlink` raises out of the function. */
  function VerifyFile(path: string, sha: string, dryrun: bool, run: ToolRun, fs: Tree): Result<(Option<string>, Tree)> {
    var err := HashError(path, sha, run);
    if err.None? || dryrun then Ok((err, fs))
    else
      var removed :- Unlink(fs, path);
      Ok((err, removed))
  }

  /** The digests match exactly when they have the same length and agree
      character by character up to case; a mismatch is reported as "Bad
      hash, <actual> != <expected> in <path>", both digests lower-cased. */
  lemma HashErrorText(path: string, sha: string, run: ToolRun)
    ensures HashMatches(sha, run) <==>
              run.Output? && |HashDigest(run.text)| == |sha| &&
              forall i :: 0 <= i < |sha| ==> LowerChar(HashDigest(run.text)[i]) == LowerChar(sha[i])
    ensures !HashMatches(sha, run) ==>
              HashError(path, sha, run) ==
                Some(if run.Failed? then run.message
                     else "Bad hash, " + Lower(HashDigest(run.text)) + " != " + Lower(sha) + " in " + path)
  {
    if run.Output? {
      LowerEqual(HashDigest(run.text), sha);
    }
  }

  /** A matching digest passes and leaves the filesystem as it was; anything
      else is reported, and the file is removed exactly when `dryrun` is
      false (a path that is not a removable file then raises OSError). */
  lemma VerifyFileOutcome(path: string, sha: string, dryrun: bool, run: ToolRun, fs: Tree)
    ensures HashMatches(sha, run) ==> VerifyFile(path, sha, dryrun, run, fs) == Ok((None, fs))
    ensures !HashMatches(sha, run) && dryrun ==>
              VerifyFile(path, sha, dryrun, run, fs) == Ok((HashError(path, sha, run), fs))
    ensures !HashMatches(sha, run) && !dryrun && path in fs && fs[path].File? ==>
              VerifyFile(path, sha, dryrun, run, fs) == Ok((HashError(path, sha, run), fs - {path}))
    ensures !HashMatches(sha, run) && !dryrun && !(path in fs && fs[path].File?) ==>
              VerifyFile(path, sha, dryrun, run, fs) == Raised(OSError(path))
  {
  }

  /** `verify_filetype(path, ext, dryrun)`: runs `file --mime-type`, whose
      failure is not caught, and otherwise returns None. */
  function VerifyFiletype(path: string, ext: string, dryrun: bool, run: ToolRun): (r: Result<Option<string>>)
    ensures r.Ok? ==> r.value == None
    ensures r.Raised? <==> run.Failed?
  {
    match run
    case Failed(message) => Raised(CalledProcessError(message))
    case Output(_) => Ok(None)
  }

  // ---------------------------------------------------------------------
  // main

  /** The liveness case recorded before any package. */
  const Sentinel: string := "I.Am.Alive"

  /** What `main` carries from one record to the next. */
  datatype DriverState = DriverState(report: ReportData, fs: Tree, visited: seq<string>)

  /** After a record: carry on, or an exception that ends the run. */
  datatype Step = Continue(st: DriverState) | Abort(error: PyError, fs: Tree)

  /** How a run ends: `sys.exit(code)` after writing the serialized report,
      or an uncaught exception, with no report written. */
  datatype RunOutcome =
    | Exited(code: int, report: string, fs: Tree, visited: seq<string>)
    | Crashed(error: PyError, fs: Tree)

  /** `os.path.join(ld['id'], nice_name) + ld['ext']`. */
  function OutputPath(ld: Record): string
    requires "id" in ld && "ext" in ld
  {
    PathJoin(ld["id"], PackageToPath(ld)) + ld["ext"]
  }

  /** One pass of the loop body of `main` over record `ld`. */
  function StepRecord(st: DriverState, ld: Record, dryrun: bool,
                      hashTool: string -> ToolRun, mimeTool: string -> ToolRun): Step
  {
    if "id" !in ld then Abort(KeyError("id"), st.fs)
    else if !Exists(st.fs, ld["id"]) then Continue(st)
    else if "ext" !in ld then Abort(KeyError("ext"), st.fs)
    else if !Exists(st.fs, OutputPath(ld)) then Continue(st)
    else CheckOutput(st, ld, OutputPath(ld), dryrun, hashTool(OutputPath(ld)), mimeTool(OutputPath(ld)))
  }

  /** The rest of the loop body once the output file `path` is known to
      exist, given what the two tools report for it. */
  function CheckOutput(st: DriverState, ld: Record, path: string, dryrun: bool,
                       hashRun: ToolRun, mimeRun: ToolRun): Step
    requires "ext" in ld && Exists(st.fs, path)
  {
    var visited := st.visited + [path];
    if GetSize(st.fs, path) == 0 then
      // `ld['url']` is read for the log line, then `cleanup_file`,
      // which the script never defines, is called.
      if "url" !in ld then Abort(KeyError("url"), st.fs) else Abort(NameError("cleanup_file"), st.fs)
    else if "sha" !in ld then Abort(KeyError("sha"), st.fs)
    else
      match VerifyFile(path, Strip(ld["sha"]), dryrun, hashRun, st.fs)
      case Raised(e) => Abort(e, st.fs)
      case Ok((err, fs1)) =>
        var report1 := Reported(st.report, PackageToPath(ld), err);
        match VerifyFiletype(path, Strip(ld["ext"]), dryrun, mimeRun)
        case Raised(e) => Abort(e, fs1)
        case Ok(err2) => Continue(DriverState(Reported(report1, PackageToPath(ld), err2), fs1, visited))
  }

  /** `if err is not None: xunit.failure(nice_name, "ValidationError", err)`. */
  function Reported(report: ReportData, niceName: string, err: Option<string>): ReportData {
    if err.Some? then Apply(report, FailureCall(niceName, "ValidationError", err.value)) else report
  }

  /** The loop of `main` over the remaining records. */
  function RunFrom(st: DriverState, records: seq<Record>, dryrun: bool,
                   hashTool: string -> ToolRun, mimeTool: string -> ToolRun): Step
    decreases |records|
  {
    if records == [] then Continue(st)
    else
      match StepRecord(st, records[0], dryrun, hashTool, mimeTool)
      case Abort(e, fs) => Abort(e, fs)
      case Continue(st1) => RunFrom(st1, records[1..], dryrun, hashTool, mimeTool)
  }

  /** `RunFrom` unfolded once. */
  lemma RunFromCons(st: DriverState, records: seq<Record>, dryrun: bool,
                    hashTool: string -> ToolRun, mimeTool: string -> ToolRun)
    requires records != []
    ensures RunFrom(st, records, dryrun, hashTool, mimeTool) ==
      match StepRecord(st, records[0], dryrun, hashTool, mimeTool)
      case Abort(e, fs) => Abort(e, fs)
      case Continue(st1) => RunFrom(st1, records[1..], dryrun, hashTool, mimeTool)
  {
  }

  /** The records `yield_packages(handle)` gives for the manifest. */
  function Records(lines: seq<string>): seq<Record> {
    var idx := DataLines(lines);
    seq(|idx|, k requires 0 <= k < |idx| => VerifyManifest.LineRecord(lines[idx[k]]))
  }

  /** Every record the parser yields has an `id`: a split gives at least
      one field. */
  lemma RecordsHaveId(lines: seq<string>)
    ensures forall k :: 0 <= k < |Records(lines)| ==> "id" in Records(lines)[k]
  {
    forall k | 0 <= k < |Records(lines)| ensures "id" in Records(lines)[k] {
      VerifyManifest.RecordShape(lines[DataLines(lines)[k]]);
      assert VerifyManifest.Keys[0] == "id";
    }
  }

  /** The items `yield_packages(handle)` gives are the records, in order. */
  lemma ItemsAreRecords(lines: seq<string>, items: seq<Yielded>)
    requires |items| == |DataLines(lines)|
    requires forall k :: 0 <= k < |items| ==> items[k] == VerifyManifest.YieldAt(lines, DataLines(lines)[k], false, None)
    ensures |items| == |Records(lines)|
    ensures forall k :: 0 <= k < |items| ==> items[k] == Plain(Records(lines)[k])
  {
  }

  /** The state once the builder exists and holds the liveness case. */
  function Initial(fs: Tree): DriverState {
    DriverState(Apply(Empty, OkCall(Sentinel)), fs, [])
  }

  /** `main(galaxy_package_file, dryrun)` on a manifest whose lines are
      `lines`. */
  function Run(lines: seq<string>, fs: Tree, dryrun: bool,
               hashTool: string -> ToolRun, mimeTool: string -> ToolRun): RunOutcome
  {
    match RunFrom(Initial(fs), Records(lines), dryrun, hashTool, mimeTool)
    case Abort(e, fs1) => Crashed(e, fs1)
    case Continue(st) => Exited(0, Render(st.report), st.fs, st.visited)
  }

  // ---------------------------------------------------------------------
  // what one record does

  /** A record whose `id` directory, or whose output file, does not exist
      adds nothing: not to the report, not to the visited paths. */
  lemma MissingIsSkipped(st: DriverState, ld: Record, dryrun: bool,
                         hashTool: string -> ToolRun, mimeTool: string -> ToolRun)
    requires "id" in ld
    requires ld["id"] !in st.fs || ("ext" in ld && OutputPath(ld) !in st.fs)
    ensures StepRecord(st, ld, dryrun, hashTool, mimeTool) == Continue(st)
  {
  }

  /** An existing but empty output file ends the run: the script calls
      `cleanup_file`, which it never defines. */
  lemma EmptyFileRaises(st: DriverState, ld: Record, dryrun: bool,
                        hashTool: string -> ToolRun, mimeTool: string -> ToolRun)
    requires "id" in ld && "ext" in ld && "url" in ld
    requires ld["id"] in st.fs && OutputPath(ld) in st.fs && st.fs[OutputPath(ld)].size == 0
    ensures StepRecord(st, ld, dryrun, hashTool, mimeTool) == Abort(NameError("cleanup_file"), st.fs)
  {
  }

  /** A non-empty file whose digest matches is only recorded as visited: a
      passing package adds no test case. */
  lemma MatchAddsNoCase(st: DriverState, ld: Record, dryrun: bool,
                        hashTool: string -> ToolRun, mimeTool: string -> ToolRun)
    requires "id" in ld && "ext" in ld && "sha" in ld
    requires ld["id"] in st.fs && OutputPath(ld) in st.fs && st.fs[OutputPath(ld)].size > 0
    requires HashMatches(Strip(ld["sha"]), hashTool(OutputPath(ld)))
    requires mimeTool(OutputPath(ld)).Output?
    ensures StepRecord(st, ld, dryrun, hashTool, mimeTool) ==
              Continue(st.(visited := st.visited + [OutputPath(ld)]))
  {
    var path := OutputPath(ld);
    assert StepRecord(st, ld, dryrun, hashTool, mimeTool) ==
           CheckOutput(st, ld, path, dryrun, hashTool(path), mimeTool(path));
    CheckOutputMatch(st, ld, path, dryrun, hashTool(path), mimeTool(path));
  }

  lemma CheckOutputMatch(st: DriverState, ld: Record, path: string, dryrun: bool,
                         hashRun: ToolRun, mimeRun: ToolRun)
    requires "ext" in ld && "sha" in ld && Exists(st.fs, path) && st.fs[path].size > 0
    requires HashMatches(Strip(ld["sha"]), hashRun) && mimeRun.Output?
    ensures CheckOutput(st, ld, path, dryrun, hashRun, mimeRun) == Continue(st.(visited := st.visited + [path]))
  {
    assert VerifyFile(path, Strip(ld["sha"]), dryrun, hashRun, st.fs) == Ok((None, st.fs));
  }

  /** A non-empty file whose digest does not match adds one ValidationError
      failure named after the package, with the mismatch text, and is
      removed unless `dryrun`. */
  lemma MismatchAddsFailure(st: DriverState, ld: Record, dryrun: bool,
                            hashTool: string -> ToolRun, mimeTool: string -> ToolRun)
    requires "id" in ld && "ext" in ld && "sha" in ld
    requires ld["id"] in st.fs && OutputPath(ld) in st.fs
    requires st.fs[OutputPath(ld)].File? && st.fs[OutputPath(ld)].size > 0
    requires !HashMatches(Strip(ld["sha"]), hashTool(OutputPath(ld)))
    requires mimeTool(OutputPath(ld)).Output?
    ensures var path := OutputPath(ld);
            StepRecord(st, ld, dryrun, hashTool, mimeTool) ==
              Continue(DriverState(
                Apply(st.report, FailureCall(PackageToPath(ld), "ValidationError",
                                             HashError(path, Strip(ld["sha"]), hashTool(path)).value)),
                if dryrun then st.fs else st.fs - {path},
                st.visited + [path]))
  {
    var path := OutputPath(ld);
    assert StepRecord(st, ld, dryrun, hashTool, mimeTool) ==
           CheckOutput(st, ld, path, dryrun, hashTool(path), mimeTool(path));
    VerifyFileOutcome(path, Strip(ld["sha"]), dryrun, hashTool(path), st.fs);
  }

  // ---------------------------------------------------------------------
  // what a whole run keeps

  /** An entry recorded by `failure(name, "ValidationError", message)`. */
  ghost predicate IsValidationFailure(entry: string) {
    exists name, message :: entry == Entry(FailureCall(name, "ValidationError", message))
  }

  /** Files are only ever removed, never created or changed, and nothing
      at all changes in a dry run. */
  predicate Shrinks(before: Tree, after: Tree, dryrun: bool) {
    && after.Keys <= before.Keys
    && (forall p :: p in after ==> after[p] == before[p])
    && (dryrun ==> after == before)
  }

  /** Cases are only appended, each a ValidationError failure counted once
      in `total`; `errors`, `failures` and `skips` do not move. */
  ghost predicate ReportExtends(before: ReportData, after: ReportData) {
    && after.total + |before.testCases| == before.total + |after.testCases|
    && after.errors == before.errors
    && after.failures == before.failures
    && after.skips == before.skips
    && before.testCases <= after.testCases
    && (forall i :: |before.testCases| <= i < |after.testCases| ==> IsValidationFailure(after.testCases[i]))
  }

  /** What the record loop does to its state: the report only grows by
      ValidationError failures, visited paths are only appended, files are
      only removed. */
  ghost predicate Extends(before: DriverState, after: DriverState, dryrun: bool) {
    && ReportExtends(before.report, after.report)
    && before.visited <= after.visited
    && Shrinks(before.fs, after.fs, dryrun)
  }

  lemma ReportedExtends(report: ReportData, niceName: string, err: Option<string>)
    ensures ReportExtends(report, Reported(report, niceName, err))
  {
    if err.Some? {
      var entry := Entry(FailureCall(niceName, "ValidationError", err.value));
      assert Reported(report, niceName, err).testCases == report.testCases + [entry];
      assert IsValidationFailure(entry);
    }
  }

  lemma ReportExtendsTransitive(a: ReportData, b: ReportData, c: ReportData)
    requires ReportExtends(a, b) && ReportExtends(b, c)
    ensures ReportExtends(a, c)
  {
    forall i | |a.testCases| <= i < |c.testCases|
      ensures IsValidationFailure(c.testCases[i])
    {
      if i < |b.testCases| {
        assert c.testCases[i] == b.testCases[i];
      }
    }
  }

  lemma VerifyFileShrinks(path: string, sha: string, dryrun: bool, run: ToolRun, fs: Tree)
    ensures VerifyFile(path, sha, dryrun, run, fs).Ok? ==>
              Shrinks(fs, VerifyFile(path, sha, dryrun, run, fs).value.1, dryrun)
  {
    VerifyFileOutcome(path, sha, dryrun, run, fs);
  }

  lemma CheckOutputExtends(st: DriverState, ld: Record, path: string, dryrun: bool,
                           hashRun: ToolRun, mimeRun: ToolRun)
    requires "ext" in ld && Exists(st.fs, path)
    ensures CheckOutput(st, ld, path, dryrun, hashRun, mimeRun).Continue? ==>
              Extends(st, CheckOutput(st, ld, path, dryrun, hashRun, mimeRun).st, dryrun)
    ensures CheckOutput(st, ld, path, dryrun, hashRun, mimeRun).Abort? ==>
              Shrinks(st.fs, CheckOutput(st, ld, path, dryrun, hashRun, mimeRun).fs, dryrun)
  {
    if GetSize(st.fs, path) != 0 && "sha" in ld {
      var checked := VerifyFile(path, Strip(ld["sha"]), dryrun, hashRun, st.fs);
      VerifyFileShrinks(path, Strip(ld["sha"]), dryrun, hashRun, st.fs);
      if checked.Ok? {
        var name := PackageToPath(ld);
        var report1 := Reported(st.report, name, checked.value.0);
        ReportedExtends(st.report, name, checked.value.0);
        var typed := VerifyFiletype(path, Strip(ld["ext"]), dryrun, mimeRun);
        if typed.Ok? {
          ReportedExtends(report1, name, typed.value);
          ReportExtendsTransitive(st.report, report1, Reported(report1, name, typed.value));
        }
      }
    }
  }

  /** One record keeps `Extends`; one that raises has still only removed
      files. */
  lemma StepExtends(st: DriverState, ld: Record, dryrun: bool,
                    hashTool: string -> ToolRun, mimeTool: string -> ToolRun)
    ensures StepRecord(st, ld, dryrun, hashTool, mimeTool).Continue? ==>
              Extends(st, StepRecord(st, ld, dryrun, hashTool, mimeTool).st, dryrun)
    ensures StepRecord(st, ld, dryrun, hashTool, mimeTool).Abort? ==>
              Shrinks(st.fs, StepRecord(st, ld, dryrun, hashTool, mimeTool).fs, dryrun)
  {
    if "id" in ld && Exists(st.fs, ld["id"]) && "ext" in ld && Exists(st.fs, OutputPath(ld)) {
      var path := OutputPath(ld);
      CheckOutputExtends(st, ld, path, dryrun, hashTool(path), mimeTool(path));
    }
  }

  lemma ExtendsTransitive(a: DriverState, b: DriverState, c: DriverState, dryrun: bool)
    requires Extends(a, b, dryrun) && Extends(b, c, dryrun)
    ensures Extends(a, c, dryrun)
  {
    ReportExtendsTransitive(a.report, b.report, c.report);
  }

  /** The loop over any records keeps `Extends`; a run cut short by an
      exception still only removed files. */
  lemma {:induction false} RunFromExtends(st: DriverState, records: seq<Record>, dryrun: bool,
                                          hashTool: string -> ToolRun, mimeTool: string -> ToolRun)
    ensures RunFrom(st, records, dryrun, hashTool, mimeTool).Continue? ==>
              Extends(st, RunFrom(st, records, dryrun, hashTool, mimeTool).st, dryrun)
    ensures RunFrom(st, records, dryrun, hashTool, mimeTool).Abort? ==>
              Shrinks(st.fs, RunFrom(st, records, dryrun, hashTool, mimeTool).fs, dryrun)
    decreases |records|
  {
    if records != [] {
      StepExtends(st, records[0], dryrun, hashTool, mimeTool);
      var step := StepRecord(st, records[0], dryrun, hashTool, mimeTool);
      if step.Continue? {
        RunFromExtends(step.st, records[1..], dryrun, hashTool, mimeTool);
        var r := RunFrom(step.st, records[1..], dryrun, hashTool, mimeTool);
        if r.Continue? {
          ExtendsTransitive(st, step.st, r.st, dryrun);
        }
      }
    }
  }

  /** The report of a run: the liveness case first, then only
      ValidationError failures; `total` counts the cases; `errors`,
      `failures` and `skips` are 0. */
  ghost predicate ReportShape(d: ReportData) {
    && |d.testCases| >= 1 && d.testCases[0] == TestCase(Sentinel, "")
    && (forall i :: 1 <= i < |d.testCases| ==> IsValidationFailure(d.testCases[i]))
    && d.total == |d.testCases| && d.errors == 0 && d.failures == 0 && d.skips == 0
  }

  lemma ExtendsInitial(fs: Tree, st: DriverState, dryrun: bool)
    requires Extends(Initial(fs), st, dryrun)
    ensures ReportShape(st.report)
  {
    var init := Initial(fs).report;
    assert init.testCases == [TestCase(Sentinel, "")];
    assert st.report.testCases[0] == init.testCases[0];
  }

  /** A run that completes exits with 0 and writes a report of that shape,
      whose header declares `tests` = number of cases and 0 errors, failures
      and skips. No run creates or changes a file, and a dry run removes
      none. */
  lemma RunReport(lines: seq<string>, fs: Tree, dryrun: bool,
                  hashTool: string -> ToolRun, mimeTool: string -> ToolRun)
    ensures var out := Run(lines, fs, dryrun, hashTool, mimeTool);
            out.Exited? ==>
              && out.code == 0
              && Shrinks(fs, out.fs, dryrun)
              && exists d: ReportData ::
                   && out.report == Render(d)
                   && ReportShape(d)
                   && ReadCounts(out.report) == Some((|d.testCases|, 0, 0, 0))
    ensures var out := Run(lines, fs, dryrun, hashTool, mimeTool);
            out.Crashed? ==> Shrinks(fs, out.fs, dryrun)
  {
    var init := Initial(fs);
    RunFromExtends(init, Records(lines), dryrun, hashTool, mimeTool);
    var r := RunFrom(init, Records(lines), dryrun, hashTool, mimeTool);
    if r.Continue? {
      ExtendsInitial(fs, r.st, dryrun);
      ReadCountsRender(r.st.report);
    }
  }

  /** A manifest with no data line exits with 0 after a report holding the
      liveness case alone, `tests="1"`, and touches no file. */
  lemma NoDataLines(lines: seq<string>, fs: Tree, dryrun: bool,
                    hashTool: string -> ToolRun, mimeTool: string -> ToolRun)
    requires forall i :: 0 <= i < |lines| ==> IsComment(lines[i])
    ensures Run(lines, fs, dryrun, hashTool, mimeTool) == Exited(0, Render(Initial(fs).report), fs, [])
    ensures Initial(fs).report.testCases == [TestCase(Sentinel, "")]
    ensures ReadCounts(Run(lines, fs, dryrun, hashTool, mimeTool).report) == Some((1, 0, 0, 0))
  {
    VerifyManifest.OnlyCommentsYieldNothing(lines);
    assert Records(lines) == [];
    RunNoRecords(lines, fs, dryrun, hashTool, mimeTool);
    InitialCases(fs);
    InitialCounts(fs);
  }

  lemma RunNoRecords(lines: seq<string>, fs: Tree, dryrun: bool,
                     hashTool: string -> ToolRun, mimeTool: string -> ToolRun)
    requires Records(lines) == []
    ensures Run(lines, fs, dryrun, hashTool, mimeTool) == Exited(0, Render(Initial(fs).report), fs, [])
  {
  }

  /** The report before any record holds the liveness case alone. */
  lemma InitialCases(fs: Tree)
    ensures Initial(fs).report.testCases == [TestCase(Sentinel, "")]
  {
  }

  /** ... and declares `tests="1"` and nothing else. */
  lemma InitialCounts(fs: Tree)
    ensures ReadCounts(Render(Initial(fs).report)) == Some((1, 0, 0, 0))
  {
    ReadCountsRender(Initial(fs).report);
  }

  /** The body of the record loop of `main`: the checks on one record, in
      the script's order, each early exit being a `continue` or an
      uncaught exception. */
  method ProcessRecord(xunit: XUnitReportBuilder, ld: Record, fs0: Tree, visited0: seq<string>, dryrun: bool,
                       hashTool: string -> ToolRun, mimeTool: string -> ToolRun)
    returns (crash: Option<PyError>, fs: Tree, visited: seq<string>)
    requires xunit.Valid() && "id" in ld
    modifies xunit
    ensures xunit.Valid()
    ensures StepRecord(DriverState(old(xunit.Data()), fs0, visited0), ld, dryrun, hashTool, mimeTool) ==
              if crash.Some? then Abort(crash.value, fs) else Continue(DriverState(xunit.Data(), fs, visited))
  {
    fs, visited := fs0, visited0;
    var niceName := PackageToPath(ld);
    if !Exists(fs, ld["id"]) {
      return None, fs, visited;
    }
    if "ext" !in ld {
      return Some(KeyError("ext")), fs, visited;
    }
    var path := PathJoin(ld["id"], niceName) + ld["ext"];
    assert path == OutputPath(ld);
    if !Exists(fs, path) {
      return None, fs, visited;
    }
    visited := visited + [path];
    if GetSize(fs, path) == 0 {
      if "url" !in ld {
        return Some(KeyError("url")), fs, visited;
      }
      return Some(NameError("cleanup_file")), fs, visited;
    }
    if "sha" !in ld {
      return Some(KeyError("sha")), fs, visited;
    }
    var checked := VerifyFile(path, Strip(ld["sha"]), dryrun, hashTool(path), fs);
    if checked.Raised? {
      return Some(checked.error), fs, visited;
    }
    var err := checked.value.0;
    fs := checked.value.1;
    if err.Some? {
      xunit.Failure(niceName, "ValidationError", err.value);
    }
    var typed := VerifyFiletype(path, Strip(ld["ext"]), dryrun, mimeTool(path));
    if typed.Raised? {
      return Some(typed.error), fs, visited;
    }
    // `verify_filetype` never reports an error, so the failure it would
    // record is never added.
    assert typed.value == None;
    crash := None;
  }

  /** `main`: the report builder with its liveness case, the record loop,
      and the final write of the report. */
  method RunManifest(lines: seq<string>, fs0: Tree, dryrun: bool,
                     hashTool: string -> ToolRun, mimeTool: string -> ToolRun) returns (outcome: RunOutcome)
    ensures outcome == Run(lines, fs0, dryrun, hashTool, mimeTool)
  {
    var visited: seq<string> := [];
    var fs := fs0;
    var retcode := 0;
    var xunit := new XUnitReportBuilder();
    xunit.Ok(Sentinel);
    var items := VerifyManifest.YieldPackages(lines, false, None);
    ghost var records := Records(lines);
    ItemsAreRecords(lines, items);
    RecordsHaveId(lines);
    var i := 0;
    while i < |items|
      invariant 0 <= i <= |items|
      invariant xunit.Valid()
      invariant RunFrom(Initial(fs0), records, dryrun, hashTool, mimeTool) ==
                RunFrom(DriverState(xunit.Data(), fs, visited), records[i..], dryrun, hashTool, mimeTool)
    {
      var ld := items[i].ld;
      assert records[i..][0] == ld && records[i..][1..] == records[i + 1..];
      RunFromCons(DriverState(xunit.Data(), fs, visited), records[i..], dryrun, hashTool, mimeTool);
      // A split gives at least one field, so `ld['id']` never raises here.
      assert "id" in ld;
      var crash;
      crash, fs, visited := ProcessRecord(xunit, ld, fs, visited, dryrun, hashTool, mimeTool);
      if crash.Some? {
        return Crashed(crash.value, fs);
      }
      i := i + 1;
    }
    assert records[i..] == [];
    var report := xunit.Serialize();
    outcome := Exited(retcode, report, fs, visited);
  }
}
