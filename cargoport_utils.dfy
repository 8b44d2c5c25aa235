/** cargoport/utils.py: its own `yield_packages` (records built from the
    STRIPPED line, and a status code that becomes 1 at the first row with
    the wrong column count and stays 1), the name and URL derivations, and
    a hash check that reports but never deletes. */
module CargoportUtils {
  import opened Common
  import opened Text
  import opened Host
  import opened Manifest

  /** The column names of cargoport/utils.py. */
  const HeaderKeys: seq<string> := ["id", "version", "platform", "arch", "url", "ext", "sha256sum", "upstream_first"]

  /** `len(HEADER_KEYS)`, the column count of a well-formed row. */
  const ColumnCount: nat := 8

  /** The mirror that serves packages not marked upstream-first. */
  const PackageServer: string := "https://depot.galaxyproject.org/software/"

  /** `line.strip().split('\t')`: the fields of the record and of the
      column-count check alike. */
  function Data(line: string): seq<string> {
    Split(Strip(line), '\t')
  }

  function LineRecord(line: string): Record {
    Zip(HeaderKeys, Data(line))
  }

  predicate Malformed(line: string) {
    |Data(line)| != ColumnCount
  }

  /** Some data line among the first `n` has the wrong column count. */
  predicate MalformedBefore(lines: seq<string>, n: nat)
    requires n <= |lines|
  {
    n > 0 && (MalformedBefore(lines, n - 1) || (!IsComment(lines[n - 1]) && Malformed(lines[n - 1])))
  }

  /** The status code after the first `n` lines: 1 once a malformed data
      line has been seen, the initial value until then. */
  function RetcodeAfter(lines: seq<string>, n: nat, initial: Option<int>): Option<int>
    requires n <= |lines|
  {
    if MalformedBefore(lines, n) then Some(1) else initial
  }

  function YieldAt(lines: seq<string>, lineno: nat, meta: bool, initial: Option<int>): Yielded
    requires lineno < |lines|
  {
    var ld := LineRecord(lines[lineno]);
    if meta then Meta(ld, lineno, lines[lineno], RetcodeAfter(lines, lineno + 1, initial)) else Plain(ld)
  }

  /** The whole parse: one item per data line, in order; in meta mode each
      carries the status code as it stands after its own line. */
  method YieldPackages(lines: seq<string>, meta: bool, retcode0: Option<int>) returns (out: seq<Yielded>)
    ensures |out| == |DataLines(lines)|
    ensures forall k :: 0 <= k < |out| ==> out[k] == YieldAt(lines, DataLines(lines)[k], meta, retcode0)
  {
    out := [];
    var retcode := retcode0;
    for lineno := 0 to |lines|
      invariant retcode == RetcodeAfter(lines, lineno, retcode0)
      invariant out == YieldsUpTo(lines, lineno, meta, retcode0)
    {
      var line := lines[lineno];
      RetcodeStep(lines, lineno, retcode0);
      if IsComment(line) {
        continue;
      }
      var data := Data(line);
      if |data| != ColumnCount {
        retcode := Some(1);
      }
      var ld := Zip(HeaderKeys, data);
      var item := if meta then Meta(ld, lineno, line, retcode) else Plain(ld);
      ItemAt(lines, lineno, meta, retcode0, item);
      out := out + [item];
    }
    assert lines[..|lines|] == lines;
    YieldsUpToSpec(lines, |lines|, meta, retcode0);
  }

  /** The items the first `n` lines give. */
  function YieldsUpTo(lines: seq<string>, n: nat, meta: bool, initial: Option<int>): seq<Yielded>
    requires n <= |lines|
  {
    if n == 0 then []
    else YieldsUpTo(lines, n - 1, meta, initial) +
         (if IsComment(lines[n - 1]) then [] else [YieldAt(lines, n - 1, meta, initial)])
  }

  /** Those items are the ones of the data lines among the first `n`, in
      order. */
  lemma {:induction false} YieldsUpToSpec(lines: seq<string>, n: nat, meta: bool, initial: Option<int>)
    requires n <= |lines|
    ensures |YieldsUpTo(lines, n, meta, initial)| == |DataLines(lines[..n])|
    ensures forall k :: 0 <= k < |YieldsUpTo(lines, n, meta, initial)| ==>
              DataLines(lines[..n])[k] < |lines| &&
              YieldsUpTo(lines, n, meta, initial)[k] == YieldAt(lines, DataLines(lines[..n])[k], meta, initial)
  {
    if n > 0 {
      YieldsUpToSpec(lines, n - 1, meta, initial);
      DataLinesSnoc(lines, n - 1);
    }
  }

  lemma ItemAt(lines: seq<string>, lineno: nat, meta: bool, initial: Option<int>, item: Yielded)
    requires lineno < |lines|
    requires item == if meta then Meta(LineRecord(lines[lineno]), lineno, lines[lineno], RetcodeAfter(lines, lineno + 1, initial))
                     else Plain(LineRecord(lines[lineno]))
    ensures item == YieldAt(lines, lineno, meta, initial)
  {
  }

  /** The status code after one more line. */
  lemma RetcodeStep(lines: seq<string>, n: nat, initial: Option<int>)
    requires n < |lines|
    ensures RetcodeAfter(lines, n + 1, initial) ==
              if !IsComment(lines[n]) && Malformed(lines[n]) then Some(1) else RetcodeAfter(lines, n, initial)
  {
  }

  /** Once a malformed data line is seen the status code is 1 for it and for
      every later line; with no malformed data line it keeps its initial
      value. */
  lemma {:induction false} RetcodeSticky(lines: seq<string>, j: nat, n: nat, initial: Option<int>)
    requires j < n <= |lines|
    requires !IsComment(lines[j]) && Malformed(lines[j])
    ensures RetcodeAfter(lines, n, initial) == Some(1)
  {
    if j < n - 1 {
      RetcodeSticky(lines, j, n - 1, initial);
    }
  }

  lemma {:induction false} RetcodeKept(lines: seq<string>, n: nat, initial: Option<int>)
    requires n <= |lines|
    requires forall i :: 0 <= i < n && !IsComment(lines[i]) ==> !Malformed(lines[i])
    ensures RetcodeAfter(lines, n, initial) == initial
  {
    if n > 0 {
      RetcodeKept(lines, n - 1, initial);
    }
  }

  lemma HeaderKeysDistinct()
    ensures Distinct(HeaderKeys)
  {
  }

  /** Each data line gives a record of exactly min(8, field count) keys,
      taken positionally from the stripped split. */
  lemma RecordShape(line: string)
    ensures |LineRecord(line)| == Min(8, |Data(line)|)
    ensures forall i :: 0 <= i < Min(8, |Data(line)|) ==>
              HeaderKeys[i] in LineRecord(line) && LineRecord(line)[HeaderKeys[i]] == Data(line)[i]
    ensures forall k :: k in LineRecord(line) ==>
              exists i :: 0 <= i < Min(8, |Data(line)|) && HeaderKeys[i] == k
  {
    HeaderKeysDistinct();
    ZipSpec(HeaderKeys, Data(line));
  }

  /** Unlike bin/verify.py, the newline that ends a well-formed line does
      not reach the record: `upstream_first` of "f1<TAB>...<TAB>f8\n" is
      "f8" (when the line has no other surrounding space). */
  lemma LastFieldStripped(fields: seq<string>)
    requires |fields| == 8
    requires forall k :: 0 <= k < 8 ==> Free(fields[k], '\t')
    requires fields[0] != [] && !IsSpace(fields[0][0])
    requires fields[7] != [] && !IsSpace(fields[7][|fields[7]| - 1])
    ensures "upstream_first" in LineRecord(Join(fields, "\t") + "\n")
    ensures LineRecord(Join(fields, "\t") + "\n")["upstream_first"] == fields[7]
  {
    var s := Join(fields, "\t");
    JoinFirst(fields, "\t");
    JoinLast(fields, "\t");
    StripNewline(s);
    SplitJoin(fields, '\t');
    assert Data(s + "\n") == fields;
    RecordShape(s + "\n");
    assert HeaderKeys[7] == "upstream_first";
  }

  // ---------------------------------------------------------------------
  // names and URLs

  /** `ld[key]`: the field, or the KeyError a missing key raises. */
  function Lookup(ld: Record, key: string): Result<string> {
    if key in ld then Ok(ld[key]) else Raised(KeyError(key))
  }

  /** The keys `package_name` and `depot_url` read, in the order they
      read them. */
  const NameKeys: seq<string> := ["id", "version", "platform", "arch", "ext"]

  /** `package_name(ld)`: `'_'.join(ld[key] for key in HEADER_KEYS[0:4]) + ld['ext']`. */
  function PackageName(ld: Record): Result<string> {
    var id :- Lookup(ld, HeaderKeys[0]);
    var version :- Lookup(ld, HeaderKeys[1]);
    var platform :- Lookup(ld, HeaderKeys[2]);
    var arch :- Lookup(ld, HeaderKeys[3]);
    var ext :- Lookup(ld, "ext");
    Ok(Join([id, version, platform, arch], "_") + ext)
  }

  /** `depot_url(ld)`: the package server followed by
      `{id}/{id}_{version}_{platform}_{arch}{ext}`, the fields looked up in
      that order. */
  function DepotUrl(ld: Record): Result<string> {
    var id :- Lookup(ld, "id");
    var version :- Lookup(ld, "version");
    var platform :- Lookup(ld, "platform");
    var arch :- Lookup(ld, "arch");
    var ext :- Lookup(ld, "ext");
    Ok(PackageServer + id + "/" + id + "_" + version + "_" + platform + "_" + arch + ext)
  }

  /** The KeyError raised by the first of `keys` the record lacks. */
  predicate FailsOnFirstMissing(r: Result<string>, ld: Record, keys: seq<string>) {
    r.Raised? && exists i :: 0 <= i < |keys| && r.error == KeyError(keys[i]) && keys[i] !in ld &&
                   forall j :: 0 <= j < i ==> keys[j] in ld
  }

  /** `get_url(ld)`: the upstream URL when `upstream_first` is exactly
      "True", the depot URL otherwise. */
  function GetUrl(ld: Record): Result<string> {
    if "upstream_first" !in ld then Raised(KeyError("upstream_first"))
    else if ld["upstream_first"] == "True" then
      if "url" in ld then Ok(ld["url"]) else Raised(KeyError("url"))
    else DepotUrl(ld)
  }

  /** `package_name(ld) == package_to_path(**ld) + ld['ext']`; without
      one of id, version, platform, arch, ext it raises KeyError for the
      first one missing. */
  lemma PackageNameIsPathPlusExt(ld: Record)
    ensures PackageName(ld).Ok? <==> forall i :: 0 <= i < |NameKeys| ==> NameKeys[i] in ld
    ensures PackageName(ld).Ok? ==> PackageName(ld).value == PackageToPath(ld) + ld["ext"]
    ensures PackageName(ld).Raised? ==> FailsOnFirstMissing(PackageName(ld), ld, NameKeys)
  {
    var r := PackageName(ld);
    if "id" !in ld {
      assert r.error == KeyError(NameKeys[0]);
    } else if "version" !in ld {
      assert r.error == KeyError(NameKeys[1]);
    } else if "platform" !in ld {
      assert r.error == KeyError(NameKeys[2]);
    } else if "arch" !in ld {
      assert r.error == KeyError(NameKeys[3]);
    } else if "ext" !in ld {
      assert r.error == KeyError(NameKeys[4]);
    } else {
      assert Get(ld, "id") == ld["id"] && Get(ld, "version") == ld["version"];
      assert Get(ld, "platform") == ld["platform"] && Get(ld, "arch") == ld["arch"];
    }
  }

  /** The depot URL is the package server, the id as a directory, then the
      package name; it fails exactly when the name does, with the same
      KeyError. */
  lemma DepotUrlIsServerIdName(ld: Record)
    ensures DepotUrl(ld).Ok? <==> PackageName(ld).Ok?
    ensures DepotUrl(ld).Ok? ==>
              "id" in ld && DepotUrl(ld).value == PackageServer + ld["id"] + "/" + PackageName(ld).value
    ensures DepotUrl(ld).Raised? ==> DepotUrl(ld) == PackageName(ld)
  {
    if DepotUrl(ld).Ok? {
      var name := Join([ld["id"], ld["version"], ld["platform"], ld["arch"]], "_") + ld["ext"];
      assert PackageName(ld) == Ok(name);
      PackageToPathDefinition(ld);
      assert Get(ld, "id") == ld["id"] && Get(ld, "version") == ld["version"];
      assert Get(ld, "platform") == ld["platform"] && Get(ld, "arch") == ld["arch"];
      assert Join([ld["id"], ld["version"], ld["platform"], ld["arch"]], "_") == PackageToPath(ld);
    }
  }

  /** `get_url` gives the upstream URL verbatim exactly when `upstream_first`
      is the exact string "True"; any other value, "true" or "True\n"
      included, gives the depot URL. */
  lemma GetUrlChoice(ld: Record)
    requires "upstream_first" in ld && "url" in ld
    ensures ld["upstream_first"] == "True" ==> GetUrl(ld) == Ok(ld["url"])
    ensures ld["upstream_first"] != "True" ==> GetUrl(ld) == DepotUrl(ld)
  {
  }

  /** A record with every column never raises in `package_name`,
      `depot_url` or `get_url`. */
  lemma FullRecordResolves(ld: Record)
    requires forall i :: 0 <= i < 8 ==> HeaderKeys[i] in ld
    ensures PackageName(ld).Ok? && DepotUrl(ld).Ok? && GetUrl(ld).Ok?
    ensures PackageName(ld).value == PackageToPath(ld) + ld["ext"]
    ensures GetUrl(ld).value ==
              if ld["upstream_first"] == "True" then ld["url"]
              else PackageServer + ld["id"] + "/" + PackageName(ld).value
  {
    assert HeaderKeys[0] == "id" && HeaderKeys[1] == "version" && HeaderKeys[2] == "platform";
    assert HeaderKeys[3] == "arch" && HeaderKeys[4] == "url" && HeaderKeys[5] == "ext";
    assert HeaderKeys[7] == "upstream_first";
    PackageNameIsPathPlusExt(ld);
    DepotUrlIsServerIdName(ld);
  }

  /** A record read from a line with exactly eight stripped fields has
      every column, so its name and URL never raise: the URL is the fifth
      field when the eighth is "True", the depot URL built from the first
      field and the name otherwise. */
  lemma WellFormedRowResolves(line: string)
    requires !Malformed(line)
    ensures PackageName(LineRecord(line)).Ok? && DepotUrl(LineRecord(line)).Ok?
    ensures GetUrl(LineRecord(line)).Ok?
    ensures PackageName(LineRecord(line)).value == PackageToPath(LineRecord(line)) + Data(line)[5]
    ensures GetUrl(LineRecord(line)).value ==
              if Data(line)[7] == "True" then Data(line)[4]
              else PackageServer + Data(line)[0] + "/" + PackageName(LineRecord(line)).value
  {
    var ld := LineRecord(line);
    RowValues(line, Data(line));
    FullRecordResolves(ld);
    assert ld[HeaderKeys[0]] == Data(line)[0] && ld[HeaderKeys[4]] == Data(line)[4];
    assert ld[HeaderKeys[5]] == Data(line)[5] && ld[HeaderKeys[7]] == Data(line)[7];
  }

  /** A line with eight fields binds every header key to its field. */
  lemma RowValues(line: string, parts: seq<string>)
    requires Data(line) == parts && |parts| == 8
    ensures forall i :: 0 <= i < 8 ==> HeaderKeys[i] in LineRecord(line) && LineRecord(line)[HeaderKeys[i]] == parts[i]
  {
    RecordShape(line);
  }

  // ---------------------------------------------------------------------
  // hash check

  /** `verify_file(path, sha)`: None when the digest read from the tool's
      output equals `sha` ignoring case; otherwise the text of the
      exception, "<actual> != <expected> in <path>" for a mismatch. Nothing
      is deleted. */
  function VerifyFile(path: string, sha: string, run: ToolRun): Option<string> {
    match run
    case Failed(message) => Some(message)
    case Output(text) =>
      var fileHash := HashDigest(text);
      if Lower(fileHash) != Lower(sha) then Some(Lower(fileHash) + " != " + Lower(sha) + " in " + path)
      else None
  }

  /** The check passes exactly when the tool succeeded and its digest matches the
      expected one character by character up to case; a mismatch names
      both digests, lower-cased, and the path. */
  lemma VerifyFileOutcome(path: string, sha: string, run: ToolRun)
    ensures VerifyFile(path, sha, run).None? <==>
              run.Output? && |HashDigest(run.text)| == |sha| &&
              forall i :: 0 <= i < |sha| ==> LowerChar(HashDigest(run.text)[i]) == LowerChar(sha[i])
    ensures run.Output? && Lower(HashDigest(run.text)) != Lower(sha) ==>
              VerifyFile(path, sha, run) == Some(Lower(HashDigest(run.text)) + " != " + Lower(sha) + " in " + path)
    ensures run.Failed? ==> VerifyFile(path, sha, run) == Some(run.message)
  {
    if run.Output? {
      LowerEqual(HashDigest(run.text), sha);
    }
  }
}
