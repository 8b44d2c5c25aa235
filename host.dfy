/** The machine the scripts run on, as the model sees it: the filesystem as
    a map from existing paths to what is there, `os.path.join`, `os.unlink`,
    and the output of the external tools (`sha256sum`, `file`). */
module Host {
  import opened Common
  import Text

  /** What `os.path.exists` finds at a path, with what `os.path.getsize`
      reports for it. */
  datatype Node = File(size: nat) | Directory(size: nat)

  /** Every existing path with its entry. */
  type Tree = map<string, Node>

  predicate Exists(fs: Tree, path: string) {
    path in fs
  }

  function GetSize(fs: Tree, path: string): nat
    requires Exists(fs, path)
  {
    fs[path].size
  }

  /** `os.unlink(path)`: removes a file and nothing else; a missing path or
      a directory raises OSError. */
  function Unlink(fs: Tree, path: string): (r: Result<Tree>)
    ensures r.Ok? <==> path in fs && fs[path].File?
    ensures r.Ok? ==> r.value.Keys == fs.Keys - {path}
    ensures r.Ok? ==> forall p :: p in r.value ==> r.value[p] == fs[p]
    ensures r.Raised? ==> r.error == OSError(path)
  {
    if path in fs && fs[path].File? then Ok(fs - {path}) else Raised(OSError(path))
  }

  /** `os.path.join(a, b)` on POSIX: an absolute `b` replaces `a`; otherwise
      `b` is appended, with a '/' unless `a` is empty or already ends in one. */
  function PathJoin(a: string, b: string): (r: string)
    ensures |b| <= |r| && r[|r| - |b|..] == b
    ensures |b| > 0 && b[0] == '/' ==> r == b
    ensures (|b| == 0 || b[0] != '/') && (a == "" || a[|a| - 1] == '/') ==> r[..|r| - |b|] == a
    ensures (|b| == 0 || b[0] != '/') && a != "" && a[|a| - 1] != '/' ==> r[..|r| - |b|] == a + "/"
  {
    if |b| > 0 && b[0] == '/' then b
    else if a == "" || a[|a| - 1] == '/' then a + b
    else a + "/" + b
  }

  /** What `subprocess.check_output` gives: the tool's standard output, or
      the text of the exception it raised when the tool could not be run or
      exited with a non-zero status. */
  datatype ToolRun = Output(text: string) | Failed(message: string)

  /** The digest both scripts read from the output of `sha256sum`: at most
      its first 64 characters, stripped of surrounding space. */
  function HashDigest(output: string): string {
    Text.Strip(output[..Min(64, |output|)])
  }
}
