/** The manifest as both parsers see it: lines of tab-separated fields,
    `#` comment lines, and the record a line becomes (a Python dict from
    column names to field text, which a short row leaves partial). */
module Manifest {
  import opened Common
  import opened Text

  /** A parsed row: column name to field text. Keys a short row does not
      reach are absent. */
  type Record = map<string, string>

  /** What a parser yields for one data line: the record alone, or in meta
      mode the record with the 0-based line number, the raw line and the
      status code threaded through the parse. */
  datatype Yielded =
    | Plain(ld: Record)
    | Meta(ld: Record, lineno: nat, line: string, retcode: Option<int>)

  /** `line.startswith('#')`. */
  predicate IsComment(line: string) {
    StartsWith(line, "#")
  }

  /** The 0-based numbers of the lines that are not comments, in order. */
  function DataLines(lines: seq<string>): (r: seq<nat>)
    ensures forall k :: 0 <= k < |r| ==> r[k] < |lines| && !IsComment(lines[r[k]])
    ensures forall k, l :: 0 <= k < l < |r| ==> r[k] < r[l]
    ensures forall i :: 0 <= i < |lines| && !IsComment(lines[i]) ==> i in r
  {
    if lines == [] then []
    else
      var n := |lines| - 1;
      DataLines(lines[..n]) + (if IsComment(lines[n]) then [] else [n])
  }

  /** Reading one more line adds its number when it is not a comment. */
  lemma DataLinesSnoc(lines: seq<string>, n: nat)
    requires n < |lines|
    ensures DataLines(lines[..n + 1]) == DataLines(lines[..n]) + (if IsComment(lines[n]) then [] else [n])
  {
    assert lines[..n + 1][..n] == lines[..n];
  }

  predicate Distinct(keys: seq<string>) {
    forall i, j :: 0 <= i < j < |keys| ==> keys[i] != keys[j]
  }

  /** `{k: v for (k, v) in zip(keys, fields)}`: `zip` stops at the shorter
      list, and a later pair overrides an earlier one with the same key. */
  function Zip(keys: seq<string>, fields: seq<string>): Record {
    if |keys| == 0 || |fields| == 0 then map[]
    else map[keys[0] := fields[0]] + Zip(keys[1..], fields[1..])
  }

  /** With distinct keys, the record holds exactly the first
      min(|keys|, |fields|) keys, each bound to the field at its position. */
  lemma ZipSpec(keys: seq<string>, fields: seq<string>)
    requires Distinct(keys)
    ensures |Zip(keys, fields)| == Min(|keys|, |fields|)
    ensures forall i :: 0 <= i < Min(|keys|, |fields|) ==>
              keys[i] in Zip(keys, fields) && Zip(keys, fields)[keys[i]] == fields[i]
    ensures forall k :: k in Zip(keys, fields) ==>
              exists i :: 0 <= i < Min(|keys|, |fields|) && keys[i] == k
  {
    ZipSize(keys, fields);
    ZipValues(keys, fields);
    ZipOnlyPrefix(keys, fields);
  }

  /** Every key of the record is one of the first min(|keys|, |fields|)
      keys. */
  lemma {:induction false} ZipOnlyPrefix(keys: seq<string>, fields: seq<string>)
    ensures forall k :: k in Zip(keys, fields) ==>
              exists i :: 0 <= i < Min(|keys|, |fields|) && keys[i] == k
  {
    if |keys| != 0 && |fields| != 0 {
      ZipOnlyPrefix(keys[1..], fields[1..]);
      forall k | k in Zip(keys, fields)
        ensures exists i :: 0 <= i < Min(|keys|, |fields|) && keys[i] == k
      {
        if k != keys[0] {
          assert Min(|keys[1..]|, |fields[1..]|) == Min(|keys|, |fields|) - 1;
          assert k in Zip(keys[1..], fields[1..]);
          var i :| 0 <= i < Min(|keys[1..]|, |fields[1..]|) && keys[1..][i] == k;
          assert keys[i + 1] == k;
        }
      }
    }
  }

  lemma {:induction false} ZipSize(keys: seq<string>, fields: seq<string>)
    requires Distinct(keys)
    ensures |Zip(keys, fields)| == Min(|keys|, |fields|)
  {
    if |keys| != 0 && |fields| != 0 {
      var rest := Zip(keys[1..], fields[1..]);
      ZipSize(keys[1..], fields[1..]);
      ZipHeadFresh(keys, fields);
      assert Zip(keys, fields).Keys == {keys[0]} + rest.Keys;
    }
  }

  /** With distinct keys, the first key is not bound again further on. */
  lemma ZipHeadFresh(keys: seq<string>, fields: seq<string>)
    requires Distinct(keys) && |keys| != 0 && |fields| != 0
    ensures keys[0] !in Zip(keys[1..], fields[1..])
  {
    ZipOnlyPrefix(keys[1..], fields[1..]);
    assert forall i :: 0 <= i < |keys[1..]| ==> keys[1..][i] == keys[i + 1] != keys[0];
  }

  lemma {:induction false} ZipValues(keys: seq<string>, fields: seq<string>)
    requires Distinct(keys)
    ensures forall i :: 0 <= i < Min(|keys|, |fields|) ==>
              keys[i] in Zip(keys, fields) && Zip(keys, fields)[keys[i]] == fields[i]
  {
    if |keys| != 0 && |fields| != 0 {
      ZipValues(keys[1..], fields[1..]);
      ZipHeadFresh(keys, fields);
      forall i | 0 <= i < Min(|keys|, |fields|)
        ensures keys[i] in Zip(keys, fields) && Zip(keys, fields)[keys[i]] == fields[i]
      {
        if i > 0 {
          assert keys[i] == keys[1..][i - 1];
        }
      }
    }
  }

  /** A field of the record, or "" when the row did not reach it: how
      `package_to_path(id="", version="", ...)` fills in absent keys. */
  function Get(ld: Record, key: string): string {
    if key in ld then ld[key] else ""
  }

  /** `package_to_path(**ld)` (identical in both scripts): the first four
      columns joined by '_'. */
  function PackageToPath(ld: Record): string {
    Join([Get(ld, "id"), Get(ld, "version"), Get(ld, "platform"), Get(ld, "arch")], "_")
  }

  /** The path stem is the four naming fields joined by '_', whatever else
      the record holds. */
  lemma PackageToPathDefinition(ld: Record)
    ensures PackageToPath(ld) ==
      Get(ld, "id") + "_" + Get(ld, "version") + "_" + Get(ld, "platform") + "_" + Get(ld, "arch")
  {
    JoinFour(Get(ld, "id"), Get(ld, "version"), Get(ld, "platform"), Get(ld, "arch"), "_");
  }

  /** `ext` and every column other than the four naming ones do not matter. */
  lemma PackageToPathIgnoresOthers(ld: Record, key: string, value: string)
    requires key !in {"id", "version", "platform", "arch"}
    ensures PackageToPath(ld[key := value]) == PackageToPath(ld)
  {
    assert Get(ld[key := value], "id") == Get(ld, "id");
    assert Get(ld[key := value], "version") == Get(ld, "version");
    assert Get(ld[key := value], "platform") == Get(ld, "platform");
    assert Get(ld[key := value], "arch") == Get(ld, "arch");
  }

  /** When no naming field holds '_', the stem splits back into them. */
  lemma PackageToPathSplits(ld: Record)
    requires Free(Get(ld, "id"), '_') && Free(Get(ld, "version"), '_')
    requires Free(Get(ld, "platform"), '_') && Free(Get(ld, "arch"), '_')
    ensures Split(PackageToPath(ld), '_') ==
      [Get(ld, "id"), Get(ld, "version"), Get(ld, "platform"), Get(ld, "arch")]
  {
    var parts := [Get(ld, "id"), Get(ld, "version"), Get(ld, "platform"), Get(ld, "arch")];
    SplitJoin(parts, '_');
  }
}
