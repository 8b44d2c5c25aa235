/** `yield_packages` of bin/verify.py: the record of a data line is built
    from the UNSTRIPPED line, so the last field it reaches keeps the line's
    newline; the column-count check only logs; the status code passed in is
    yielded unchanged. */
module VerifyManifest {
  import opened Common
  import opened Text
  import opened Manifest

  /** The column names of bin/verify.py. */
  const Keys: seq<string> := ["id", "version", "platform", "arch", "url", "ext", "sha", "use_upstream"]

  /** The row's fields as the record sees them: `line.split('\t')`. */
  function Fields(line: string): seq<string> {
    Split(line, '\t')
  }

  /** `{k: v for (k, v) in zip(keys, line.split('\t'))}`. */
  function LineRecord(line: string): Record {
    Zip(Keys, Fields(line))
  }

  /** What is yielded for data line number `lineno`. */
  function YieldAt(lines: seq<string>, lineno: nat, meta: bool, retcode: Option<int>): Yielded
    requires lineno < |lines|
  {
    var ld := LineRecord(lines[lineno]);
    if meta then Meta(ld, lineno, lines[lineno], retcode) else Plain(ld)
  }

  /** The whole parse, as a sequence: one item per data line, in order. */
  method YieldPackages(lines: seq<string>, meta: bool, retcode: Option<int>) returns (out: seq<Yielded>)
    ensures |out| == |DataLines(lines)|
    ensures forall k :: 0 <= k < |out| ==> out[k] == YieldAt(lines, DataLines(lines)[k], meta, retcode)
  {
    out := [];
    for lineno := 0 to |lines|
      invariant |out| == |DataLines(lines[..lineno])|
      invariant forall k :: 0 <= k < |out| ==>
                  DataLines(lines[..lineno])[k] < |lines| &&
                  out[k] == YieldAt(lines, DataLines(lines[..lineno])[k], meta, retcode)
    {
      var line := lines[lineno];
      DataLinesSnoc(lines, lineno);
      if IsComment(line) {
        continue;
      }
      // A wrong column count is only logged.
      var ld := Zip(Keys, Split(line, '\t'));
      if meta {
        out := out + [Meta(ld, lineno, line, retcode)];
      } else {
        out := out + [Plain(ld)];
      }
    }
    assert lines[..|lines|] == lines;
  }

  /** Every comment line is skipped and every other line gives exactly one
      item, in input order, carrying its own record (and, in meta mode, its
      line number, its text and the status code passed in, unchanged). */
  lemma YieldsFollowDataLines(lines: seq<string>, meta: bool, retcode: Option<int>, out: seq<Yielded>)
    requires |out| == |DataLines(lines)|
    requires forall k :: 0 <= k < |out| ==> out[k] == YieldAt(lines, DataLines(lines)[k], meta, retcode)
    ensures forall i :: 0 <= i < |lines| && !IsComment(lines[i]) ==>
              exists k :: 0 <= k < |out| && out[k].ld == LineRecord(lines[i]) && DataLines(lines)[k] == i
    ensures forall k, l :: 0 <= k < l < |out| ==> DataLines(lines)[k] < DataLines(lines)[l]
    ensures forall k :: 0 <= k < |out| ==> !IsComment(lines[DataLines(lines)[k]])
    ensures meta ==> forall k :: 0 <= k < |out| ==>
              out[k].Meta? && out[k].retcode == retcode && out[k].lineno == DataLines(lines)[k] &&
              out[k].line == lines[out[k].lineno]
    ensures !meta ==> forall k :: 0 <= k < |out| ==> out[k].Plain?
  {
    var idx := DataLines(lines);
    forall i | 0 <= i < |lines| && !IsComment(lines[i])
      ensures exists k :: 0 <= k < |out| && out[k].ld == LineRecord(lines[i]) && idx[k] == i
    {
      var k :| 0 <= k < |idx| && idx[k] == i;
      assert out[k].ld == LineRecord(lines[i]);
    }
  }

  /** A manifest made only of comments yields nothing. */
  lemma OnlyCommentsYieldNothing(lines: seq<string>)
    requires forall i :: 0 <= i < |lines| ==> IsComment(lines[i])
    ensures DataLines(lines) == []
  {
  }

  lemma KeysDistinct()
    ensures Distinct(Keys)
  {
  }

  /** A row is yielded whatever its column count: its record holds exactly
      min(8, number of tab-separated fields) keys, taken positionally from
      the unstripped split. */
  lemma RecordShape(line: string)
    ensures |LineRecord(line)| == Min(8, |Fields(line)|)
    ensures forall i :: 0 <= i < Min(8, |Fields(line)|) ==>
              Keys[i] in LineRecord(line) && LineRecord(line)[Keys[i]] == Fields(line)[i]
    ensures forall k :: k in LineRecord(line) ==>
              exists i :: 0 <= i < Min(8, |Fields(line)|) && Keys[i] == k
  {
    KeysDistinct();
    ZipSpec(Keys, Fields(line));
  }

  /** The newline that ends a well-formed line stays in its last field:
      `use_upstream` of "f1<TAB>...<TAB>f8\n" is "f8\n". */
  lemma LastFieldKeepsNewline(fields: seq<string>)
    requires |fields| == 8
    requires forall k :: 0 <= k < 8 ==> Free(fields[k], '\t')
    ensures "use_upstream" in LineRecord(Join(fields, "\t") + "\n")
    ensures LineRecord(Join(fields, "\t") + "\n")["use_upstream"] == fields[7] + "\n"
  {
    NewlineNoTab();
    SplitWithTail(fields, '\t', "\n");
    LastKey(Join(fields, "\t") + "\n", fields[..7] + [fields[7] + "\n"]);
  }

  lemma NewlineNoTab()
    ensures Free("\n", '\t')
  {
  }

  /** `use_upstream` is the eighth field of a line with eight fields. */
  lemma LastKey(line: string, parts: seq<string>)
    requires Fields(line) == parts && |parts| == 8
    ensures "use_upstream" in LineRecord(line)
    ensures LineRecord(line)["use_upstream"] == parts[7]
  {
    RecordShape(line);
    assert Keys[7] == "use_upstream";
  }
}
