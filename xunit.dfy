/** `XUnitReportBuilder` of bin/verify.py: a counter record and a list of
    rendered test cases that `ok`, `error`, `failure` and `skip` extend, and
    `serialize`, which renders the suite. As written, `error` and `failure`
    raise only `total`: the `errors` and `failures` counters stay 0. The
    templates are kept without their indentation; nothing is escaped. */
module XUnit {
  import opened Common
  import opened Text

  /** ERROR_TPL. */
  function ErrorBlock(errorName: string, errorMessage: string): string {
    "\n<error type=\"cpc." + errorName + "\" message=\"" + errorMessage + "\">\n</error>\n"
  }

  /** TESTCASE_TPL. */
  function TestCase(name: string, error: string): string {
    "\n<testcase classname=\"downloader\" name=\"" + name + "\">\n" + error + "\n</testcase>\n"
  }

  /** The builder's state: the four counters and the rendered cases. */
  datatype ReportData = ReportData(total: nat, errors: nat, failures: nat, skips: nat, testCases: seq<string>)

  const Empty: ReportData := ReportData(0, 0, 0, 0, [])

  /** One call on the builder. */
  datatype Call =
    | OkCall(name: string)
    | ErrorCall(name: string, errorName: string, errorMessage: string)
    | FailureCall(name: string, errorName: string, errorMessage: string)
    | SkipCall(name: string)

  /** The test case a call appends. */
  function Entry(c: Call): string {
    match c
    case OkCall(name) => TestCase(name, "")
    case ErrorCall(name, errorName, errorMessage) => TestCase(name, ErrorBlock(errorName, errorMessage))
    case FailureCall(name, errorName, errorMessage) => TestCase(name, ErrorBlock(errorName, errorMessage))
    case SkipCall(name) => TestCase(name, "")
  }

  /** The state after one call: `total` goes up by one, `skips` too for a
      skip, and the call's entry is appended. */
  function Apply(d: ReportData, c: Call): ReportData {
    d.(total := d.total + 1,
       skips := if c.SkipCall? then d.skips + 1 else d.skips,
       testCases := d.testCases + [Entry(c)])
  }

  /** The state after a sequence of calls, in order. */
  function ApplyAll(d: ReportData, calls: seq<Call>): ReportData
    decreases |calls|
  {
    if calls == [] then d else ApplyAll(Apply(d, calls[0]), calls[1..])
  }

  function CountSkips(calls: seq<Call>): nat {
    if calls == [] then 0 else (if calls[0].SkipCall? then 1 else 0) + CountSkips(calls[1..])
  }

  /** Whatever the calls: one more in `total` and one more entry per call,
      entries in call order, `skips` up by the number of skips, `errors`
      and `failures` unchanged. */
  lemma {:induction false} ApplyAllSpec(d: ReportData, calls: seq<Call>)
    ensures ApplyAll(d, calls).total == d.total + |calls|
    ensures ApplyAll(d, calls).errors == d.errors && ApplyAll(d, calls).failures == d.failures
    ensures ApplyAll(d, calls).skips == d.skips + CountSkips(calls)
    ensures |ApplyAll(d, calls).testCases| == |d.testCases| + |calls|
    ensures ApplyAll(d, calls).testCases[..|d.testCases|] == d.testCases
    ensures forall i :: 0 <= i < |calls| ==> ApplyAll(d, calls).testCases[|d.testCases| + i] == Entry(calls[i])
    decreases |calls|
  {
    if calls != [] {
      var d1 := Apply(d, calls[0]);
      ApplyAllSpec(d1, calls[1..]);
      var r := ApplyAll(d1, calls[1..]);
      assert r.testCases[..|d.testCases|] == r.testCases[..|d1.testCases|][..|d.testCases|];
      forall i | 0 <= i < |calls|
        ensures r.testCases[|d.testCases| + i] == Entry(calls[i])
      {
        if i > 0 {
          assert calls[1..][i - 1] == calls[i];
        } else {
          assert r.testCases[..|d1.testCases|][|d.testCases|] == Entry(calls[0]);
        }
      }
    }
  }

  /** From the empty report, the case list always has `total` entries,
      `errors` and `failures` are 0 and `skips` counts the skip calls. */
  lemma FromEmpty(calls: seq<Call>)
    ensures ApplyAll(Empty, calls).total == |calls| == |ApplyAll(Empty, calls).testCases|
    ensures ApplyAll(Empty, calls).errors == 0 && ApplyAll(Empty, calls).failures == 0
    ensures ApplyAll(Empty, calls).skips == CountSkips(calls) <= |calls|
    ensures ApplyAll(Empty, calls).testCases == seq(|calls|, i requires 0 <= i < |calls| => Entry(calls[i]))
  {
    ApplyAllSpec(Empty, calls);
    CountSkipsBound(calls);
  }

  lemma {:induction false} CountSkipsBound(calls: seq<Call>)
    ensures CountSkips(calls) <= |calls|
  {
    if calls != [] {
      CountSkipsBound(calls[1..]);
    }
  }

  /** `error` and `failure` with the same arguments append the same entry;
      `ok` and `skip` append an entry whose error block is empty. */
  lemma EntryShapes(name: string, errorName: string, errorMessage: string)
    ensures Entry(ErrorCall(name, errorName, errorMessage)) == Entry(FailureCall(name, errorName, errorMessage))
    ensures Entry(OkCall(name)) == TestCase(name, "") == Entry(SkipCall(name))
    ensures Entry(ErrorCall(name, errorName, errorMessage)) == TestCase(name, ErrorBlock(errorName, errorMessage))
  {
  }

  // ---------------------------------------------------------------------
  // serialize

  const SuiteHead: string := "<?xml version=\"1.0\" encoding=\"UTF-8\"?>\n<testsuite name=\"cpc-fulltest\" tests=\""
  const ErrorsAttr: string := "\" errors=\""
  const FailuresAttr: string := "\" failures=\""
  const SkipAttr: string := "\" skip=\""
  const HeadEnd: string := "\">\n"
  const SuiteEnd: string := "\n</testsuite>\n"

  /** XUNIT_TPL filled with the counters and the joined cases. */
  function SuiteText(total: nat, errors: nat, failures: nat, skips: nat, testCases: string): string {
    SuiteHead + (NatToDecimal(total) + (ErrorsAttr + (NatToDecimal(errors) + (FailuresAttr +
      (NatToDecimal(failures) + (SkipAttr + (NatToDecimal(skips) + (HeadEnd + (testCases + SuiteEnd)))))))))
  }

  /** What `serialize` returns for a state. */
  function Render(d: ReportData): string {
    SuiteText(d.total, d.errors, d.failures, d.skips, Join(d.testCases, "\n"))
  }

  /** A decimal number at the start of `s` followed by `lit`: its value and
      what follows `lit`. */
  function ReadNumber(s: string, lit: string): Option<(nat, string)> {
    var (digits, rest) := TakeDigits(s);
    if digits != [] && StartsWith(rest, lit) then Some((DecimalValue(digits), rest[|lit|..])) else None
  }

  /** The four counters a serialized suite declares, read back from its
      header. */
  function ReadCounts(doc: string): Option<(nat, nat, nat, nat)> {
    if !StartsWith(doc, SuiteHead) then None
    else
      match ReadNumber(doc[|SuiteHead|..], ErrorsAttr)
      case None => None
      case Some((total, r1)) =>
        match ReadNumber(r1, FailuresAttr)
        case None => None
        case Some((errors, r2)) =>
          match ReadNumber(r2, SkipAttr)
          case None => None
          case Some((failures, r3)) =>
            match ReadNumber(r3, HeadEnd)
            case None => None
            case Some((skips, _)) => Some((total, errors, failures, skips))
  }

  lemma ReadNumberAt(n: nat, lit: string, rest: string)
    requires lit != [] && !IsDigit(lit[0])
    ensures ReadNumber(NatToDecimal(n) + (lit + rest), lit) == Some((n, rest))
  {
    TakeDigitsAt(NatToDecimal(n), lit + rest);
    DecimalRoundTrip(n);
    assert (lit + rest)[..|lit|] == lit;
    assert (lit + rest)[|lit|..] == rest;
  }

  /** The serialized suite declares exactly the builder's counters. */
  lemma ReadCountsRender(d: ReportData)
    ensures ReadCounts(Render(d)) == Some((d.total, d.errors, d.failures, d.skips))
  {
    var body := Join(d.testCases, "\n");
    var r4 := HeadEnd + (body + SuiteEnd);
    var r3 := SkipAttr + (NatToDecimal(d.skips) + r4);
    var r2 := FailuresAttr + (NatToDecimal(d.failures) + r3);
    var r1 := ErrorsAttr + (NatToDecimal(d.errors) + r2);
    var doc := Render(d);
    assert doc == SuiteHead + (NatToDecimal(d.total) + r1);
    assert doc[..|SuiteHead|] == SuiteHead;
    assert doc[|SuiteHead|..] == NatToDecimal(d.total) + r1;
    ReadNumberAt(d.total, ErrorsAttr, NatToDecimal(d.errors) + r2);
    ReadNumberAt(d.errors, FailuresAttr, NatToDecimal(d.failures) + r3);
    ReadNumberAt(d.failures, SkipAttr, NatToDecimal(d.skips) + r4);
    ReadNumberAt(d.skips, HeadEnd, body + SuiteEnd);
  }

  // ---------------------------------------------------------------------
  // the builder

  class XUnitReportBuilder {
    var total: nat
    var errors: nat
    var failures: nat
    var skips: nat
    var testCases: seq<string>
    /** `xunit_data['test_cases']`, which `serialize` sets. */
    var joinedCases: Option<string>

    function Data(): ReportData
      reads this
    {
      ReportData(total, errors, failures, skips, testCases)
    }

    /** One entry per counted call. */
    ghost predicate Valid()
      reads this
    {
      |testCases| == total && skips <= total
    }

    constructor ()
      ensures Valid() && Data() == Empty && joinedCases == None
    {
      total, errors, failures, skips := 0, 0, 0, 0;
      testCases := [];
      joinedCases := None;
    }

    method Ok(testName: string)
      requires Valid()
      modifies this
      ensures Valid() && Data() == Apply(old(Data()), OkCall(testName))
      ensures joinedCases == old(joinedCases)
    {
      total := total + 1;
      AddTest(testName, "");
    }

    method Error(testName: string, errorName: string, errorMessage: string)
      requires Valid()
      modifies this
      ensures Valid() && Data() == Apply(old(Data()), ErrorCall(testName, errorName, errorMessage))
      ensures joinedCases == old(joinedCases)
    {
      total := total + 1;
      AddTest(testName, ErrorBlock(errorName, errorMessage));
    }

    method Failure(testName: string, errorName: string, errorMessage: string)
      requires Valid()
      modifies this
      ensures Valid() && Data() == Apply(old(Data()), FailureCall(testName, errorName, errorMessage))
      ensures joinedCases == old(joinedCases)
    {
      total := total + 1;
      AddTest(testName, ErrorBlock(errorName, errorMessage));
    }

    method Skip(testName: string)
      requires Valid()
      modifies this
      ensures Valid() && Data() == Apply(old(Data()), SkipCall(testName))
      ensures joinedCases == old(joinedCases)
    {
      skips := skips + 1;
      total := total + 1;
      AddTest(testName, "");
    }

    /** `__add_test`: appends one rendered case and touches nothing else. */
    method AddTest(name: string, error: string)
      modifies this`testCases
      ensures testCases == old(testCases) + [TestCase(name, error)]
    {
      testCases := testCases + [TestCase(name, error)];
    }

    /** `serialize`: records the joined cases and renders the suite; the
        counters and the case list are left as they were, so a second call
        returns the same text. */
    method Serialize() returns (text: string)
      modifies this`joinedCases
      ensures text == Render(Data())
      ensures joinedCases == Some(Join(testCases, "\n"))
    {
      joinedCases := Some(Join(testCases, "\n"));
      text := SuiteText(total, errors, failures, skips, joinedCases.value);
    }
  }

  /** A builder driven through any calls and then serialized twice reports
      one entry per call, in call order, and the same text both times. */
  method CallsThenSerializeTwice(calls: seq<Call>) returns (first: string, second: string)
    ensures first == second == Render(ApplyAll(Empty, calls))
  {
    var xunit := new XUnitReportBuilder();
    var i := 0;
    while i < |calls|
      invariant 0 <= i <= |calls|
      invariant xunit.Valid()
      invariant ApplyAll(xunit.Data(), calls[i..]) == ApplyAll(Empty, calls)
    {
      assert calls[i..][1..] == calls[i + 1..];
      match calls[i] {
        case OkCall(name) => xunit.Ok(name);
        case ErrorCall(name, errorName, errorMessage) => xunit.Error(name, errorName, errorMessage);
        case FailureCall(name, errorName, errorMessage) => xunit.Failure(name, errorName, errorMessage);
        case SkipCall(name) => xunit.Skip(name);
      }
      i := i + 1;
    }
    first := xunit.Serialize();
    second := xunit.Serialize();
  }
}
