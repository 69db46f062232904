/**
 The verdict of a trace run (valvetraces): the JUnit file, whose counters are written before the
 elements they count, and the exit status, which is computed separately.
 */
module JunitReport {
  import opened Common

  const MIN_ACCEPTABLE_AGREEMENT_COUNT := 20

  datatype CompatibilityReport = CompatibilityReport(isWorking: bool, agreementCount: int)

  /** `lowest_compatibity_agreement_count`. */
  function LowestAgreement(reports: seq<CompatibilityReport>): int {
    if |reports| == 0 then 0
    else if |reports| == 1 then reports[0].agreementCount
    else
      var lowest, last := LowestAgreement(reports[..|reports| - 1]), reports[|reports| - 1].agreementCount;
      if last < lowest then last else lowest
  }

  /** One execution; `acceptable` holds the verdicts on the frames that were uploaded, if any were. */
  datatype TraceExec = TraceExec(retcode: Option<int>, wanted: seq<string>, found: set<string>,
                                 acceptable: Option<map<string, bool>>, reports: seq<CompatibilityReport>) {

    predicate ExpectedToWork() {
      && |reports| > 0 && (forall i :: 0 <= i < |reports| ==> reports[i].isWorking)
      && LowestAgreement(reports) > MIN_ACCEPTABLE_AGREEMENT_COUNT
    }

    predicate HadSuccessfulExecution() {
      retcode == Some(0) && (set f | f in wanted) == found
    }

    predicate IsSuccess() {
      HadSuccessfulExecution() || !ExpectedToWork()
    }

    predicate FrameAcceptable(f: string) {
      if f in found then acceptable.Some? && f in acceptable.value && acceptable.value[f]
      else !ExpectedToWork()
    }
  }

  // ---------------------------------------------------------------------------
  // What the verdicts stand for

  /** There are reports, and all of them say that the trace works, with more agreement than the minimum. */
  ghost predicate Expected(te: TraceExec) {
    te.reports != [] && forall r :: r in te.reports ==>
      r.isWorking && r.agreementCount > MIN_ACCEPTABLE_AGREEMENT_COUNT
  }

  /** The frame was uploaded and found acceptable. */
  ghost predicate Accepted(te: TraceExec, f: string) {
    te.acceptable.Some? && f in te.acceptable.value && te.acceptable.value[f]
  }

  /**
   A trace that is expected to work ran to its end and made exactly the wanted frames. Of any trace, the
   wanted frames that it made were accepted.
   */
  ghost predicate GoesWell(te: TraceExec) {
    && (Expected(te) ==> te.retcode == Some(0) && forall f :: f in te.wanted <==> f in te.found)
    && forall f :: f in te.wanted && f in te.found ==> Accepted(te, f)
  }

  lemma {:induction false} LowestExactly(reports: seq<CompatibilityReport>, bound: int)
    requires |reports| > 0
    ensures LowestAgreement(reports) > bound <==> forall r :: r in reports ==> r.agreementCount > bound
  {
    LastOf(reports);
    if |reports| > 1 {
      LowestExactly(reports[..|reports| - 1], bound);
    }
  }

  lemma ExpectedExactly(te: TraceExec)
    ensures te.ExpectedToWork() <==> Expected(te)
  {
    if |te.reports| > 0 {
      LowestExactly(te.reports, MIN_ACCEPTABLE_AGREEMENT_COUNT);
    }
  }

  /** An execution adds nothing to the failures exactly when it went well. */
  lemma WellExactly(te: TraceExec)
    ensures te.IsSuccess() && (forall i :: 0 <= i < |te.wanted| ==> te.FrameAcceptable(te.wanted[i])) <==> GoesWell(te)
  {
    ExpectedExactly(te);
    assert te.HadSuccessfulExecution() <==>
           te.retcode == Some(0) && forall f :: f in te.wanted <==> f in te.found by {
      var wanted := set f | f in te.wanted;
      assert forall f :: f in wanted <==> f in te.wanted;
    }
    if GoesWell(te) {
      forall i | 0 <= i < |te.wanted|
        ensures te.FrameAcceptable(te.wanted[i])
      {
        assert te.wanted[i] in te.wanted;
      }
    }
  }

  /** An element of the file: does the test case hold a failure? */
  datatype Case = Case(failed: bool)

  datatype Suite = Suite(tests: nat, failures: nat, cases: seq<Case>)

  /** The attributes of the enclosing element. */
  datatype File = File(tests: nat, failures: nat, suites: seq<Suite>)

  function Failed(cases: seq<Case>): nat {
    if |cases| == 0 then 0 else Failed(cases[..|cases| - 1]) + if cases[|cases| - 1].failed then 1 else 0
  }

  /** The `frames` property: the verdict on every wanted frame. */
  method Frames(te: TraceExec) returns (frames: seq<bool>)
    ensures |frames| == |te.wanted| && forall i :: 0 <= i < |frames| ==> frames[i] == te.FrameAcceptable(te.wanted[i])
  {
    frames := [];
    for i := 0 to |te.wanted|
      invariant |frames| == i && forall k :: 0 <= k < i ==> frames[k] == te.FrameAcceptable(te.wanted[k])
    {
      var f := te.wanted[i];
      var ok;
      if f in te.found {
        if te.acceptable.Some? {
          ok := if f in te.acceptable.value then te.acceptable.value[f] else false;
        } else {
          ok := false;
        }
      } else {
        ok := !te.ExpectedToWork();
      }
      frames := frames + [ok];
    }
  }

  function Rejected(te: TraceExec, n: nat): nat
    requires n <= |te.wanted|
  {
    if n == 0 then 0 else Rejected(te, n - 1) + if te.FrameAcceptable(te.wanted[n - 1]) then 0 else 1
  }

  /** The case of the execution, then one for every wanted frame. */
  ghost predicate CasesOf(te: TraceExec, cases: seq<Case>) {
    && 1 <= |cases| <= 1 + |te.wanted| && (cases[0].failed <==> !te.IsSuccess())
    && forall i :: 1 <= i < |cases| ==> (cases[i].failed <==> !te.FrameAcceptable(te.wanted[i - 1]))
  }

  lemma {:induction false} FailedCases(te: TraceExec, cases: seq<Case>)
    requires CasesOf(te, cases)
    ensures Failed(cases) == Rejected(te, |cases| - 1) + if te.IsSuccess() then 0 else 1
  {
    if |cases| > 1 {
      FailedCases(te, cases[..|cases| - 1]);
    } else {
      assert cases[..0] == [];
    }
  }

  /** The elements of a suite, from a second look at the verdicts. */
  method GenerateCases(te: TraceExec, frames: seq<bool>) returns (cases: seq<Case>)
    requires |frames| == |te.wanted|
    requires forall i :: 0 <= i < |frames| ==> frames[i] == te.FrameAcceptable(te.wanted[i])
    ensures CasesOf(te, cases) && |cases| == 1 + |frames|
  {
    cases := [Case(!te.HadSuccessfulExecution() && te.ExpectedToWork())];
    for i := 0 to |frames|
      invariant |cases| == 1 + i && CasesOf(te, cases)
    {
      cases := cases + [Case(!frames[i])];
    }
  }

  /** The suite of an execution: its cases, and counters that agree with them. */
  ghost predicate SuiteOf(te: TraceExec, suite: Suite) {
    && CasesOf(te, suite.cases) && suite.tests == |suite.cases| == 1 + |te.wanted|
    && suite.failures == Failed(suite.cases)
  }

  /** Lines 1584-1629: the counters come from the verdicts before any element is made. */
  method GenerateSuite(te: TraceExec) returns (suite: Suite)
    ensures SuiteOf(te, suite)
    ensures suite.failures == Rejected(te, |te.wanted|) + if te.IsSuccess() then 0 else 1
  {
    var frames := Frames(te);
    var rejected := CountRejected(te, frames);
    var failures := (if te.IsSuccess() then 0 else 1) + rejected;
    var cases := GenerateCases(te, frames);
    FailedCases(te, cases);
    suite := Suite(1 + |frames|, failures, cases);
  }

  function Tests(suites: seq<Suite>): nat {
    if |suites| == 0 then 0 else Tests(suites[..|suites| - 1]) + suites[|suites| - 1].tests
  }

  function Failures(suites: seq<Suite>): nat {
    if |suites| == 0 then 0 else Failures(suites[..|suites| - 1]) + suites[|suites| - 1].failures
  }

  function AllRejected(execs: seq<TraceExec>): nat {
    if |execs| == 0 then 0
    else AllRejected(execs[..|execs| - 1]) + Rejected(execs[|execs| - 1], |execs[|execs| - 1].wanted|)
  }

  function AllWanted(execs: seq<TraceExec>): nat {
    if |execs| == 0 then 0 else AllWanted(execs[..|execs| - 1]) + |execs[|execs| - 1].wanted|
  }

  function FailedExecutions(execs: seq<TraceExec>): nat {
    if |execs| == 0 then 0
    else FailedExecutions(execs[..|execs| - 1]) + if execs[|execs| - 1].IsSuccess() then 0 else 1
  }

  lemma CountsSnoc(suites: seq<Suite>, suite: Suite, execs: seq<TraceExec>, i: nat)
    requires i < |execs|
    ensures Tests(suites + [suite]) == Tests(suites) + suite.tests
    ensures Failures(suites + [suite]) == Failures(suites) + suite.failures
    ensures AllWanted(execs[..i + 1]) == AllWanted(execs[..i]) + |execs[i].wanted|
    ensures AllRejected(execs[..i + 1]) == AllRejected(execs[..i]) + Rejected(execs[i], |execs[i].wanted|)
    ensures FailedExecutions(execs[..i + 1]) == FailedExecutions(execs[..i]) + if execs[i].IsSuccess() then 0 else 1
  {
    assert (suites + [suite])[..|suites|] == suites && execs[..i + 1][..i] == execs[..i];
  }

  /** How many verdicts on the frames of an execution are bad. */
  method CountRejected(te: TraceExec, frames: seq<bool>) returns (rejected: nat)
    requires |frames| == |te.wanted|
    requires forall i :: 0 <= i < |frames| ==> frames[i] == te.FrameAcceptable(te.wanted[i])
    ensures rejected == Rejected(te, |te.wanted|)
  {
    rejected := 0;
    for i := 0 to |frames|
      invariant rejected == Rejected(te, i)
    {
      if !frames[i] {
        rejected := rejected + 1;
      }
    }
  }

  /** The lengths of `all_frames` and `all_unacceptable_frames`. */
  method CountFrames(execs: seq<TraceExec>) returns (tests: nat, failures: nat)
    ensures tests == AllWanted(execs) && failures == AllRejected(execs)
  {
    tests, failures := 0, 0;
    for i := 0 to |execs|
      invariant tests == AllWanted(execs[..i]) && failures == AllRejected(execs[..i])
    {
      var frames := Frames(execs[i]);
      var rejected := CountRejected(execs[i], frames);
      CountsSnoc([], Suite(0, 0, []), execs, i);
      tests, failures := tests + |frames|, failures + rejected;
    }
    assert execs[..|execs|] == execs;
  }

  /**
   Every suite's counters match its elements. The counters of the whole file count the frames of all
   suites but none of their executions.
   */
  method GenerateJunit(execs: seq<TraceExec>) returns (file: File)
    ensures |file.suites| == |execs|
    ensures forall i :: 0 <= i < |execs| ==> SuiteOf(execs[i], file.suites[i])
    ensures Failures(file.suites) == AllRejected(execs) + FailedExecutions(execs)
    ensures file.failures + FailedExecutions(execs) == Failures(file.suites)
    ensures file.tests + |execs| == Tests(file.suites)
  {
    var tests, failures := CountFrames(execs);
    var suites: seq<Suite> := [];
    for i := 0 to |execs|
      invariant |suites| == i
      invariant forall k :: 0 <= k < i ==> SuiteOf(execs[k], suites[k])
      invariant Failures(suites) == AllRejected(execs[..i]) + FailedExecutions(execs[..i])
      invariant Tests(suites) == AllWanted(execs[..i]) + i
    {
      var suite := GenerateSuite(execs[i]);
      CountsSnoc(suites, suite, execs, i);
      suites := suites + [suite];
    }
    assert execs[..|execs|] == execs;
    file := File(tests, failures, suites);
  }

  /** `Report.is_success`, which decides the exit status. */
  method IsSuccess(execs: seq<TraceExec>) returns (success: bool)
    ensures success <==> AllRejected(execs) + FailedExecutions(execs) == 0
  {
    for i := 0 to |execs|
      invariant AllRejected(execs[..i]) + FailedExecutions(execs[..i]) == 0
    {
      var te := execs[i];
      CountsGrow(execs, i + 1);
      assert execs[..i + 1][..i] == execs[..i];
      if !te.HadSuccessfulExecution() && te.ExpectedToWork() {
        return false;
      }
      var acceptable := AllFramesAcceptable(te);
      if !acceptable {
        return false;
      }
    }
    assert execs[..|execs|] == execs;
    success := true;
  }

  method AllFramesAcceptable(te: TraceExec) returns (ok: bool)
    ensures ok <==> Rejected(te, |te.wanted|) == 0
  {
    var frames := Frames(te);
    for i := 0 to |frames|
      invariant Rejected(te, i) == 0
    {
      if !frames[i] {
        RejectedGrows(te, i + 1, |te.wanted|);
        return false;
      }
    }
    ok := true;
  }

  lemma {:induction false} RejectedGrows(te: TraceExec, i: nat, n: nat)
    requires i <= n <= |te.wanted|
    ensures Rejected(te, i) <= Rejected(te, n)
    decreases n
  {
    if i < n {
      RejectedGrows(te, i, n - 1);
    }
  }

  lemma {:induction false} CountsGrow(execs: seq<TraceExec>, i: nat)
    requires i <= |execs|
    ensures AllRejected(execs[..i]) <= AllRejected(execs) && FailedExecutions(execs[..i]) <= FailedExecutions(execs)
    decreases |execs|
  {
    if i < |execs| {
      var front := execs[..|execs| - 1];
      CountsGrow(front, i);
      assert front[..i] == execs[..i];
    } else {
      assert execs[..i] == execs;
    }
  }

  /**
   The end of `report_results`: the exit code is zero exactly when every execution went well, which is
   when the failures of all suites add up to zero. The failure counter of the whole file only says so
   when every execution succeeded.
   */
  method ReportResults(execs: seq<TraceExec>) returns (file: File, exitCode: int)
    ensures exitCode == 0 <==> Failures(file.suites) == 0
    ensures exitCode == 0 <==> forall i :: 0 <= i < |execs| ==> GoesWell(execs[i])
    ensures file.failures == Failures(file.suites) <==> forall i :: 0 <= i < |execs| ==> execs[i].IsSuccess()
  {
    file := GenerateJunit(execs);
    var success := IsSuccess(execs);
    FailedExecutionsZero(execs);
    NothingFailed(execs);
    exitCode := if success then 0 else 1;
  }

  lemma {:induction false} NoneRejected(te: TraceExec, n: nat)
    requires n <= |te.wanted|
    ensures Rejected(te, n) == 0 <==> forall i :: 0 <= i < n ==> te.FrameAcceptable(te.wanted[i])
  {
    if n > 0 {
      NoneRejected(te, n - 1);
    }
  }

  lemma {:induction false} NothingFailed(execs: seq<TraceExec>)
    ensures AllRejected(execs) + FailedExecutions(execs) == 0 <==> forall i :: 0 <= i < |execs| ==> GoesWell(execs[i])
  {
    if |execs| > 0 {
      var front, last := execs[..|execs| - 1], execs[|execs| - 1];
      NothingFailed(front);
      NoneRejected(last, |last.wanted|);
      WellExactly(last);
    }
  }

  lemma {:induction false} FailedExecutionsZero(execs: seq<TraceExec>)
    ensures FailedExecutions(execs) == 0 <==> forall i :: 0 <= i < |execs| ==> execs[i].IsSuccess()
  {
    if |execs| > 0 {
      FailedExecutionsZero(execs[..|execs| - 1]);
    }
  }
}
