/** A watchdog's start time (job.py) over whole histories of console lines and boots. */
module Watchdogs {
  import opened Common
  import opened LineCutting

  datatype WatchdogPatterns = WatchdogPatterns(start: Bytes -> bool, reset: Bytes -> bool, stop: Bytes -> bool)

  /** `Watchdog.process_line`, on what is remembered of the watchdog's start. */
  function WatchdogStep<T>(w: WatchdogPatterns, started: Option<T>, line: Bytes, now: T): Option<T> {
    if started.None? then (if w.start(line) then Some(now) else None)
    else if w.reset(line) then Some(now)
    else if w.stop(line) then None
    else started
  }

  /** What happens to the watchdogs of a job: a console line, or the stop of all of them for a boot. */
  datatype Signal = Line(at: int, text: Bytes) | BootStop

  function StartedAt(w: WatchdogPatterns, h: seq<Signal>): Option<int> {
    if |h| == 0 then None
    else match h[|h| - 1]
      case Line(at, text) => WatchdogStep(w, StartedAt(w, h[..|h| - 1]), text, at)
      case BootStop => None
  }

  lemma StartedSnoc(w: WatchdogPatterns, h: seq<Signal>, at: int, text: Bytes)
    ensures StartedAt(w, h + [Line(at, text)]) == WatchdogStep(w, StartedAt(w, h), text, at)
  {
    assert (h + [Line(at, text)])[..|h|] == h;
  }

  /** Signal `i` started the idle watchdog or reset the running one. */
  ghost predicate Accepted(w: WatchdogPatterns, h: seq<Signal>, i: nat)
    requires i < |h|
  {
    h[i].Line? && (if StartedAt(w, h[..i]).None? then w.start(h[i].text) else w.reset(h[i].text))
  }

  /** Signal `i` is a boot, or stopped the running watchdog without resetting it. */
  ghost predicate Disarmed(w: WatchdogPatterns, h: seq<Signal>, i: nat)
    requires i < |h|
  {
    h[i].Line? ==> StartedAt(w, h[..i]).Some? && !w.reset(h[i].text) && w.stop(h[i].text)
  }

  /** Signal `i` is the latest accepted start or reset, and nothing disarmed the watchdog since. */
  ghost predicate LatestAccepted(w: WatchdogPatterns, h: seq<Signal>, i: nat)
    requires i < |h|
  {
    Accepted(w, h, i) && forall j :: i < j < |h| ==> !Accepted(w, h, j) && !Disarmed(w, h, j)
  }

  lemma LatestAcceptedPrefix(w: WatchdogPatterns, h: seq<Signal>, n: nat, i: nat)
    requires i < n <= |h|
    ensures Accepted(w, h[..n], i) == Accepted(w, h, i)
    ensures Disarmed(w, h[..n], i) == Disarmed(w, h, i)
  {
    assert h[..n][..i] == h[..i];
  }

  /** What one more signal does to the latest accepted one. */
  lemma LatestAcceptedSnoc(w: WatchdogPatterns, h: seq<Signal>, i: nat)
    requires i < |h| - 1
    ensures LatestAccepted(w, h, i)
       <==> && LatestAccepted(w, h[..|h| - 1], i)
            && !Accepted(w, h, |h| - 1) && !Disarmed(w, h, |h| - 1)
  {
    var n := |h| - 1;
    forall j | 0 <= j < n
      ensures Accepted(w, h[..n], j) == Accepted(w, h, j) && Disarmed(w, h[..n], j) == Disarmed(w, h, j)
    {
      LatestAcceptedPrefix(w, h, n, j);
    }
  }

  /** The watchdog started at `t` exactly when its latest accepted signal, never disarmed since, was at `t`. */
  lemma {:induction false} StartTimeIsLatestAccepted(w: WatchdogPatterns, h: seq<Signal>, t: int)
    ensures StartedAt(w, h) == Some(t)
       <==> exists i :: 0 <= i < |h| && h[i].Line? && h[i].at == t && LatestAccepted(w, h, i)
  {
    if |h| > 0 {
      var n := |h| - 1;
      var front := h[..n];
      StartTimeIsLatestAccepted(w, front, t);
      forall i | 0 <= i < n
        ensures front[i] == h[i]
        ensures LatestAccepted(w, h, i) <==> LatestAccepted(w, front, i) && !Accepted(w, h, n) && !Disarmed(w, h, n)
      {
        LatestAcceptedSnoc(w, h, i);
      }
      assert LatestAccepted(w, h, n) == Accepted(w, h, n);
    }
  }

  /** No line both starts an idle watchdog and stops a running one. */
  ghost predicate Unambiguous(w: WatchdogPatterns, h: seq<Signal>) {
    forall i :: 0 <= i < |h| && h[i].Line? && w.start(h[i].text) && w.stop(h[i].text) ==> w.reset(h[i].text)
  }

  predicate Quiet(w: WatchdogPatterns, e: Signal) {
    e.Line? && (w.stop(e.text) ==> w.reset(e.text))
  }

  ghost predicate StartedThenQuiet(w: WatchdogPatterns, h: seq<Signal>, i: nat)
    requires i < |h|
  {
    h[i].Line? && w.start(h[i].text) && forall j :: i < j < |h| ==> Quiet(w, h[j])
  }

  /** Without looking at the state: running means a start line with neither a boot nor a stop after it. */
  lemma {:induction false} RunningMeansStarted(w: WatchdogPatterns, h: seq<Signal>)
    requires Unambiguous(w, h)
    ensures StartedAt(w, h).Some? <==> exists i :: 0 <= i < |h| && StartedThenQuiet(w, h, i)
  {
    if |h| > 0 {
      var n := |h| - 1;
      var front := h[..n];
      assert forall i :: 0 <= i < n ==> front[i] == h[i];
      RunningMeansStarted(w, front);
      if Quiet(w, h[n]) {
        assert forall i :: 0 <= i < n ==> StartedThenQuiet(w, h, i) == StartedThenQuiet(w, front, i);
      } else {
        assert forall i :: 0 <= i < n ==> !StartedThenQuiet(w, h, i);
      }
      assert StartedThenQuiet(w, h, n) == (h[n].Line? && w.start(h[n].text));
      if StartedAt(w, h).Some? && StartedAt(w, front).Some? {
        var i :| 0 <= i < n && StartedThenQuiet(w, front, i);
        assert StartedThenQuiet(w, h, i);
      }
    }
  }

  const TOGGLING := WatchdogPatterns(_ => true, _ => false, _ => true)

  /** An ambiguous line toggles the watchdog, which no reading of the lines alone can tell. */
  lemma AmbiguousLineToggles(text: Bytes)
    ensures var h := [Line(0, text), Line(1, text)];
            StartedAt(TOGGLING, h).None? && StartedThenQuiet(TOGGLING, h, 1)
  {
    var h := [Line(0, text), Line(1, text)];
    assert h[..1][..0] == [];
    assert StartedAt(TOGGLING, h[..1]) == WatchdogStep(TOGGLING, StartedAt(TOGGLING, []), text, 0) == Some(0);
    assert StartedAt(TOGGLING, h) == WatchdogStep(TOGGLING, StartedAt(TOGGLING, h[..1]), text, 1);
  }

  // ---------------------------------------------------------------------------
  // Only the lines matter

  /** A history without its times. */
  function Untimed(h: seq<Signal>): (u: seq<Option<Bytes>>)
    ensures |u| == |h|
  {
    seq(|h|, i requires 0 <= i < |h| => if h[i].Line? then Some(h[i].text) else None)
  }

  /** Which signal started the watchdog. */
  function StartedBy(w: WatchdogPatterns, u: seq<Option<Bytes>>): (i: Option<nat>)
    ensures i.Some? ==> i.value < |u| && u[i.value].Some?
  {
    if |u| == 0 || u[|u| - 1].None? then None
    else WatchdogStep(w, StartedBy(w, u[..|u| - 1]), u[|u| - 1].value, |u| - 1)
  }

  /**
   When the lines were read does not decide which of them started the watchdog, nor whether it runs:
   its start time is that of a signal which the lines and boots alone determine.
   */
  lemma {:induction false} OnlyTheLinesMatter(w: WatchdogPatterns, h: seq<Signal>)
    ensures var i := StartedBy(w, Untimed(h));
            && (i.Some? ==> h[i.value].Line?)
            && StartedAt(w, h) == if i.Some? then Some(h[i.value].at) else None
  {
    if |h| > 0 {
      OnlyTheLinesMatter(w, h[..|h| - 1]);
      assert Untimed(h)[..|h| - 1] == Untimed(h[..|h| - 1]);
    }
  }
}
