/**
 * The specification side of a playlist batch: overall progress, how one
 * attempt's engine outcome is handled by the per-item task, what the retrying
 * task returns, the summary reported when the pool drains, and one step of
 * the single-download poll.
 */
module BatchSpec {
  import opened TextFormat
  import opened LogCleaning

  /**
   * Overall progress published after a counter changes: the percentage of
   * completed items, rounded down.
   */
  function OverallProgress(completed: nat, total: nat): (p: nat)
    requires total > 0
    ensures p * total <= completed * 100 < (p + 1) * total
  {
    completed * 100 / total
  }

  /** For a fixed total, more completed items never show less progress. */
  lemma OverallProgressMonotone(c1: nat, c2: nat, total: nat)
    requires total > 0 && c1 <= c2
    ensures OverallProgress(c1, total) <= OverallProgress(c2, total)
  {
    var p1, p2 := OverallProgress(c1, total), OverallProgress(c2, total);
    if p1 > p2 {
      assert p1 >= p2 + 1;
      assert p1 * total >= (p2 + 1) * total by {
        MultiplyMonotone(p2 + 1, p1, total);
      }
      assert false;
    }
  }

  lemma MultiplyMonotone(a: nat, b: nat, n: nat)
    requires a <= b
    ensures a * n <= b * n
  {
  }

  /** The whole batch done shows 100; no completed item shows 0. */
  lemma OverallProgressEnds(total: nat)
    requires total > 0
    ensures OverallProgress(total, total) == 100
    ensures OverallProgress(0, total) == 0
  {
  }

  /** What the engine did on one attempt of a per-item task. */
  datatype Attempt =
    | Success              // metadata returned and the download finished
    | EngineError(msg: string)  // metadata or download raised; msg is the exception text
    | NoInfo               // metadata came back empty
    | EscapedError         // an exception outside the engine call (it reaches the retrying handler)

  /** Which handler an attempt ends in. */
  datatype Handling = Succeeded | CountedFailure | Escaped

  /** The text of the exception the progress hook raises once downloading has been switched off. */
  const CancelMessage: string := "Download cancelled by user"

  /**
   * Errors from the engine end in the inner handler and are counted failures,
   * except that a private-video error makes that handler read the cookie
   * setting: when it cannot be read, the handler itself raises and the attempt
   * escapes to the retrying handler.
   */
  function Classify(a: Attempt, cookiesReadable: bool): (h: Handling)
    ensures h == Succeeded <==> a.Success?
    ensures h == Escaped <==> (a.EscapedError? || (a.EngineError? && Occurs(PrivateVideoMarker, a.msg) && !cookiesReadable))
  {
    match a
    case Success => Succeeded
    case EngineError(msg) => if Occurs(PrivateVideoMarker, msg) && !cookiesReadable then Escaped else CountedFailure
    case NoInfo => CountedFailure
    case EscapedError => Escaped
  }

  /** A user cancellation surfaces as an engine error and is a counted failure, never retried. */
  lemma CancellationIsCountedFailure(cookiesReadable: bool)
    ensures Classify(EngineError(CancelMessage), cookiesReadable) == CountedFailure
  {
    AbsentWhenHeadAbsent(PrivateVideoMarker, CancelMessage);
  }

  const MaxRetries: nat := 3

  /** The boolean the task returns and how many attempts it made. */
  datatype TaskOutcome = TaskOutcome(ok: bool, attempts: nat)

  /** The task from attempt `k` on, all earlier attempts having escaped. */
  function TaskFrom(url: string, attempts: seq<Attempt>, cookiesReadable: bool, k: nat): (r: TaskOutcome)
    requires k < MaxRetries <= |attempts|
    ensures k < r.attempts <= MaxRetries
    decreases MaxRetries - k
  {
    if url == [] then TaskOutcome(false, k + 1)
    else
      match Classify(attempts[k], cookiesReadable)
      case Succeeded => TaskOutcome(true, k + 1)
      case CountedFailure => TaskOutcome(false, k + 1)
      case Escaped => if k + 1 < MaxRetries then TaskFrom(url, attempts, cookiesReadable, k + 1) else TaskOutcome(false, k + 1)
  }

  /** `download_single_video_task` with the engine's answer to each possible attempt. */
  function RunTask(url: string, attempts: seq<Attempt>, cookiesReadable: bool): (r: TaskOutcome)
    requires MaxRetries <= |attempts|
    ensures 1 <= r.attempts <= MaxRetries
  {
    TaskFrom(url, attempts, cookiesReadable, 0)
  }

  /** Attempts before `k` all escaped. */
  predicate EscapedBefore(attempts: seq<Attempt>, cookiesReadable: bool, k: nat)
    requires k <= |attempts|
  {
    forall i | 0 <= i < k :: Classify(attempts[i], cookiesReadable) == Escaped
  }

  /** Once some attempts have escaped, the task goes on exactly as if it started at the next one. */
  lemma {:induction false} RunTaskSkipsEscapes(url: string, attempts: seq<Attempt>, cookiesReadable: bool, k: nat)
    requires url != []
    requires k < MaxRetries <= |attempts|
    requires EscapedBefore(attempts, cookiesReadable, k)
    ensures RunTask(url, attempts, cookiesReadable) == TaskFrom(url, attempts, cookiesReadable, k)
  {
    if k > 0 {
      RunTaskSkipsEscapes(url, attempts, cookiesReadable, k - 1);
    }
  }

  /** The task returns True exactly when some attempt succeeds and every attempt before it escaped. */
  lemma {:induction false} RunTaskSucceedsIff(url: string, attempts: seq<Attempt>, cookiesReadable: bool)
    requires MaxRetries <= |attempts|
    ensures RunTask(url, attempts, cookiesReadable).ok <==>
      url != [] && exists j :: 0 <= j < MaxRetries && attempts[j].Success? && EscapedBefore(attempts, cookiesReadable, j)
  {
    if url != [] {
      var k := 0;
      while k < MaxRetries && Classify(attempts[k], cookiesReadable) == Escaped
        invariant 0 <= k <= MaxRetries
        invariant EscapedBefore(attempts, cookiesReadable, k)
      {
        k := k + 1;
      }
      if k < MaxRetries {
        RunTaskSkipsEscapes(url, attempts, cookiesReadable, k);
        assert forall j | 0 <= j < MaxRetries && EscapedBefore(attempts, cookiesReadable, j) :: j <= k;
      } else {
        RunTaskSkipsEscapes(url, attempts, cookiesReadable, MaxRetries - 1);
      }
    }
  }

  /** An engine error (or missing metadata) ends the task on that same attempt, with no retry. */
  lemma CountedFailureStopsTask(url: string, attempts: seq<Attempt>, cookiesReadable: bool, k: nat)
    requires url != []
    requires k < MaxRetries <= |attempts|
    requires EscapedBefore(attempts, cookiesReadable, k)
    requires Classify(attempts[k], cookiesReadable) == CountedFailure
    ensures RunTask(url, attempts, cookiesReadable) == TaskOutcome(false, k + 1)
  {
    RunTaskSkipsEscapes(url, attempts, cookiesReadable, k);
  }

  /** Three escaped attempts end the task with False after the third. */
  lemma EscapesExhaustRetries(url: string, attempts: seq<Attempt>, cookiesReadable: bool)
    requires url != []
    requires MaxRetries <= |attempts|
    requires EscapedBefore(attempts, cookiesReadable, MaxRetries)
    ensures RunTask(url, attempts, cookiesReadable) == TaskOutcome(false, MaxRetries)
  {
    RunTaskSkipsEscapes(url, attempts, cookiesReadable, MaxRetries - 1);
  }

  /** A task without a URL fails on its first attempt, before asking the engine anything. */
  lemma MissingUrlFailsAtOnce(attempts: seq<Attempt>, cookiesReadable: bool)
    requires MaxRetries <= |attempts|
    ensures RunTask([], attempts, cookiesReadable) == TaskOutcome(false, 1)
  {
  }

  /** The report made when the monitor stops waiting for the pool. */
  datatype Summary =
    | Cancelled
    | Partial(successful: int, total: nat, failed: nat, successRate: real)
    | AllSucceeded(total: nat)

  /** The share of successful items, as a percentage of the total; 0 for an empty batch. */
  function SuccessRate(successful: int, total: nat): (rate: real)
    ensures total == 0 ==> rate == 0.0
    ensures total > 0 ==> rate * (total as real) == (successful as real) * 100.0
  {
    if total > 0 then (successful as real / total as real) * 100.0 else 0.0
  }

  /**
   * The monitor's final report: cancelled when downloading was switched off,
   * otherwise a partial summary quoting successful/total and the failures when
   * any item failed, otherwise the all-succeeded summary.
   */
  function DrainSummary(cancelled: bool, completed: nat, failed: nat, total: nat): (r: Summary)
    ensures r.Cancelled? <==> cancelled
    ensures r.Partial? <==> !cancelled && failed > 0
    ensures r.AllSucceeded? <==> !cancelled && failed == 0
    ensures r.Partial? ==>
      && r.failed == failed
      && r.successful == completed - failed
      && r.successful + r.failed == completed
      && r.total == total
      && r.successRate == SuccessRate(r.successful, total)
    ensures r.AllSucceeded? ==> r.total == total
  {
    if cancelled then Cancelled
    else
      var successful := completed - failed;
      if failed > 0 then Partial(successful, total, failed, SuccessRate(successful, total))
      else AllSucceeded(total)
  }

  /** While failures never outnumber completions, the reported success count is never negative. */
  lemma PartialSuccessNonNegative(completed: nat, failed: nat, total: nat)
    requires failed <= completed
    ensures DrainSummary(false, completed, failed, total).Partial? ==>
              DrainSummary(false, completed, failed, total).successful >= 0
  {
  }

  /** With every item accounted for and at least one success, the rate lies strictly between 0 and 100. */
  lemma SuccessRateBounds(successful: nat, total: nat)
    requires 0 < successful < total
    ensures 0.0 < SuccessRate(successful, total) < 100.0
  {
  }

  /** What one call of `check_download_progress` does. */
  datatype PollResult = Reschedule | ReportCancelled | ReportCompleted

  datatype PollState = PollState(isDownloading: bool, downloadCount: nat)

  /**
   * One poll: while downloading and the worker is alive, poll again later;
   * otherwise report cancelled or completed (counting the download only when
   * it completed) and switch downloading off.
   */
  function Poll(s: PollState, threadAlive: bool): (r: (PollState, PollResult))
    ensures r.1 == Reschedule <==> s.isDownloading && threadAlive
    ensures r.1 == ReportCompleted <==> s.isDownloading && !threadAlive
    ensures r.1 == Reschedule ==> r.0 == s
    ensures r.1 != Reschedule ==> !r.0.isDownloading
    ensures r.0.downloadCount == s.downloadCount + (if r.1 == ReportCompleted then 1 else 0)
  {
    if s.isDownloading && threadAlive then (s, Reschedule)
    else if !s.isDownloading then (PollState(false, s.downloadCount), ReportCancelled)
    else (PollState(false, s.downloadCount + 1), ReportCompleted)
  }

  /** The state after every poll in the run, reports included. */
  function PollAll(s: PollState, alive: seq<bool>): PollState
    decreases |alive|
  {
    if alive == [] then s else PollAll(Poll(s, alive[0]).0, alive[1..])
  }

  /**
   * However often the poll runs, one started download is counted at most once,
   * and none is counted when downloading was already off.
   */
  lemma {:induction false} PollsCountAtMostOnce(s: PollState, alive: seq<bool>)
    ensures PollAll(s, alive).downloadCount <= s.downloadCount + (if s.isDownloading then 1 else 0)
    ensures !s.isDownloading ==> PollAll(s, alive) == PollState(false, s.downloadCount)
    decreases |alive|
  {
    if alive != [] {
      var s' := Poll(s, alive[0]).0;
      PollsCountAtMostOnce(s', alive[1..]);
    }
  }
}
