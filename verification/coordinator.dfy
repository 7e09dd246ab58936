/**
 * The batch bookkeeping of `DownloaderApp`: the counters shared by the
 * per-item tasks and progress hooks, the playlist dispatch loop, the retrying
 * per-item task, the monitor's final report, the poll of a single download and
 * the download history. The engine, the thread pool and the widgets are not
 * here: the engine's answers are inputs and the tasks run one after another.
 */
module Coordinator {
  import opened Options
  import opened Entries
  import opened Cards
  import opened BatchSpec
  import opened History

  /** What the engine reports to a playlist item's progress hook. */
  datatype HookEvent =
    | Progressing(percent: Option<int>)  // status 'downloading'; None when the percentage text does not parse
    | Finished                           // status 'finished'
    | ErrorReported                      // status 'error'
    | OtherStatus                        // any other status

  datatype DispatchError = NoVideos | CookieSettingsUnreadable

  /** The outcome of the dispatch: the pool size and the submitted tasks, or why it stopped. */
  datatype DispatchResult = Started(workers: nat, tasks: seq<Submission>) | Aborted(reason: DispatchError)

  class DownloaderApp {
    var isDownloading: bool
    var downloadCount: nat
    var completed: nat
    var failed: nat
    var total: nat
    /** The last value handed to `update_progress`. */
    var shownProgress: int
    var currentVideos: seq<Entry>
    var history: seq<HistoryEntry>
    const view: PlaylistView

    /** Every failure is also a completion. */
    ghost predicate Valid()
      reads this
    {
      failed <= completed
    }

    constructor ()
      ensures Valid() && fresh(view) && view.cards == []
      ensures !isDownloading && downloadCount == 0
      ensures completed == 0 && failed == 0 && total == 0 && shownProgress == 0
      ensures currentVideos == [] && history == []
    {
      isDownloading, downloadCount := false, 0;
      completed, failed, total, shownProgress := 0, 0, 0, 0;
      currentVideos, history := [], [];
      view := new PlaylistView();
    }

    /** `start_download` switching downloading on once its checks have passed. */
    method BeginDownload()
      modifies this`isDownloading
      ensures isDownloading
    {
      isDownloading := true;
    }

    /** The counters at the start of a playlist batch. */
    method ResetCounters(n: nat)
      modifies this`completed, this`failed, this`total
      ensures Valid()
      ensures completed == 0 && failed == 0 && total == n
    {
      completed, total, failed := 0, n, 0;
    }

    /** A success under the progress lock: one more completion, progress republished. */
    method RecordSuccess()
      requires Valid() && total > 0
      modifies this`completed, this`shownProgress
      ensures Valid()
      ensures completed == old(completed) + 1
      ensures shownProgress == OverallProgress(completed, total)
    {
      completed := completed + 1;
      shownProgress := OverallProgress(completed, total);
    }

    /** A failure under the progress lock: one more failure and one more completion, progress republished. */
    method RecordFailure()
      requires Valid() && total > 0
      modifies this`completed, this`failed, this`shownProgress
      ensures Valid()
      ensures failed == old(failed) + 1 && completed == old(completed) + 1
      ensures shownProgress == OverallProgress(completed, total)
    {
      failed := failed + 1;
      completed := completed + 1;
      shownProgress := OverallProgress(completed, total);
    }

    /**
     * The progress hook of the item at `index`. Once downloading is off it
     * raises (returns true) and changes nothing; otherwise a parsed percentage
     * moves the item's card, 'finished' completes the card and counts a
     * completion, and 'error' counts a failure.
     */
    method OnProgressEvent(index: int, ev: HookEvent) returns (raised: bool)
      requires Valid() && total > 0
      modifies this`completed, this`failed, this`shownProgress, view`cards
      ensures Valid()
      ensures raised <==> !isDownloading
      ensures raised || ev.OtherStatus? || ev.Progressing? ==>
        completed == old(completed) && failed == old(failed) && shownProgress == old(shownProgress)
      ensures raised || ev.OtherStatus? || ev.ErrorReported? || (ev.Progressing? && ev.percent.None?) ==>
        view.cards == old(view.cards)
      ensures !raised && ev.Progressing? && ev.percent.Some? ==>
        view.cards == ProgressUpdated(old(view.cards), index, ev.percent.value, Some(Downloading))
      ensures !raised && ev.Finished? ==>
        && view.cards == ProgressUpdated(old(view.cards), index, 100, Some(Completed))
        && completed == old(completed) + 1 && failed == old(failed)
        && shownProgress == OverallProgress(completed, total)
      ensures !raised && ev.ErrorReported? ==>
        && completed == old(completed) + 1 && failed == old(failed) + 1
        && shownProgress == OverallProgress(completed, total)
    {
      if !isDownloading {
        return true;
      }
      raised := false;
      match ev {
        case Progressing(p) =>
          if p.Some? {
            view.UpdateVideoProgress(index, p.value, Some(Downloading));
          }
        case Finished =>
          view.UpdateVideoProgress(index, 100, Some(Completed));
          RecordSuccess();
        case ErrorReported =>
          RecordFailure();
        case OtherStatus =>
      }
    }

    /**
     * `download_single_video_task` for the item at `index`, given the engine's
     * answer to each attempt it may make. Every way out counts exactly one
     * completion, and a failure exactly when it returns false; the item's card
     * ends completed at 100 or failed at 0.
     */
    method RunItemTask(url: string, index: nat, attempts: seq<Attempt>, cookiesReadable: bool) returns (ok: bool)
      requires Valid() && total > 0
      requires MaxRetries <= |attempts|
      requires index < |view.cards|
      modifies this`completed, this`failed, this`shownProgress, view`cards
      ensures Valid()
      ensures ok == RunTask(url, attempts, cookiesReadable).ok
      ensures completed == old(completed) + 1
      ensures failed == old(failed) + (if ok then 0 else 1)
      ensures shownProgress == OverallProgress(completed, total)
      ensures view.cards == old(view.cards)[index :=
        if ok then old(view.cards)[index].Updated(100, Some(Completed))
        else old(view.cards)[index].Updated(0, Some(Failed))]
    {
      ghost var started := old(view.cards)[index := old(view.cards)[index].Updated(0, Some(Downloading))];
      for attempt := 0 to MaxRetries
        invariant EscapedBefore(attempts, cookiesReadable, attempt)
        invariant attempt > 0 ==> url != []
        invariant completed == old(completed) && failed == old(failed)
        invariant view.cards == if attempt == 0 then old(view.cards) else started
      {
        if url == [] {
          view.UpdateVideoProgress(index, 0, Some(Failed));
          RecordFailure();
          return false;
        }
        view.UpdateVideoProgress(index, 0, Some(Downloading));
        RunTaskSkipsEscapes(url, attempts, cookiesReadable, attempt);
        match Classify(attempts[attempt], cookiesReadable) {
          case Succeeded =>
            view.UpdateVideoProgress(index, 100, Some(Completed));
            RecordSuccess();
            return true;
          case CountedFailure =>
            view.UpdateVideoProgress(index, 0, Some(Failed));
            RecordFailure();
            return false;
          case Escaped =>
            // the retrying handler: the next attempt follows
        }
      }
      // the third escaped attempt: the retrying handler gives up
      EscapesExhaustRetries(url, attempts, cookiesReadable);
      view.UpdateVideoProgress(index, 0, Some(Failed));
      RecordFailure();
      ok := false;
    }

    /**
     * The playlist listing step: missing entries are dropped, the card list is
     * cleared and one new card is added per remaining entry, at its position.
     */
    method LoadPlaylist(entries: seq<Option<Entry>>)
      modifies this`currentVideos, view`cards
      ensures currentVideos == RemoveNone(entries)
      ensures |view.cards| == |currentVideos|
      ensures forall k | 0 <= k < |currentVideos| :: view.cards[k] == NewCard(currentVideos[k], k)
    {
      var videos := RemoveNone(entries);
      currentVideos := videos;
      view.Clear();
      for i := 0 to |videos|
        invariant currentVideos == videos
        invariant |view.cards| == i
        invariant forall k | 0 <= k < i :: view.cards[k] == NewCard(videos[k], k)
      {
        var _ := view.AddVideo(videos[i], i);
      }
    }

    /**
     * The dispatch part of `download_playlist`: with no videos it fails;
     * otherwise it resets the counters and walks the list in order, skipping
     * entries without a URL, marking each remaining item's card pending and
     * submitting (position, URL). Reading the cookie settings comes between
     * marking and submitting; when they cannot be read the dispatch stops there.
     */
    method DownloadPlaylist(cookiesReadable: bool) returns (r: DispatchResult)
      requires Valid()
      modifies this`completed, this`failed, this`total, view`cards
      ensures Valid()
      ensures |view.cards| == |old(view.cards)|
      ensures currentVideos == [] ==>
        && r == Aborted(NoVideos)
        && completed == old(completed) && failed == old(failed) && total == old(total)
        && view.cards == old(view.cards)
      ensures currentVideos != [] ==> completed == 0 && failed == 0 && total == |currentVideos|
      ensures currentVideos != [] && (cookiesReadable || Submissions(currentVideos) == []) ==>
        && r == Started(PoolSize(|currentVideos|), Submissions(currentVideos))
        && view.cards == MarkPending(old(view.cards), Submissions(currentVideos))
      ensures currentVideos != [] && !cookiesReadable && Submissions(currentVideos) != [] ==>
        && r == Aborted(CookieSettingsUnreadable)
        && view.cards == MarkPending(old(view.cards), Submissions(currentVideos)[..1])
    {
      var videos := currentVideos;
      if videos == [] {
        return Aborted(NoVideos);
      }
      var workers := PoolSize(|videos|);
      ResetCounters(|videos|);
      var marked, stopped := SubmitEntries(videos, cookiesReadable);
      if stopped {
        r := Aborted(CookieSettingsUnreadable);
      } else {
        r := Started(workers, marked);
      }
    }

    /**
     * The submission loop of `download_playlist` over `videos`: the tasks whose
     * cards it marked pending, and whether it stopped at the cookie check.
     */
    method SubmitEntries(videos: seq<Entry>, cookiesReadable: bool) returns (marked: seq<Submission>, stopped: bool)
      modifies view`cards
      ensures stopped <==> !cookiesReadable && Submissions(videos) != []
      ensures marked == if stopped then Submissions(videos)[..1] else Submissions(videos)
      ensures view.cards == MarkPending(old(view.cards), marked)
      ensures |view.cards| == |old(view.cards)|
    {
      marked, stopped := [], false;
      for i := 0 to |videos|
        invariant marked == Submissions(videos[..i])
        invariant view.cards == MarkPending(old(view.cards), marked)
        invariant |view.cards| == |old(view.cards)|
        invariant !cookiesReadable ==> marked == []
      {
        SubmissionsStep(videos, i);
        var url := ResolveUrl(videos[i]);
        if url.None? {
          continue;
        }
        var task := Submission(i, url.value);
        view.UpdateVideoProgress(i, 0, Some(Pending));
        MarkPendingSnoc(old(view.cards), marked, task);
        marked := marked + [task];
        if !cookiesReadable {
          FirstSubmission(videos, i, url.value);
          return marked, true;
        }
      }
      assert videos[..|videos|] == videos;
    }

    /**
     * The end of the monitor: the final report (cancelled when downloading is
     * off) and the overall progress forced to 100 either way.
     */
    method FinishBatch() returns (summary: Summary)
      requires Valid()
      modifies this`shownProgress
      ensures summary == DrainSummary(!isDownloading, completed, failed, total)
      ensures summary.Partial? ==> summary.successful >= 0
      ensures shownProgress == 100
    {
      summary := DrainSummary(!isDownloading, completed, failed, total);
      PartialSuccessNonNegative(completed, failed, total);
      shownProgress := 100;
    }

    /** `update_download_count`. */
    method UpdateDownloadCount()
      modifies this`downloadCount
      ensures downloadCount == old(downloadCount) + 1
    {
      downloadCount := downloadCount + 1;
    }

    /** `check_download_progress`: one poll of a running download. */
    method CheckDownloadProgress(threadAlive: bool) returns (res: PollResult)
      modifies this`isDownloading, this`downloadCount
      ensures (PollState(isDownloading, downloadCount), res) ==
              Poll(PollState(old(isDownloading), old(downloadCount)), threadAlive)
    {
      if isDownloading && threadAlive {
        return Reschedule;
      }
      if !isDownloading {
        res := ReportCancelled;
      } else {
        res := ReportCompleted;
        UpdateDownloadCount();
      }
      isDownloading := false;
    }

    /** A finished single download is appended to the history; the panel then shows the recent window. */
    method RecordDownload(e: HistoryEntry) returns (shown: seq<HistoryEntry>)
      modifies this`history
      ensures history == old(history) + [e]
      ensures shown == RecentHistory(history)
      ensures shown[0] == e
    {
      history := history + [e];
      shown := RecentHistory(history);
    }
  }
}
