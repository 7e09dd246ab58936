/**
 * Whole-batch consequences of the coordinator's bookkeeping, followed through
 * the same methods the downloader runs on a one-video playlist.
 */
module Scenarios {
  import opened Options
  import opened Entries
  import opened Cards
  import opened BatchSpec
  import opened Coordinator

  /** A new downloader that has listed a one-video playlist and switched downloading on. */
  method ListOneVideo(e: Entry) returns (app: DownloaderApp)
    ensures fresh(app) && fresh(app.view) && app.Valid()
    ensures app.isDownloading && app.downloadCount == 0
    ensures app.currentVideos == [e] && |app.view.cards| == 1
  {
    app := new DownloaderApp();
    app.LoadPlaylist([Some(e)]);
    app.BeginDownload();
    assert app.currentVideos == [e];
  }

  /** The same downloader after the playlist has been dispatched. */
  method StartOneVideoBatch(e: Entry) returns (app: DownloaderApp)
    requires ResolveUrl(e).Some?
    ensures fresh(app) && fresh(app.view) && app.Valid()
    ensures app.isDownloading && app.downloadCount == 0
    ensures app.completed == 0 && app.failed == 0 && app.total == 1
    ensures |app.view.cards| == 1
  {
    app := ListOneVideo(e);
    var dispatch := app.DownloadPlaylist(true);
  }

  /**
   * A one-video playlist whose progress hook reports 'finished' before the
   * task itself succeeds counts two completions for one video: the counters
   * end at two of one, and the overall progress handed to the bar is 200.
   */
  method FinishedItemCountedTwice(e: Entry) returns (completed: nat, total: nat, progress: int)
    requires ResolveUrl(e).Some?
    ensures completed == 2 && total == 1 && progress == 200
  {
    var app := StartOneVideoBatch(e);
    var raised := app.OnProgressEvent(0, Finished);
    var ok := app.RunItemTask(ResolveUrl(e).value, 0, [Success, Success, Success], true);
    completed, total, progress := app.completed, app.total, app.shownProgress;
  }

  /**
   * A playlist download whose starting thread has already returned is reported
   * complete by the next poll, which also turns downloading off; a progress
   * hook firing afterwards raises the cancellation error.
   */
  method EarlyCompletionReport(e: Entry) returns (poll: PollResult, raised: bool, downloads: nat)
    requires ResolveUrl(e).Some?
    ensures poll == ReportCompleted && raised && downloads == 1
  {
    var app := StartOneVideoBatch(e);
    poll := app.CheckDownloadProgress(false);
    raised := app.OnProgressEvent(0, Progressing(Some(50)));
    downloads := app.downloadCount;
  }
}
