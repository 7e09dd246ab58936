# YouTube Downloader: batch bookkeeping in Dafny

The YouTube Downloader is a desktop front end for the `yt_dlp` engine. It
downloads a single video or a whole playlist. For a playlist, `DownloaderApp`
does the following:

- lists the entries and drops the missing ones;
- shows one card per video in a `PlaylistView`;
- picks a URL for each entry and submits one task per entry to a pool of at
  most three workers;
- keeps the shared counters (`completed_videos`, `failed_videos`,
  `total_videos`) that the per-item tasks and the per-item progress hooks
  update;
- lets each task make at most three attempts at its download (two retries);
- reports a summary once the pool drains.

Around this sit some pure helpers: the engine format selector, display
truncation and date formatting, the cleaning of log and status text (ANSI SGR
sequences, link references, emoji), and the five-entry, newest-first history
window.

The model keeps the source's shape:

- pure helpers are functions with lemmas;
- `PlaylistView` and `DownloaderApp` are classes whose methods update their
  fields in place (`cards`, the counters, `is_downloading`, `download_count`,
  the history);
- the dispatch loop and the retry loop are `for` loops with invariants, each
  proved against a specification function:
  - `Entries.Submissions` for the dispatch loop;
  - `BatchSpec.RunTask` for the retry loop.

Modules:

- `TextFormat`: truncation, dates, decimal text.
- `LogCleaning`: SGR stripping, `str.replace`, the emoji table, `str.strip`, the failure label.
- `StatusText`: `update_status`'s cleaning.
- `Formats`: the engine format selector.
- `Entries`: entry records, URL choice, the `None` filter, the submission plan, the pool size.
- `Cards`: cards and `PlaylistView`.
- `BatchSpec`: progress, attempt handling, the retry task, the drain summary, the poll.
- `History`: the download history window and labels.
- `Coordinator`: the `DownloaderApp` class.
- `Scenarios`: whole-batch consequences.

The engine's answers are inputs to the model:

- a playlist is a sequence of optional entry records;
- each attempt of a per-item task is an `Attempt` (`Success`,
  `EngineError(msg)`, `NoInfo`, `EscapedError`);
- a progress-hook call is a `HookEvent`;
- "is the download thread alive" is a boolean.

Two things are followed as the code has them, not as a design might intend.
The second can only be reached once the first is out of the way:

- **Cookie settings.** `cookies_var` and `has_cookies` are never assigned in
  `DownloaderApp.__init__`, so reading them raises. This is the input flag
  `cookiesReadable`; `false` is the behaviour as written.
  - A "Private video" engine error then escapes the inner handler and is
    retried by the outer one.
  - The dispatch loop stops at the first item that has a URL, after marking
    its card pending.
- **Double counting.** When the cookie settings can be read
  (`cookiesReadable` is `true`, as in a fixed `__init__`), the progress hook's
  `'finished'` branch and the task's success path both count a completion for
  the same item. As written, the dispatch loop raises before the first
  `submit`, so no task runs and this cannot be observed. So
  `completed <= total` is not an invariant of the code and is not claimed.
  `Scenarios.FinishedItemCountedTwice` shows a one-video batch, dispatched with
  readable cookie settings, reaching 2 of 1 and a progress of 200. The invariant that does hold, `failed <= completed`,
  is `DownloaderApp.Valid()`, and every method keeps it.

## Model

| member | source | states |
|---|---|---|
| TextFormat.Truncate | youtube_downloader_ui.py:308-310 | the result is never longer than n; it is the input exactly when the input fits; otherwise it is exactly n long: the first n-3 characters followed by "..." (used with 50, 300 and 50 at 309-310, 582-583, 1747-1748) |
| TextFormat.Shorten | youtube_downloader_ui.py:2069 | the history variant: unchanged when at most n long, otherwise the first n characters followed by "...", n+3 in all |
| TextFormat.FormatUploadDate | youtube_downloader_ui.py:275-277 | an 8-character date becomes 10 characters with dashes at positions 4 and 7; anything else is kept |
| TextFormat.FormatUploadDateRoundTrip | youtube_downloader_ui.py:275-277 | removing the two dashes gives back the original YYYYMMDD |
| TextFormat.NatToString | youtube_downloader_ui.py:268 | the decimal text of the position used in the "Video n" default title is non-empty and all digits, with no leading zero except for 0 itself |
| TextFormat.NatToStringRoundTrip | youtube_downloader_ui.py:268 | reading the decimal text back gives the number |
| LogCleaning.ParamRunEnd | youtube_downloader_ui.py:29 | the `[0-9;]*` run of the SGR pattern is maximal: every character inside is a parameter, the next one is not |
| LogCleaning.SgrPrefixLength | youtube_downloader_ui.py:29 | a match of `\x1b\[[0-9;]*m` at the start is at least 3 characters and within the text |
| LogCleaning.StripSgr | youtube_downloader_ui.py:29 | the result is never longer; text without an escape character is unchanged |
| LogCleaning.StripSgrRemovesSequence | youtube_downloader_ui.py:29 | an escape, '[', any parameters and 'm' at the front are removed whole and the rest is cleaned on its own |
| LogCleaning.StripSgrKeepsOther | youtube_downloader_ui.py:29 | a leading character that does not start a complete sequence (any character but the escape, or an escape not followed by `[`, parameters and `m`) is kept, in place |
| LogCleaning.StripSgrIsSinglePass | youtube_downloader_ui.py:29 | one pass can leave a sequence behind (a sequence nested in another), so cleaning is not idempotent |
| LogCleaning.ReplaceAll | youtube_downloader_ui.py:32 | `str.replace`: text without the pattern is unchanged; never longer when the replacement is no longer than the pattern |
| LogCleaning.ReplaceAllEmpty | youtube_downloader_ui.py:32 | replacing in the empty text gives the empty text |
| LogCleaning.ReplaceAllReplacesHead | youtube_downloader_ui.py:32 | a pattern at the front is replaced and the scan continues right after it, so matches do not overlap |
| LogCleaning.ReplaceAllKeepsHead | youtube_downloader_ui.py:32 | a character at which the pattern does not start is kept, and the scan continues one character later |
| LogCleaning.ReplaceAllSkipsPrefix | youtube_downloader_ui.py:32 | a prefix that lacks the pattern's first character is copied unchanged |
| LogCleaning.ReplaceAllRemovesPattern | youtube_downloader_ui.py:32 | when pattern and replacement share no character, the pattern no longer occurs afterwards |
| LogCleaning.OccursAfterReplaceOccursBefore | youtube_downloader_ui.py:32 | a text sharing no character with the replacement occurs after replacing only if it occurred before |
| LogCleaning.ReplaceTablePreservesAbsence | youtube_downloader_ui.py:32-40 | a chain of replacements whose replacements share no character with a text cannot create that text |
| LogCleaning.ReplaceTableRemovesAll | youtube_downloader_ui.py:32-40 | after the chain, no pattern of a valid table occurs |
| LogCleaning.EmojiTagsValid | youtube_downloader_ui.py:32-40 | the nine emoji are non-empty and non-ASCII, and their tags are non-empty ASCII, so no tag contains an emoji character |
| LogCleaning.ReplaceTableKeepsClean | youtube_downloader_ui.py:32-40 | a text in which no pattern of the table occurs goes through the chain unchanged |
| LogCleaning.ReplaceEmoji | youtube_downloader_ui.py:32-40 | no emoji of the table is left, and a text without them is unchanged |
| LogCleaning.ReplaceTableAt | youtube_downloader_ui.py:32-40 | in a chain of replacements, a pattern at the front that is told apart from the others by their first characters becomes its replacement, and the rest of the text goes through the chain on its own |
| LogCleaning.EmojiReplaced | youtube_downloader_ui.py:32-40 | every emoji of the table at the front of a text becomes its tag (for example "🔍" becomes "[Search] "), and the rest is replaced on its own |
| LogCleaning.CleanLogMessage | youtube_downloader_ui.py:23-40 | no emoji of the table survives in a message the log handler appends; a message with no escape character and no emoji is appended as it is |
| LogCleaning.StripSgrSkipsPrefix | youtube_downloader_ui.py:29 | a prefix without escape characters passes through SGR stripping unchanged |
| LogCleaning.CleanLogMessageEmoji | youtube_downloader_ui.py:23-40 | an emoji of the table at the front of a log message is appended as its tag, followed by the rest of the message cleaned on its own |
| LogCleaning.TrimStart | youtube_downloader_ui.py:1746 | a suffix of the input; everything cut is whitespace; the result does not start with whitespace |
| LogCleaning.TrimEnd | youtube_downloader_ui.py:1746 | a prefix of the input; everything cut is whitespace; the result does not end with whitespace |
| LogCleaning.Trim | youtube_downloader_ui.py:1746 | `str.strip()`: the result is the stretch of the input that starts after its leading whitespace; everything before and after that stretch is whitespace, and neither end of the result is |
| LogCleaning.FailureLabel | youtube_downloader_ui.py:1734-1749 | a "Private video" error gives exactly "⛔ Private video", with " (no access with current cookies)" appended when cookies are on; any other error gives "❌ " followed by the message with SGR sequences and "ERROR:" removed, stripped and cut to 50 characters |
| StatusText.RunEnd | youtube_downloader_ui.py:1104 | the `\s+` and `[^\s]+` runs are maximal |
| StatusText.SchemeLength | youtube_downloader_ui.py:1104 | `https?://` matches 8 characters exactly when the text starts with "https://", otherwise 7 exactly when it starts with "http://", otherwise nothing |
| StatusText.LinkMatchLength | youtube_downloader_ui.py:1104 | a match is longer than the leading word, lies inside the text and starts with the word |
| StatusText.RemoveLinks | youtube_downloader_ui.py:1104-1105 | `re.sub` of a link reference: never longer; text without the word is unchanged |
| StatusText.MatchIsReference | youtube_downloader_ui.py:1104 | every match is a reference: the word, whitespace, an http or https scheme and a link that runs up to whitespace or the end; with `ReferenceMatches` the match is exactly a reference |
| StatusText.RemoveLinksKeepsOther | youtube_downloader_ui.py:1104-1105 | where no reference starts, the character is kept and the scan continues one character later, so text such as "See the log" is left alone |
| StatusText.SchemeRecognised | youtube_downloader_ui.py:1104 | both schemes are recognised with their own lengths |
| StatusText.RunEndAt | youtube_downloader_ui.py:1104 | a run over a stretch of the text that meets a character of the other kind, or the end, ends exactly there |
| StatusText.ReferenceMatches | youtube_downloader_ui.py:1104 | word, whitespace gap, scheme and link at the front form one match, ending where the following whitespace begins |
| StatusText.RemoveLinksDropsReference | youtube_downloader_ui.py:1104-1105 | such a reference is removed whole and the text after it is cleaned on its own |
| StatusText.StatusLine | youtube_downloader_ui.py:1096-1119 | no emoji of the table survives in a status line; a status with no escape character, no "See" or "Also see", none of "ERROR:", "youtube:" and the cookie hint, and no emoji of the table is shown as it is |
| StatusText.Recased | youtube_downloader_ui.py:1107-1108 | recasing "ERROR:" and "youtube:" and deleting the cookie hint never lengthens the text, and leaves a text containing none of the three unchanged |
| StatusText.RecasedError | youtube_downloader_ui.py:1107 | "ERROR:" at the front becomes "Error:", and the rest is recased on its own |
| StatusText.RecasedYouTube | youtube_downloader_ui.py:1107 | "youtube:" at the front becomes "YouTube:", and the rest is recased on its own |
| StatusText.RecasedDropsHint | youtube_downloader_ui.py:1108 | the cookie hint at the front is deleted, and the rest is recased on its own |
| Formats.RemoveChar | youtube_downloader_ui.py:1307 | `quality.replace('p', '')`: no 'p' is left; text without 'p' is unchanged |
| Formats.FormatForQuality | youtube_downloader_ui.py:1298-1312 | audio always gives `bestaudio[ext=mp3]/bestaudio`; video starts with `bestvideo[height<=`, ends with `][ext=mp4]+bestaudio[ext=m4a]/best`, and has exactly the quality without its 'p's in between |
| Formats.VideoSelectorHeight | youtube_downloader_ui.py:1307 | the height bound read back from a video selector is the quality without its 'p's |
| Formats.QualitySuffixIgnored | youtube_downloader_ui.py:1307 | "720p" and "720" select the same format |
| Formats.RemoveCharAppend | youtube_downloader_ui.py:1307 | removal distributes over concatenation |
| Entries.ResolveUrl | youtube_downloader_ui.py:1540-1553 | the first present key among url, id (as a watch URL) and webpage_url decides, and the value of each branch is stated; an empty choice means no URL |
| Entries.UrlKeyWins | youtube_downloader_ui.py:1543-1544 | an entry with a non-empty `url` is fetched from exactly that URL |
| Entries.RemoveNone | youtube_downloader_ui.py:1498-1500 | never longer; an entry is kept exactly when it was present |
| Entries.RemoveNoneAppend | youtube_downloader_ui.py:1999 | filtering distributes over concatenation |
| Entries.RemoveNoneKeepsPresent | youtube_downloader_ui.py:1808-1813 | a list without missing entries comes back unchanged |
| Entries.Submissions | youtube_downloader_ui.py:1535-1604 | at most one task per entry; each carries an index inside the list; indices strictly increase |
| Entries.SubmissionsExactly | youtube_downloader_ui.py:1535-1604 | a task (i, u) is submitted if and only if entry i resolves to u |
| Entries.SubmissionsStep | youtube_downloader_ui.py:1535-1604 | one more entry appends its task exactly when it has a URL |
| Entries.SubmissionsOfPrefix | youtube_downloader_ui.py:1535-1604 | the tasks for a prefix of the list are a prefix of the tasks for the whole list |
| Entries.FirstSubmission | youtube_downloader_ui.py:1551-1599 | when no earlier entry had a URL, the current entry's task is the first one |
| Entries.PoolSize | youtube_downloader_ui.py:1525 | `min(3, total)`: at most 3 and at most total, and at least 1 for a non-empty list |
| Cards.Card.Updated | youtube_downloader_ui.py:376-381 | the bar always takes the new value; the status changes only when one is given; the other fields are kept |
| Cards.NewCard | youtube_downloader_ui.py:255-310 | a new card is pending at 0 with its index; the title is at most 50 characters, kept when it fits and truncated to 47 characters plus "..." otherwise; a present date is shown as `FormatUploadDate` formats it, a missing one as "--" |
| Cards.ProgressUpdated | youtube_downloader_ui.py:465-468 | exactly the card at an in-range index is updated, and the list length is kept; an out-of-range index changes nothing |
| Cards.MarkPendingSnoc | youtube_downloader_ui.py:1558-1559 | marking one more task is one more bounds-checked update |
| Cards.MarkPendingAt | youtube_downloader_ui.py:1558-1559 | exactly the cards of submitted tasks are reset to pending at 0; the rest are untouched; the length is kept |
| Cards.PlaylistView.constructor | youtube_downloader_ui.py:425-426 | the view starts with no cards |
| Cards.PlaylistView.Clear | youtube_downloader_ui.py:440-449 | every card is dropped |
| Cards.PlaylistView.AddVideo | youtube_downloader_ui.py:451-463 | the new card is appended at the end and returned |
| Cards.PlaylistView.UpdateVideoProgress | youtube_downloader_ui.py:465-468 | the cards become `ProgressUpdated` of the old cards |
| BatchSpec.OverallProgress | youtube_downloader_ui.py:1584 | the largest p with p·total ≤ completed·100 |
| BatchSpec.OverallProgressMonotone | youtube_downloader_ui.py:1584 | for a fixed total, more completed items never show less progress |
| BatchSpec.OverallProgressEnds | youtube_downloader_ui.py:1584 | 0 completed shows 0, total completed shows 100 |
| BatchSpec.Classify | youtube_downloader_ui.py:1708-1760 | only a success succeeds; an attempt escapes to the retry handler exactly when it raised outside the engine call, or was a private-video error with unreadable cookie settings; everything else is a counted failure |
| BatchSpec.CancellationIsCountedFailure | youtube_downloader_ui.py:1568-1569 | the hook's cancellation error is a counted failure, never retried |
| BatchSpec.TaskFrom | youtube_downloader_ui.py:1687-1778 | from attempt k on, the task makes at least one and at most 3-k more attempts |
| BatchSpec.RunTask | youtube_downloader_ui.py:1682-1778 | the task makes between 1 and 3 attempts |
| BatchSpec.RunTaskSkipsEscapes | youtube_downloader_ui.py:1762-1767 | after k escaped attempts the task goes on exactly as if it started at attempt k |
| BatchSpec.RunTaskSucceedsIff | youtube_downloader_ui.py:1687-1778 | the task returns True if and only if it has a URL and some attempt within the first three succeeds with every earlier attempt escaped |
| BatchSpec.CountedFailureStopsTask | youtube_downloader_ui.py:1734-1760 | an engine error ends the task with False on that same attempt |
| BatchSpec.EscapesExhaustRetries | youtube_downloader_ui.py:1768-1778 | three escaped attempts end the task with False after the third |
| BatchSpec.MissingUrlFailsAtOnce | youtube_downloader_ui.py:1690-1698 | a task without a URL fails on its first attempt |
| BatchSpec.SuccessRate | youtube_downloader_ui.py:1633 | 0 when total is 0; otherwise rate·total = successful·100 |
| BatchSpec.DrainSummary | youtube_downloader_ui.py:1619-1640 | cancelled exactly when downloading was off; otherwise partial exactly when some item failed, quoting successful = completed - failed, the failed count itself and the rate over total; otherwise all succeeded with the total |
| BatchSpec.PartialSuccessNonNegative | youtube_downloader_ui.py:1629 | while failed ≤ completed, the reported success count is never negative |
| BatchSpec.SuccessRateBounds | youtube_downloader_ui.py:1633 | with 0 < successful < total, the rate lies strictly between 0 and 100 |
| BatchSpec.Poll | youtube_downloader_ui.py:1228-1241 | reschedules, with the state kept, exactly while downloading with a live thread; reports completed exactly when downloading with a dead thread; every report turns downloading off; the count rises by one exactly on a completed report |
| BatchSpec.PollsCountAtMostOnce | youtube_downloader_ui.py:1228-1241 | over any run of polls one download is counted at most once, and never when downloading was already off |
| History.RecentHistory | youtube_downloader_ui.py:2053-2063 | min(5, n) entries; the k-th shown is the k-th newest |
| History.RecentHistoryAfterAppend | youtube_downloader_ui.py:1367-1377 | recording a download puts it on top and pushes the others down by one; the oldest of five falls off |
| History.HistoryLabels | youtube_downloader_ui.py:2066-2086 | the title line is the kind mark plus the title cut at 40; the file line is the folder mark plus the name cut at 30; both are kept whole when they fit; the detail line is format • time |
| Coordinator.DownloaderApp.constructor | youtube_downloader_ui.py:987-1035 | not downloading; zero counts; empty history and view |
| Coordinator.DownloaderApp.BeginDownload | youtube_downloader_ui.py:1207 | downloading is switched on |
| Coordinator.DownloaderApp.ResetCounters | youtube_downloader_ui.py:1530-1532 | completed = failed = 0 and total = n |
| Coordinator.DownloaderApp.RecordSuccess | youtube_downloader_ui.py:1725-1727 | one more completion; progress republished; failed ≤ completed kept |
| Coordinator.DownloaderApp.RecordFailure | youtube_downloader_ui.py:1755-1758 | one more failure and one more completion; progress republished; failed ≤ completed kept |
| Coordinator.DownloaderApp.OnProgressEvent | youtube_downloader_ui.py:1567-1592 | raises exactly when downloading is off, and then changes nothing; a parsed percentage moves only the card; 'finished' completes the card and counts one completion; 'error' counts one failure and one completion |
| Coordinator.DownloaderApp.RunItemTask | youtube_downloader_ui.py:1682-1778 | returns `RunTask(...).ok`; counts exactly one completion, and a failure exactly when it returns False; the card ends completed at 100 or failed at 0 |
| Coordinator.DownloaderApp.LoadPlaylist | youtube_downloader_ui.py:1495-1513 | the video list is the entries without the missing ones; the view holds exactly one new card per video, at its position |
| Coordinator.DownloaderApp.DownloadPlaylist | youtube_downloader_ui.py:1515-1604 | no videos: aborts with nothing changed; otherwise resets the counters to 0, 0 and the list length; submits exactly `Submissions(videos)` to a pool of `PoolSize` workers with those cards marked pending; with unreadable cookie settings it stops after marking the first such card |
| Coordinator.DownloaderApp.SubmitEntries | youtube_downloader_ui.py:1535-1604 | walks the entries in order, marks a card pending for exactly the entries `Submissions(videos)` lists, and stops after the first of them exactly when the cookie settings are unreadable and there is something to submit |
| Coordinator.DownloaderApp.FinishBatch | youtube_downloader_ui.py:1619-1648 | reports `DrainSummary` of the counters, with a non-negative success count, and sets progress to 100 either way |
| Coordinator.DownloaderApp.UpdateDownloadCount | youtube_downloader_ui.py:1154-1157 | the download count rises by one |
| Coordinator.DownloaderApp.CheckDownloadProgress | youtube_downloader_ui.py:1228-1241 | the new state and the result are exactly one `Poll` step |
| Coordinator.DownloaderApp.RecordDownload | youtube_downloader_ui.py:1367-1377 | the entry is appended to the history and the panel then shows it first in the recent window |
| Scenarios.FinishedItemCountedTwice | youtube_downloader_ui.py:1579-1585 | with readable cookie settings assumed for the dispatch and the task, a one-video batch whose hook reports 'finished' before its task succeeds ends with completed 2, total 1 and progress 200 |
| Scenarios.EarlyCompletionReport | youtube_downloader_ui.py:1228-1241 | with readable cookie settings assumed for the dispatch, a poll after the dispatching thread has returned reports completion and counts one download; the next hook call then raises |

## Left out

- Tk layout and drawing are not modelled because they are UI only: widgets, rounded buttons and polygons, styling, label colours, scrolling, and the progress bar's easing animation (`_animate_progress`, `draw_progress`).
- The card's status texts other than the failure label are not modelled ("⬇️ n%", "✅ Completed", "❌ Failed", "⏳ Pending", "⚠️ Retrying", "❌ Missing URL"). Only the card's status kind and bar value are kept.
- Channel, duration, file size and view count on cards and in the description panel are not modelled, and neither is the `.1f` text of the views and of the success rate. These are float formatting.
- The engine (`yt_dlp.YoutubeDL`, `extract_info`, `download`) is left out: its answers are inputs (`Attempt`, `HookEvent`, entry records, thread liveness).
- Concurrency and timing are left out: the thread pool, the monitor's 0.5-second polling loop and its in-loop "n videos failed" messages, the 5-second retry sleep, `root.after` scheduling, and cancelling futures that have not started. Tasks and hook calls run one after another, in the order a scenario gives.
- Coordinator.DownloaderApp.RunItemTask: the progress hook is not replayed inside the task. Hook events are separate calls (`OnProgressEvent`).
- The filesystem, processes and logging handlers are left out as I/O: directory checks, timestamps, ffmpeg detection, `open_folder`, log files, and the clock that stamps history entries.
- The single-video download path (`download_single_video`, `progress_hook`) is left out, except for the history append and `check_download_progress`.
- BatchSpec.OverallProgress: integer `completed*100/total` stands for `int(completed/total*100)`. Float rounding makes these differ at a few points (29 of 100 gives 28 in Python).
- Cards.Card.Updated: progress percentages are integers, whereas the hook passes floats parsed from the engine's percentage text.
- Entries.ResolveUrl: an entry key is either absent or holds a string; a key holding `None` is not modelled. In the source such a `url` or `webpage_url` gives no URL and the entry is skipped, while such an `id` gives the URL `https://www.youtube.com/watch?v=None`, which is submitted.
- The cookie attributes are modelled as the single input flag `cookiesReadable`, because they are never assigned in the source.
- StatusText.StatusLine: only string statuses are modelled. A non-string status is passed through unchanged in the source.
- The timestamp that `update_status` prefixes is left out.
- The description panel's text layout is left out apart from its date formatting and 300-character truncation.
