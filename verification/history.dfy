/** The download history list and the window of it the history panel shows. */
module History {
  import opened TextFormat

  /** One finished single download as the history list records it; `time` is the wall-clock stamp. */
  datatype HistoryEntry = HistoryEntry(title: string, filename: string, filepath: string, format: string, kind: string, time: string)

  const RecentCount: nat := 5

  function Reverse<T>(s: seq<T>): (r: seq<T>)
    ensures |r| == |s|
    ensures forall k | 0 <= k < |s| :: r[k] == s[|s| - 1 - k]
  {
    if s == [] then [] else [s[|s| - 1]] + Reverse(s[..|s| - 1])
  }

  /** `reversed(history[-5:])`: the last five entries, newest first. */
  function RecentHistory<T>(h: seq<T>): (r: seq<T>)
    ensures |r| == if |h| < RecentCount then |h| else RecentCount
    ensures forall k | 0 <= k < |r| :: r[k] == h[|h| - 1 - k]
  {
    var start := if |h| < RecentCount then 0 else |h| - RecentCount;
    Reverse(h[start..])
  }

  /**
   * Recording a download puts it at the top of the panel and pushes the others
   * down by one, the oldest of five falling off.
   */
  lemma RecentHistoryAfterAppend<T>(h: seq<T>, x: T)
    ensures RecentHistory(h + [x]) ==
      [x] + RecentHistory(h)[..if |h| < RecentCount - 1 then |h| else RecentCount - 1]
  {
    var r, r0 := RecentHistory(h + [x]), RecentHistory(h);
    var m := if |h| < RecentCount - 1 then |h| else RecentCount - 1;
    var rhs := [x] + r0[..m];
    assert |r| == |rhs|;
    forall k | 0 <= k < |r|
      ensures r[k] == rhs[k]
    {
      if k > 0 {
        assert r[k] == (h + [x])[|h| - k];
      }
    }
  }

  /** The mark before a history title: a note for audio downloads, a clapperboard for anything else. */
  function KindMark(kind: string): string
  {
    if kind == "audio" then "\U{1F3B5}" else "\U{1F3AC}"
  }

  /**
   * The three lines the panel shows for an entry: the kind mark and the title
   * cut to 40 characters, the format and time, and a folder mark with the file
   * name cut to 30 characters.
   */
  function HistoryLabels(e: HistoryEntry): (labels: (string, string, string))
    ensures 2 <= |labels.0| <= 45 && 2 <= |labels.2| <= 35
    ensures labels.0[..2] == KindMark(e.kind) + " " && labels.2[..2] == "\U{1F4C1} "
    ensures |e.title| <= 40 ==> labels.0[2..] == e.title
    ensures |e.title| > 40 ==> labels.0[2..] == e.title[..40] + Ellipsis
    ensures |e.filename| <= 30 ==> labels.2[2..] == e.filename
    ensures |e.filename| > 30 ==> labels.2[2..] == e.filename[..30] + Ellipsis
    ensures labels.1 == e.format + " \U{2022} " + e.time
  {
    var title := KindMark(e.kind) + " " + Shorten(e.title, 40);
    var file := "\U{1F4C1} " + Shorten(e.filename, 30);
    assert title[2..] == Shorten(e.title, 40);
    assert file[2..] == Shorten(e.filename, 30);
    (title, e.format + " \U{2022} " + e.time, file)
  }
}
