/**
 * Playlist entries as the engine lists them, and the pure part of the playlist
 * dispatch: which URL each entry is fetched from, the removal of missing
 * (`None`) entries, the plan of submitted tasks and the pool size.
 */
module Entries {
  import opened Options

  /** The keys of an engine entry the downloader reads; `None` is an absent key. */
  datatype Entry = Entry(
    url: Option<string>,
    id: Option<string>,
    webpageUrl: Option<string>,
    title: Option<string>,
    uploadDate: Option<string>,
    description: Option<string>)

  const WatchPrefix: string := "https://www.youtube.com/watch?v="

  /**
   * The URL an entry is downloaded from: the `url` key when present, else a
   * watch URL built from `id`, else `webpage_url`. The first key present
   * decides, and an empty value means the entry has no URL.
   */
  function ResolveUrl(e: Entry): (r: Option<string>)
    ensures r.Some? ==> r.value != []
    ensures r.None? <==> (
      match e.url
      case Some(u) => u == []
      case None => e.id.None? && (e.webpageUrl.None? || e.webpageUrl.value == []))
    ensures e.url.None? && e.id.Some? ==> r == Some(WatchPrefix + e.id.value)
    ensures e.url.None? && e.id.None? && e.webpageUrl.Some? && e.webpageUrl.value != [] ==> r == e.webpageUrl
  {
    var found :=
      if e.url.Some? then e.url.value
      else if e.id.Some? then WatchPrefix + e.id.value
      else if e.webpageUrl.Some? then e.webpageUrl.value
      else [];
    if found == [] then None else Some(found)
  }

  /** An entry with a `url` key is fetched from exactly that URL, whatever its other keys say. */
  lemma UrlKeyWins(e: Entry)
    requires e.url.Some? && e.url.value != []
    ensures ResolveUrl(e) == e.url
  {
  }

  /** The entry list with every missing entry dropped, order kept. */
  function RemoveNone(xs: seq<Option<Entry>>): (r: seq<Entry>)
    ensures |r| <= |xs|
    ensures forall x :: x in r <==> Some(x) in xs
  {
    if xs == [] then []
    else
      var rest := RemoveNone(xs[1..]);
      assert forall x :: Some(x) in xs <==> Some(x) == xs[0] || Some(x) in xs[1..];
      match xs[0]
      case None => rest
      case Some(x) => [x] + rest
  }

  /** Filtering a concatenation filters each part. */
  lemma {:induction false} RemoveNoneAppend(a: seq<Option<Entry>>, b: seq<Option<Entry>>)
    ensures RemoveNone(a + b) == RemoveNone(a) + RemoveNone(b)
  {
    if a == [] {
      assert a + b == b;
    } else {
      assert (a + b)[1..] == a[1..] + b;
      RemoveNoneAppend(a[1..], b);
    }
  }

  /** A list without missing entries is kept as it is. */
  lemma {:induction false} RemoveNoneKeepsPresent(xs: seq<Entry>)
    ensures RemoveNone(seq(|xs|, i requires 0 <= i < |xs| => Some(xs[i]))) == xs
  {
    var wrapped := seq(|xs|, i requires 0 <= i < |xs| => Some(xs[i]));
    if xs != [] {
      assert wrapped[1..] == seq(|xs[1..]|, i requires 0 <= i < |xs[1..]| => Some(xs[1..][i]));
      RemoveNoneKeepsPresent(xs[1..]);
    }
  }

  /** One task handed to the pool: the entry's position in the list and its URL. */
  datatype Submission = Submission(index: nat, url: string)

  /** The tasks the dispatch loop submits for `videos`, in submission order. */
  function Submissions(videos: seq<Entry>): (r: seq<Submission>)
    ensures |r| <= |videos|
    ensures forall j | 0 <= j < |r| :: r[j].index < |videos|
    ensures forall j, k | 0 <= j < k < |r| :: r[j].index < r[k].index
  {
    if videos == [] then []
    else
      var last := |videos| - 1;
      var before := Submissions(videos[..last]);
      match ResolveUrl(videos[last])
      case None => before
      case Some(u) => before + [Submission(last, u)]
  }

  /**
   * A task is submitted exactly for each entry that has a URL, carrying that
   * entry's position and URL.
   */
  lemma {:induction false} SubmissionsExactly(videos: seq<Entry>, s: Submission)
    ensures s in Submissions(videos) <==> s.index < |videos| && ResolveUrl(videos[s.index]) == Some(s.url)
  {
    if videos != [] {
      var last := |videos| - 1;
      SubmissionsExactly(videos[..last], s);
      if s.index < last {
        assert videos[..last][s.index] == videos[s.index];
      }
    }
  }

  /** One more entry adds its task at the end, when it has a URL. */
  lemma {:induction false} SubmissionsStep(videos: seq<Entry>, i: nat)
    requires i < |videos|
    ensures Submissions(videos[..i + 1]) ==
      Submissions(videos[..i]) + (if ResolveUrl(videos[i]).Some? then [Submission(i, ResolveUrl(videos[i]).value)] else [])
  {
    assert videos[..i + 1][..i] == videos[..i];
  }

  /** The tasks submitted for a prefix of the list are a prefix of those submitted for the whole list. */
  lemma {:induction false} SubmissionsOfPrefix(videos: seq<Entry>, i: nat)
    requires i <= |videos|
    ensures Submissions(videos[..i]) <= Submissions(videos)
    decreases |videos| - i
  {
    if i < |videos| {
      SubmissionsOfPrefix(videos, i + 1);
      assert videos[..i + 1][..i] == videos[..i];
    } else {
      assert videos[..i] == videos;
    }
  }

  /** When no earlier entry had a URL, the first task submitted is the current entry's. */
  lemma {:induction false} FirstSubmission(videos: seq<Entry>, i: nat, u: string)
    requires i < |videos|
    requires Submissions(videos[..i]) == []
    requires ResolveUrl(videos[i]) == Some(u)
    ensures Submissions(videos) != [] && Submissions(videos)[..1] == [Submission(i, u)]
  {
    SubmissionsStep(videos, i);
    SubmissionsOfPrefix(videos, i + 1);
    var whole := Submissions(videos);
    var first := Submissions(videos[..i + 1]);
    assert first == [Submission(i, u)];
    assert first <= whole;
    assert whole[0] == Submission(i, u);
    assert whole[..1] == [whole[0]];
  }

  const MaxWorkers: nat := 3

  /** `min(3, total)`: at most three downloads run at once, and never more than there are videos. */
  function PoolSize(total: nat): (w: nat)
    ensures w <= MaxWorkers && w <= total
    ensures total > 0 ==> 1 <= w
    ensures w == MaxWorkers || w == total
  {
    if total < MaxWorkers then total else MaxWorkers
  }
}
