/**
 * The playlist view: one card per listed video, each with a status and a
 * progress value, kept in a list that is cleared and appended in place.
 */
module Cards {
  import opened Options
  import opened TextFormat
  import opened Entries

  /** The card states; any status text other than the first three shows as pending. */
  datatype CardStatus = Pending | Downloading | Completed | Failed

  /** What a video card shows: its position, display title, upload date, status and progress bar value. */
  datatype Card = Card(index: nat, title: string, uploadDate: string, status: CardStatus, percent: int)
  {
    /** `update_progress`: the bar always moves; the status changes only when one is given. */
    function Updated(p: int, s: Option<CardStatus>): (c: Card)
      ensures c.index == index && c.title == title && c.uploadDate == uploadDate
      ensures c.percent == p
      ensures c.status == if s.Some? then s.value else status
    {
      this.(percent := p, status := if s.Some? then s.value else status)
    }
  }

  const TitleLimit: nat := 50

  /** The title a card starts from: the entry's, or "Video <position counted from 1>". */
  function CardTitle(info: Entry, index: nat): string
  {
    if info.title.Some? then info.title.value else "Video " + NatToString(index + 1)
  }

  /**
   * A new card: pending, with an empty bar, its title cut to 50 characters and
   * its upload date reformatted ("--" when the entry has none).
   */
  function NewCard(info: Entry, index: nat): (c: Card)
    ensures c.index == index && c.status == Pending && c.percent == 0
    ensures |c.title| <= TitleLimit
    ensures c.title == CardTitle(info, index) <==> |CardTitle(info, index)| <= TitleLimit
    ensures |CardTitle(info, index)| > TitleLimit ==> c.title == Truncate(CardTitle(info, index), TitleLimit)
    ensures info.uploadDate.None? ==> c.uploadDate == "--"
    ensures info.uploadDate.Some? ==> c.uploadDate == FormatUploadDate(info.uploadDate.value)
  {
    Card(index, Truncate(CardTitle(info, index), TitleLimit),
         if info.uploadDate.Some? then FormatUploadDate(info.uploadDate.value) else "--",
         Pending, 0)
  }

  /** `update_video_progress`: the card at `index` is updated when there is one, otherwise nothing changes. */
  function ProgressUpdated(cards: seq<Card>, index: int, p: int, s: Option<CardStatus>): (r: seq<Card>)
    ensures |r| == |cards|
    ensures forall k | 0 <= k < |cards| && k != index :: r[k] == cards[k]
    ensures 0 <= index < |cards| ==> r[index] == cards[index].Updated(p, s)
    ensures !(0 <= index < |cards|) ==> r == cards
  {
    if 0 <= index < |cards| then cards[index := cards[index].Updated(p, s)] else cards
  }

  /** The cards after marking each submitted task's card pending, in submission order. */
  function MarkPending(cards: seq<Card>, subs: seq<Submission>): seq<Card>
  {
    if subs == [] then cards
    else ProgressUpdated(MarkPending(cards, subs[..|subs| - 1]), subs[|subs| - 1].index, 0, Some(Pending))
  }

  /** Marking one more task's card is one more bounds-checked update. */
  lemma MarkPendingSnoc(cards: seq<Card>, subs: seq<Submission>, s: Submission)
    ensures MarkPending(cards, subs + [s]) == ProgressUpdated(MarkPending(cards, subs), s.index, 0, Some(Pending))
  {
    assert (subs + [s])[..|subs|] == subs;
  }

  /** Exactly the cards of submitted tasks are reset to pending with an empty bar; the rest are untouched. */
  lemma {:induction false} MarkPendingAt(cards: seq<Card>, subs: seq<Submission>)
    ensures |MarkPending(cards, subs)| == |cards|
    ensures forall k | 0 <= k < |cards| ::
              MarkPending(cards, subs)[k] ==
                if exists j :: 0 <= j < |subs| && subs[j].index == k
                then cards[k].Updated(0, Some(Pending))
                else cards[k]
  {
    if subs != [] {
      var init := subs[..|subs| - 1];
      MarkPendingAt(cards, init);
      forall k | 0 <= k < |cards|
        ensures MarkPending(cards, subs)[k] ==
                  if exists j :: 0 <= j < |subs| && subs[j].index == k
                  then cards[k].Updated(0, Some(Pending))
                  else cards[k]
      {
        if exists j :: 0 <= j < |init| && init[j].index == k {
          var j :| 0 <= j < |init| && init[j].index == k;
          assert subs[j].index == k;
        }
        if exists j :: 0 <= j < |subs| && subs[j].index == k {
          var j :| 0 <= j < |subs| && subs[j].index == k;
          if j < |init| {
            assert init[j].index == k;
          }
        }
      }
    }
  }

  /** The list of cards `PlaylistView` keeps, updated in place by the downloader. */
  class PlaylistView {
    var cards: seq<Card>

    constructor ()
      ensures cards == []
    {
      cards := [];
    }

    /** `clear`: every card is dropped. */
    method Clear()
      modifies this`cards
      ensures cards == []
    {
      cards := [];
    }

    /** `add_video`: a new card for the entry is appended and returned. */
    method AddVideo(info: Entry, index: nat) returns (card: Card)
      modifies this`cards
      ensures card == NewCard(info, index)
      ensures cards == old(cards) + [card]
    {
      card := NewCard(info, index);
      cards := cards + [card];
    }

    /** `update_video_progress`: bounds-checked update of one card. */
    method UpdateVideoProgress(index: int, p: int, s: Option<CardStatus>)
      modifies this`cards
      ensures cards == ProgressUpdated(old(cards), index, p, s)
    {
      if 0 <= index < |cards| {
        cards := cards[index := cards[index].Updated(p, s)];
      }
    }
  }
}
