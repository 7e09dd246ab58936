/** The engine format selector chosen from the quality and format menus. */
module Formats {

  /** `s` with every occurrence of `c` removed (Python's `s.replace(c, '')` for one character). */
  function RemoveChar(s: string, c: char): (r: string)
    ensures |r| <= |s|
    ensures forall i | 0 <= i < |r| :: r[i] != c
    ensures (forall i | 0 <= i < |s| :: s[i] != c) ==> r == s
  {
    if s == [] then []
    else if s[0] == c then RemoveChar(s[1..], c)
    else [s[0]] + RemoveChar(s[1..], c)
  }

  const AudioSelector: string := "bestaudio[ext=mp3]/bestaudio"
  const VideoSelectorHead: string := "bestvideo[height<="
  const VideoSelectorTail: string := "][ext=mp4]+bestaudio[ext=m4a]/best"

  /**
   * `get_format_for_quality`: audio always asks for the best audio stream
   * (mp3 first); anything else asks for the best mp4 video no taller than the
   * quality with its 'p's removed plus m4a audio, falling back to "best".
   */
  function FormatForQuality(quality: string, formatType: string): (r: string)
    ensures formatType == "audio" ==> r == AudioSelector
    ensures formatType != "audio" ==>
      && |r| == |VideoSelectorHead| + |RemoveChar(quality, 'p')| + |VideoSelectorTail|
      && VideoSelectorHead <= r
      && r[|r| - |VideoSelectorTail|..] == VideoSelectorTail
      && r[|r| - 5..] == "/best"
  {
    if formatType == "audio" then AudioSelector
    else VideoSelectorHead + RemoveChar(quality, 'p') + VideoSelectorTail
  }

  /** The height bound sits between the fixed head and tail of a video selector. */
  function HeightBound(selector: string): string
    requires |selector| >= |VideoSelectorHead| + |VideoSelectorTail|
  {
    selector[|VideoSelectorHead|..|selector| - |VideoSelectorTail|]
  }

  /** The height bound read back from a video selector is the quality without its 'p's, and contains no 'p'. */
  lemma VideoSelectorHeight(quality: string, formatType: string)
    requires formatType != "audio"
    ensures HeightBound(FormatForQuality(quality, formatType)) == RemoveChar(quality, 'p')
    ensures forall i | 0 <= i < |HeightBound(FormatForQuality(quality, formatType))| ::
              HeightBound(FormatForQuality(quality, formatType))[i] != 'p'
  {
    var h := RemoveChar(quality, 'p');
    var r := VideoSelectorHead + h + VideoSelectorTail;
    assert r[|VideoSelectorHead|..|r| - |VideoSelectorTail|] == h;
  }

  /** The quality value shown in the menu ("720p") and the bare number ("720") select the same format. */
  lemma QualitySuffixIgnored(height: string, formatType: string)
    requires forall i | 0 <= i < |height| :: height[i] != 'p'
    ensures FormatForQuality(height + "p", formatType) == FormatForQuality(height, formatType)
  {
    if formatType != "audio" {
      RemoveCharAppend(height, "p", 'p');
    }
  }

  lemma {:induction false} RemoveCharAppend(a: string, b: string, c: char)
    ensures RemoveChar(a + b, c) == RemoveChar(a, c) + RemoveChar(b, c)
  {
    if a != [] {
      assert (a + b)[1..] == a[1..] + b;
      RemoveCharAppend(a[1..], b, c);
    } else {
      assert a + b == b;
    }
  }
}
