/**
 * The text `update_status` writes to the log panel: SGR sequences removed,
 * "See <link>" and "Also see <link>" references dropped, the engine's
 * "ERROR:"/"youtube:" prefixes recased, its cookie hint deleted and the emoji
 * replaced by tags.
 */
module StatusText {
  import opened TextFormat
  import opened LogCleaning

  /** The end of the longest run in `s` from `i` of characters whose `IsSpace` is `space`. */
  function RunEnd(s: string, i: nat, space: bool): (j: nat)
    requires i <= |s|
    ensures i <= j <= |s|
    ensures forall k | i <= k < j :: IsSpace(s[k]) == space
    ensures j < |s| ==> IsSpace(s[j]) != space
    decreases |s| - i
  {
    if i < |s| && IsSpace(s[i]) == space then RunEnd(s, i + 1, space) else i
  }

  /** A run that covers `s[i..j]` and meets a character of the other kind (or the end) at `j` ends at `j`. */
  lemma {:induction false} RunEndAt(s: string, i: nat, j: nat, space: bool)
    requires i <= j <= |s|
    requires forall k | i <= k < j :: IsSpace(s[k]) == space
    requires j == |s| || IsSpace(s[j]) != space
    ensures RunEnd(s, i, space) == j
    decreases j - i
  {
    if i < j {
      RunEndAt(s, i + 1, j, space);
    }
  }

  const Http: string := "http://"
  const Https: string := "https://"

  /** The length of the `https?://` that `t` starts with, or 0. */
  function SchemeLength(t: string): (n: nat)
    ensures n == 0 || n == |Http| || n == |Https|
    ensures n > 0 ==> n <= |t|
    ensures n == |Http| ==> Http <= t
    ensures n == |Https| ==> Https <= t
    ensures n == 0 ==> !(Http <= t) && !(Https <= t)
  {
    if Https <= t then |Https| else if Http <= t then |Http| else 0
  }

  /**
   * The length of the match of `word\s+https?://[^\s]+` that `s` starts with,
   * or 0 when it starts with none. The greedy runs need no backtracking: a
   * whitespace run is followed by 'h', and the link runs to the next whitespace.
   */
  function LinkMatchLength(s: string, word: string): (n: nat)
    ensures n == 0 || |word| < n <= |s|
    ensures n > 0 ==> word <= s
  {
    if !(word <= s) then 0
    else
      var gapEnd := RunEnd(s, |word|, true);
      var scheme := SchemeLength(s[gapEnd..]);
      if gapEnd == |word| || scheme == 0 then 0
      else
        var linkEnd := RunEnd(s, gapEnd + scheme, false);
        if linkEnd == gapEnd + scheme then 0 else linkEnd
  }

  /** `re.sub(word + r'\s+https?://[^\s]+', '', s)`: each match found scanning from the left is removed. */
  function RemoveLinks(s: string, word: string): (r: string)
    requires word != []
    ensures |r| <= |s|
    ensures !Occurs(word, s) ==> r == s
    decreases |s|
  {
    if s == [] then []
    else
      var n := LinkMatchLength(s, word);
      if n > 0 then
        assert Occurs(word, s) by { assert s[0..] == s; }
        RemoveLinks(s[n..], word)
      else
        assert !Occurs(word, s) ==> !Occurs(word, s[1..]) by {
          if Occurs(word, s[1..]) {
            OccursInTail(word, s);
          }
        }
        [s[0]] + RemoveLinks(s[1..], word)
  }

  /** The scheme test of the match recognises the scheme a reference starts with. */
  lemma SchemeRecognised(scheme: string, tail: string)
    requires scheme == Http || scheme == Https
    ensures SchemeLength(scheme + tail) == |scheme|
  {
    if scheme == Http {
      assert (scheme + tail)[4] == ':';
    } else {
      assert (scheme + tail)[..|Https|] == Https;
    }
  }

  /**
   * The text starts with a reference: the word, whitespace up to `gapEnd`, a
   * scheme, and non-whitespace up to `linkEnd`, followed by whitespace or the end.
   */
  predicate ReferenceAt(s: string, word: string, gapEnd: nat, scheme: string, linkEnd: nat)
  {
    && word <= s
    && |word| < gapEnd
    && (scheme == Http || scheme == Https)
    && gapEnd + |scheme| < linkEnd <= |s|
    && s[gapEnd..gapEnd + |scheme|] == scheme
    && (forall k | |word| <= k < gapEnd :: IsSpace(s[k]))
    && (forall k | gapEnd + |scheme| <= k < linkEnd :: !IsSpace(s[k]))
    && (linkEnd == |s| || IsSpace(s[linkEnd]))
  }

  /** A reference at the front is one match, ending where the link ends. */
  lemma ReferenceMatches(s: string, word: string, gapEnd: nat, scheme: string, linkEnd: nat)
    requires ReferenceAt(s, word, gapEnd, scheme, linkEnd)
    ensures LinkMatchLength(s, word) == linkEnd
  {
    var linkStart := gapEnd + |scheme|;
    assert s[gapEnd] == scheme[0];
    RunEndAt(s, |word|, gapEnd, true);
    assert s[gapEnd..] == scheme + s[linkStart..];
    SchemeRecognised(scheme, s[linkStart..]);
    RunEndAt(s, linkStart, linkEnd, false);
  }

  /** A match is always a reference: the match length is exactly where a reference at the front ends. */
  lemma MatchIsReference(s: string, word: string)
    requires LinkMatchLength(s, word) > 0
    ensures exists gapEnd: nat, scheme: string :: ReferenceAt(s, word, gapEnd, scheme, LinkMatchLength(s, word))
  {
    var gapEnd := RunEnd(s, |word|, true);
    var n := SchemeLength(s[gapEnd..]);
    var scheme := s[gapEnd..gapEnd + n];
    assert scheme == Http || scheme == Https;
    assert ReferenceAt(s, word, gapEnd, scheme, LinkMatchLength(s, word));
  }

  /** Where no reference starts, the character is kept and the scan goes on one step later. */
  lemma RemoveLinksKeepsOther(s: string, word: string)
    requires word != [] && s != []
    requires LinkMatchLength(s, word) == 0
    ensures RemoveLinks(s, word) == [s[0]] + RemoveLinks(s[1..], word)
  {
  }

  /**
   * A reference made of the word, a whitespace gap, an http or https scheme and
   * a link up to the next whitespace is removed whole; the text after it is
   * processed on its own.
   */
  lemma {:induction false} RemoveLinksDropsReference(word: string, gap: string, scheme: string, link: string, rest: string)
    requires word != [] && gap != [] && link != []
    requires scheme == Http || scheme == Https
    requires forall k | 0 <= k < |gap| :: IsSpace(gap[k])
    requires forall k | 0 <= k < |link| :: !IsSpace(link[k])
    requires rest == [] || IsSpace(rest[0])
    ensures RemoveLinks(word + gap + scheme + link + rest, word) == RemoveLinks(rest, word)
  {
    var s := word + gap + scheme + link + rest;
    var gapEnd := |word| + |gap|;
    var linkEnd := gapEnd + |scheme| + |link|;
    assert ReferenceAt(s, word, gapEnd, scheme, linkEnd) by {
      assert s[..|word|] == word;
      assert s[gapEnd..gapEnd + |scheme|] == scheme;
      forall k | |word| <= k < gapEnd
        ensures IsSpace(s[k])
      {
        assert s[k] == gap[k - |word|];
      }
      forall k | gapEnd + |scheme| <= k < linkEnd
        ensures !IsSpace(s[k])
      {
        assert s[k] == link[k - gapEnd - |scheme|];
      }
      if rest != [] {
        assert s[linkEnd] == rest[0];
      }
    }
    ReferenceMatches(s, word, gapEnd, scheme, linkEnd);
    assert s[linkEnd..] == rest;
  }

  /** The engine's advice to pass cookies, "Use --cookies-from-browser or --cookies for the authentication.". */
  const CookieHint: string :=
    "Use " + "--cookies-from-browser " + "or " + "--cookies " + "for " + "the " + "authentication."

  /** A character missing from every word of the hint is missing from the hint. */
  lemma CookieHintLacks(c: char)
    requires Lacks("Use ", c) && Lacks("--cookies-from-browser ", c) && Lacks("or ", c)
    requires Lacks("--cookies ", c) && Lacks("for ", c) && Lacks("the ", c) && Lacks("authentication.", c)
    ensures Lacks(CookieHint, c)
  {
    var a := "Use " + "--cookies-from-browser ";
    LacksAppend("Use ", "--cookies-from-browser ", c);
    LacksAppend(a, "or ", c);
    LacksAppend(a + "or ", "--cookies ", c);
    LacksAppend(a + "or " + "--cookies ", "for ", c);
    LacksAppend(a + "or " + "--cookies " + "for ", "the ", c);
    LacksAppend(a + "or " + "--cookies " + "for " + "the ", "authentication.", c);
  }

  /** The letters the recasing steps are told apart by. */
  lemma RecaseLetters()
    ensures |CookieHint| > 0 && CookieHint[0] == 'U'
    ensures Lacks(CookieHint, 'E') && Lacks(CookieHint, 'y')
    ensures Lacks("Error:", 'y') && Lacks("Error:", 'U')
    ensures Lacks("youtube:", 'E') && Lacks("YouTube:", 'U')
  {
    CookieHintLacks('E');
    CookieHintLacks('y');
  }

  /** The status text as `update_status` logs and displays it (before the timestamp is added); no emoji of the table is left. */
  function StatusLine(status: string): (r: string)
    ensures forall k | 0 <= k < |EmojiTags| :: !Occurs(EmojiTags[k].0, r)
    ensures
      && (forall i | 0 <= i < |status| :: status[i] != Esc)
      && !Occurs("See", status) && !Occurs("Also see", status)
      && !Occurs("ERROR:", status) && !Occurs("youtube:", status) && !Occurs(CookieHint, status)
      && (forall k | 0 <= k < |EmojiTags| :: !Occurs(EmojiTags[k].0, status))
      ==> r == status
  {
    ReplaceEmoji(Recased(RemoveLinks(RemoveLinks(StripSgr(status), "See"), "Also see")))
  }

  /**
   * The engine's message prefixes recased and its cookie hint deleted: never
   * longer than the input, and a text with none of the three is unchanged.
   */
  function Recased(s: string): (r: string)
    ensures |r| <= |s|
    ensures !Occurs("ERROR:", s) && !Occurs("youtube:", s) && !Occurs(CookieHint, s) ==> r == s
  {
    ReplaceAll(ReplaceAll(ReplaceAll(s, "ERROR:", "Error:"), "youtube:", "YouTube:"), CookieHint, "")
  }

  /** "ERROR:" at the front becomes "Error:"; the rest is recased on its own. */
  lemma RecasedError(t: string)
    ensures Recased("ERROR:" + t) == "Error:" + Recased(t)
  {
    var t1 := ReplaceAll(t, "ERROR:", "Error:");
    var t2 := ReplaceAll(t1, "youtube:", "YouTube:");
    assert ("ERROR:" + t)[|"ERROR:"|..] == t;
    ReplaceAllReplacesHead("ERROR:" + t, "ERROR:", "Error:");
    RecaseLetters();
    ReplaceAllSkipsPrefix("Error:", t1, "youtube:", "YouTube:");
    ReplaceAllSkipsPrefix("Error:", t2, CookieHint, "");
  }

  /** "youtube:" at the front becomes "YouTube:"; the rest is recased on its own. */
  lemma RecasedYouTube(t: string)
    ensures Recased("youtube:" + t) == "YouTube:" + Recased(t)
  {
    var t1 := ReplaceAll(t, "ERROR:", "Error:");
    var t2 := ReplaceAll(t1, "youtube:", "YouTube:");
    RecaseLetters();
    ReplaceAllSkipsPrefix("youtube:", t, "ERROR:", "Error:");
    assert ("youtube:" + t1)[|"youtube:"|..] == t1;
    ReplaceAllReplacesHead("youtube:" + t1, "youtube:", "YouTube:");
    ReplaceAllSkipsPrefix("YouTube:", t2, CookieHint, "");
  }

  /** The cookie hint at the front is deleted; the rest is recased on its own. */
  lemma RecasedDropsHint(t: string)
    ensures Recased(CookieHint + t) == Recased(t)
  {
    var t1 := ReplaceAll(t, "ERROR:", "Error:");
    var t2 := ReplaceAll(t1, "youtube:", "YouTube:");
    RecaseLetters();
    ReplaceAllSkipsPrefix(CookieHint, t, "ERROR:", "Error:");
    ReplaceAllSkipsPrefix(CookieHint, t1, "youtube:", "YouTube:");
    assert (CookieHint + t2)[|CookieHint|..] == t2;
    ReplaceAllReplacesHead(CookieHint + t2, CookieHint, "");
  }
}
