/**
 * Cleaning of log and status text before it reaches the log panel: removal of
 * ANSI SGR escape sequences (the regular expression \x1b\[[0-9;]*m applied in a
 * single left-to-right pass), Python's `str.replace` and the table of emoji
 * that are replaced by plain-text tags.
 */
module LogCleaning {
  import opened TextFormat

  const Esc: char := '\U{1B}'

  /** A character the regular expression's class [0-9;] accepts. */
  predicate IsSgrParam(c: char)
  {
    '0' <= c <= '9' || c == ';'
  }

  /** The end of the longest run of [0-9;] characters in `s` starting at `i`. */
  function ParamRunEnd(s: string, i: nat): (j: nat)
    requires i <= |s|
    ensures i <= j <= |s|
    ensures forall k | i <= k < j :: IsSgrParam(s[k])
    ensures j < |s| ==> !IsSgrParam(s[j])
    decreases |s| - i
  {
    if i < |s| && IsSgrParam(s[i]) then ParamRunEnd(s, i + 1) else i
  }

  /**
   * The length of the SGR sequence `s` starts with, or 0 when it starts with none.
   * Backtracking cannot help the regular expression: after the longest run of
   * parameters the next character must be 'm'.
   */
  function SgrPrefixLength(s: string): (k: nat)
    ensures k == 0 || 3 <= k <= |s|
    ensures k > 0 ==> s[0] == Esc && s[1] == '[' && s[k - 1] == 'm'
    ensures k > 0 ==> forall i | 2 <= i < k - 1 :: IsSgrParam(s[i])
  {
    if |s| >= 2 && s[0] == Esc && s[1] == '[' then
      var j := ParamRunEnd(s, 2);
      if j < |s| && s[j] == 'm' then j + 1 else 0
    else 0
  }

  /**
   * `re.sub(r'\x1b\[[0-9;]*m', '', s)`: every SGR sequence found scanning from
   * the left is removed; everything else is kept in order.
   */
  function StripSgr(s: string): (r: string)
    ensures |r| <= |s|
    ensures (forall i | 0 <= i < |s| :: s[i] != Esc) ==> r == s
    decreases |s|
  {
    if s == [] then []
    else
      var k := SgrPrefixLength(s);
      if k > 0 then StripSgr(s[k..]) else [s[0]] + StripSgr(s[1..])
  }

  /** The run of parameters of `p + rest` starting at `i` ends where `p` ends when `rest` starts with a non-parameter. */
  lemma {:induction false} ParamRunOverParams(p: string, rest: string, i: nat)
    requires i <= |p|
    requires forall k | i <= k < |p| :: IsSgrParam(p[k])
    requires |rest| > 0 && !IsSgrParam(rest[0])
    ensures ParamRunEnd(p + rest, i) == |p|
    decreases |p| - i
  {
    var s := p + rest;
    if i < |p| {
      assert s[i] == p[i];
      ParamRunOverParams(p, rest, i + 1);
    } else {
      assert s[i] == rest[0];
    }
  }

  /** A complete SGR sequence at the front is dropped entirely. */
  lemma StripSgrRemovesSequence(params: string, rest: string)
    requires forall k | 0 <= k < |params| :: IsSgrParam(params[k])
    ensures StripSgr([Esc, '['] + params + ['m'] + rest) == StripSgr(rest)
  {
    var s := [Esc, '['] + params + ['m'] + rest;
    ParamRunOverParams([Esc, '['] + params, ['m'] + rest, 2);
    assert [Esc, '['] + params + ['m'] + rest == ([Esc, '['] + params) + (['m'] + rest);
    assert s[|params| + 2] == 'm';
    assert SgrPrefixLength(s) == |params| + 3;
    assert s[|params| + 3..] == rest;
  }

  /**
   * A character that does not open an SGR sequence is kept, in place: any
   * character other than the escape, and an escape not followed by a complete
   * sequence.
   */
  lemma StripSgrKeepsOther(c: char, rest: string)
    requires SgrPrefixLength([c] + rest) == 0
    ensures StripSgr([c] + rest) == [c] + StripSgr(rest)
  {
    assert ([c] + rest)[1..] == rest;
  }

  /**
   * The removal is a single pass: removing an inner sequence can join its
   * neighbours into a new one, which stays in the output.
   */
  lemma StripSgrIsSinglePass()
    ensures StripSgr([Esc, '[', Esc, '[', '0', 'm', 'm']) == [Esc, '[', 'm']
    ensures StripSgr([Esc, '[', 'm']) == []
  {
    var s := [Esc, '[', Esc, '[', '0', 'm', 'm'];
    assert ParamRunEnd(s, 2) == 2;
    assert SgrPrefixLength(s) == 0;
    assert s[1..] == ['[', Esc, '[', '0', 'm', 'm'];
    var t := ['[', Esc, '[', '0', 'm', 'm'];
    assert SgrPrefixLength(t) == 0;
    assert t[1..] == [Esc, '[', '0', 'm', 'm'];
    StripSgrRemovesSequence(['0'], ['m']);
    assert [Esc, '['] + ['0'] + ['m'] + ['m'] == [Esc, '[', '0', 'm', 'm'];
    StripSgrKeepsOther('m', []);
    StripSgrRemovesSequence([], []);
    assert [Esc, '['] + [] + ['m'] + [] == [Esc, '[', 'm'];
  }

  /** No character of `a` occurs in `b`. */
  predicate Disjoint(a: string, b: string)
  {
    forall i, j | 0 <= i < |a| && 0 <= j < |b| :: a[i] != b[j]
  }

  /** Two strings that share a character are not disjoint. */
  lemma SharedCharacter(a: string, b: string, i: nat, j: nat)
    requires i < |a| && j < |b| && a[i] == b[j]
    ensures !Disjoint(a, b)
  {
  }

  /** Python's `s.replace(pat, rep)`: occurrences found scanning from the left, not overlapping. */
  function ReplaceAll(s: string, pat: string, rep: string): (r: string)
    requires pat != []
    ensures !Occurs(pat, s) ==> r == s
    ensures |rep| <= |pat| ==> |r| <= |s|
    decreases |s|
  {
    if s == [] then []
    else if pat <= s then
      assert s[0..] == s;
      rep + ReplaceAll(s[|pat|..], pat, rep)
    else
      assert !Occurs(pat, s) ==> !Occurs(pat, s[1..]) by {
        if Occurs(pat, s[1..]) {
          var i :| 0 <= i <= |s[1..]| - |pat| && pat <= s[1..][i..];
          assert s[1..][i..] == s[i + 1..];
        }
      }
      [s[0]] + ReplaceAll(s[1..], pat, rep)
  }

  /** Nothing to scan, nothing produced. */
  lemma ReplaceAllEmpty(pat: string, rep: string)
    requires pat != []
    ensures ReplaceAll([], pat, rep) == []
  {
  }

  /** A pattern at the front is replaced, and the scan goes on after it. */
  lemma ReplaceAllReplacesHead(s: string, pat: string, rep: string)
    requires pat != [] && pat <= s
    ensures ReplaceAll(s, pat, rep) == rep + ReplaceAll(s[|pat|..], pat, rep)
  {
  }

  /** A character at which no pattern starts is kept, and the scan goes on one step later. */
  lemma ReplaceAllKeepsHead(s: string, pat: string, rep: string)
    requires pat != [] && s != [] && !(pat <= s)
    ensures ReplaceAll(s, pat, rep) == [s[0]] + ReplaceAll(s[1..], pat, rep)
  {
  }

  /** A non-empty text is its first character followed by the rest. */
  lemma HeadThenRest(a: string, c: string)
    requires a != []
    ensures [a[0]] + (a[1..] + c) == a + c
  {
    assert [a[0]] + a[1..] == a;
  }

  /** `c` does not occur in `s`. */
  predicate Lacks(s: string, c: char)
  {
    forall i | 0 <= i < |s| :: s[i] != c
  }

  /** Lacking a character is kept by concatenation. */
  lemma LacksAppend(a: string, b: string, c: char)
    requires Lacks(a, c) && Lacks(b, c)
    ensures Lacks(a + b, c)
  {
    assert forall i | |a| <= i < |a + b| :: (a + b)[i] == b[i - |a|];
  }

  /** A prefix lacking the pattern's first character is kept as it is. */
  lemma {:induction false} ReplaceAllSkipsPrefix(a: string, b: string, pat: string, rep: string)
    requires pat != []
    requires Lacks(a, pat[0])
    ensures ReplaceAll(a + b, pat, rep) == a + ReplaceAll(b, pat, rep)
    decreases |a|
  {
    if a == [] {
      assert a + b == b;
    } else {
      var s := a + b;
      assert s[0] == a[0];
      assert !(pat <= s);
      assert s[1..] == a[1..] + b;
      ReplaceAllKeepsHead(s, pat, rep);
      ReplaceAllSkipsPrefix(a[1..], b, pat, rep);
      HeadThenRest(a, ReplaceAll(b, pat, rep));
    }
  }

  /** An occurrence at a position of `s[1..]` is an occurrence in `s`. */
  lemma OccursInTail(q: string, s: string)
    requires |s| > 0 && Occurs(q, s[1..])
    ensures Occurs(q, s)
  {
    var i :| 0 <= i <= |s[1..]| - |q| && q <= s[1..][i..];
    assert s[1..][i..] == s[i + 1..];
  }

  /** An occurrence at a position of `s[n..]` is an occurrence in `s`. */
  lemma OccursInSuffix(q: string, s: string, n: nat)
    requires n <= |s| && Occurs(q, s[n..])
    ensures Occurs(q, s)
  {
    var i :| 0 <= i <= |s[n..]| - |q| && q <= s[n..][i..];
    assert s[n..][i..] == s[i + n..];
  }

  /** A non-empty prefix of a text whose front was replaced shares a character with the replacement. */
  lemma ReplacedFrontPrefix(s: string, pat: string, rep: string, q: string)
    requires pat != [] && rep != [] && pat <= s
    requires q != [] && q <= ReplaceAll(s, pat, rep)
    ensures !Disjoint(q, rep)
  {
    ReplaceAllReplacesHead(s, pat, rep);
    SharedCharacter(q, rep, 0, 0);
  }

  /** A non-empty prefix of `[c] + x` is `c` followed by a prefix of `x`. */
  lemma PrefixOfCons(q: string, c: char, x: string)
    requires q != [] && q <= [c] + x
    ensures q[0] == c && q[1..] <= x
  {
    assert forall i | 0 <= i < |q| - 1 :: q[1..][i] == q[i + 1] == ([c] + x)[i + 1] == x[i];
  }

  /** A non-empty prefix of a text whose first character was kept starts with that character. */
  lemma KeptFrontPrefix(s: string, pat: string, rep: string, q: string)
    requires pat != [] && s != [] && !(pat <= s)
    requires q != [] && q <= ReplaceAll(s, pat, rep)
    ensures q[0] == s[0] && q[1..] <= ReplaceAll(s[1..], pat, rep)
  {
    ReplaceAllKeepsHead(s, pat, rep);
    PrefixOfCons(q, s[0], ReplaceAll(s[1..], pat, rep));
  }

  /** Disjointness from a text is kept by the text's tail. */
  lemma DisjointTail(q: string, rep: string)
    requires q != [] && Disjoint(q, rep)
    ensures Disjoint(q[1..], rep)
  {
    assert forall i | 0 <= i < |q[1..]| :: q[1..][i] == q[i + 1];
  }

  /**
   * A prefix of the replaced text made only of characters the replacement
   * cannot produce was already a prefix of the input, at a place where no
   * replacement started.
   */
  lemma {:induction false} KeptPrefix(s: string, pat: string, rep: string, q: string)
    requires pat != [] && rep != []
    requires Disjoint(q, rep)
    requires q <= ReplaceAll(s, pat, rep)
    ensures q <= s
    ensures q != [] ==> !(pat <= s)
    decreases |s|
  {
    if q != [] {
      if pat <= s {
        ReplacedFrontPrefix(s, pat, rep, q);
        assert false;
      } else {
        KeptFrontPrefix(s, pat, rep, q);
        DisjointTail(q, rep);
        KeptPrefix(s[1..], pat, rep, q[1..]);
        assert q == [q[0]] + q[1..] && s == [s[0]] + s[1..];
      }
    }
  }

  /** Replacing cannot create an occurrence of a string none of whose characters the replacement contains. */
  lemma {:induction false} OccursAfterReplaceOccursBefore(s: string, pat: string, rep: string, q: string)
    requires pat != [] && rep != [] && q != []
    requires Disjoint(q, rep)
    requires Occurs(q, ReplaceAll(s, pat, rep))
    ensures Occurs(q, s)
    decreases |s|
  {
    var r := ReplaceAll(s, pat, rep);
    var i :| 0 <= i <= |r| - |q| && q <= r[i..];
    assert s != [];
    if pat <= s {
      var rest := ReplaceAll(s[|pat|..], pat, rep);
      assert r == rep + rest;
      if i < |rep| {
        SharedCharacter(q, rep, 0, i);
        assert false;
      }
      assert r[i..] == rest[i - |rep|..];
      assert Occurs(q, rest);
      OccursAfterReplaceOccursBefore(s[|pat|..], pat, rep, q);
      OccursInSuffix(q, s, |pat|);
    } else {
      var rest := ReplaceAll(s[1..], pat, rep);
      assert r == [s[0]] + rest;
      if i == 0 {
        KeptPrefix(s, pat, rep, q);
        assert s[0..] == s;
      } else {
        assert r[i..] == rest[i - 1..];
        assert Occurs(q, rest);
        OccursAfterReplaceOccursBefore(s[1..], pat, rep, q);
        OccursInTail(q, s);
      }
    }
  }

  /** After a replacement at the front, the pattern can only occur in the rest. */
  lemma ReplacedHeadOccurrence(s: string, pat: string, rep: string)
    requires pat != [] && rep != [] && pat <= s
    requires Disjoint(pat, rep)
    ensures Occurs(pat, ReplaceAll(s, pat, rep)) ==> Occurs(pat, ReplaceAll(s[|pat|..], pat, rep))
  {
    var r := ReplaceAll(s, pat, rep);
    var rest := ReplaceAll(s[|pat|..], pat, rep);
    assert r == rep + rest;
    if Occurs(pat, r) {
      var i :| 0 <= i <= |r| - |pat| && pat <= r[i..];
      if i < |rep| {
        SharedCharacter(pat, rep, 0, i);
        assert false;
      }
      assert r[i..] == rest[i - |rep|..];
    }
  }

  /** After a character kept at the front, the pattern can only occur in the rest. */
  lemma KeptHeadOccurrence(s: string, pat: string, rep: string)
    requires pat != [] && rep != [] && s != [] && !(pat <= s)
    requires Disjoint(pat, rep)
    ensures Occurs(pat, ReplaceAll(s, pat, rep)) ==> Occurs(pat, ReplaceAll(s[1..], pat, rep))
  {
    var r := ReplaceAll(s, pat, rep);
    var rest := ReplaceAll(s[1..], pat, rep);
    assert r == [s[0]] + rest;
    if Occurs(pat, r) {
      var i :| 0 <= i <= |r| - |pat| && pat <= r[i..];
      if i == 0 {
        KeptPrefix(s, pat, rep, pat);
        assert false;
      }
      assert r[i..] == rest[i - 1..];
    }
  }

  /**
   * When the replacement is non-empty and shares no character with the
   * pattern, no occurrence of the pattern survives the replacement.
   */
  lemma {:induction false} ReplaceAllRemovesPattern(s: string, pat: string, rep: string)
    requires pat != [] && rep != []
    requires Disjoint(pat, rep)
    ensures !Occurs(pat, ReplaceAll(s, pat, rep))
    decreases |s|
  {
    if s != [] {
      if pat <= s {
        ReplaceAllRemovesPattern(s[|pat|..], pat, rep);
        ReplacedHeadOccurrence(s, pat, rep);
      } else {
        ReplaceAllRemovesPattern(s[1..], pat, rep);
        KeptHeadOccurrence(s, pat, rep);
      }
    }
  }

  /** A table of (pattern, replacement) pairs applied one after the other. */
  predicate PatternsNonEmpty(t: seq<(string, string)>)
  {
    forall k | 0 <= k < |t| :: t[k].0 != []
  }

  /**
   * Every pattern and every replacement is non-empty, and no replacement
   * contains a character of any pattern.
   */
  predicate ValidTable(t: seq<(string, string)>)
  {
    && PatternsNonEmpty(t)
    && (forall k | 0 <= k < |t| :: t[k].1 != [])
    && (forall k, m | 0 <= k < |t| && 0 <= m < |t| :: Disjoint(t[k].0, t[m].1))
  }

  /** The chain of `.replace` calls, in table order. */
  function ReplaceTable(s: string, t: seq<(string, string)>): string
    requires PatternsNonEmpty(t)
    decreases |t|
  {
    if t == [] then s else ReplaceTable(ReplaceAll(s, t[0].0, t[0].1), t[1..])
  }

  /** The emoji the log panel replaces, each with its plain-text tag, in the order the replacements run. */
  const EmojiTags: seq<(string, string)> := [
    ("\U{1F50D}", "[Search] "),
    ("\U{2B07}\U{FE0F}", "[Download] "),
    ("\U{2705}", "[Success] "),
    ("\U{274C}", "[Error] "),
    ("\U{23F1}\U{FE0F}", "[Time] "),
    ("\U{1F4CA}", "[Stats] "),
    ("\U{1F4C1}", "[File] "),
    ("\U{1F4C2}", "[Folder] "),
    ("\U{26A1}", "[Speed] ")
  ]

  predicate AsciiOnly(s: string)
  {
    forall i | 0 <= i < |s| :: s[i] as int < 128
  }

  predicate NonAscii(s: string)
  {
    forall i | 0 <= i < |s| :: s[i] as int >= 128
  }

  lemma AsciiDisjoint(a: string, b: string)
    requires NonAscii(a) && AsciiOnly(b)
    ensures Disjoint(a, b)
  {
  }

  lemma EmojiTagsValid()
    ensures ValidTable(EmojiTags)
  {
    forall k | 0 <= k < |EmojiTags|
      ensures NonAscii(EmojiTags[k].0) && AsciiOnly(EmojiTags[k].1) && EmojiTags[k].0 != [] && EmojiTags[k].1 != []
    {
    }
    forall k, m | 0 <= k < |EmojiTags| && 0 <= m < |EmojiTags|
      ensures Disjoint(EmojiTags[k].0, EmojiTags[m].1)
    {
      AsciiDisjoint(EmojiTags[k].0, EmojiTags[m].1);
    }
  }

  /** Later replacements never bring back a string none of whose characters they insert. */
  lemma {:induction false} ReplaceTablePreservesAbsence(s: string, t: seq<(string, string)>, q: string)
    requires PatternsNonEmpty(t)
    requires forall m | 0 <= m < |t| :: t[m].1 != [] && Disjoint(q, t[m].1)
    requires q != [] && !Occurs(q, s)
    ensures !Occurs(q, ReplaceTable(s, t))
    decreases |t|
  {
    if t != [] {
      var s' := ReplaceAll(s, t[0].0, t[0].1);
      if Occurs(q, s') {
        OccursAfterReplaceOccursBefore(s, t[0].0, t[0].1, q);
      }
      ReplaceTablePreservesAbsence(s', t[1..], q);
    }
  }

  /** After the whole chain, no pattern of a valid table occurs in the text. */
  lemma {:induction false} ReplaceTableRemovesAll(s: string, t: seq<(string, string)>)
    requires ValidTable(t)
    ensures forall k | 0 <= k < |t| :: !Occurs(t[k].0, ReplaceTable(s, t))
    decreases |t|
  {
    if t != [] {
      var s' := ReplaceAll(s, t[0].0, t[0].1);
      ReplaceAllRemovesPattern(s, t[0].0, t[0].1);
      ReplaceTablePreservesAbsence(s', t[1..], t[0].0);
      assert ValidTable(t[1..]);
      ReplaceTableRemovesAll(s', t[1..]);
    }
  }

  /** A text in which no pattern of the table occurs goes through the chain unchanged. */
  lemma {:induction false} ReplaceTableKeepsClean(s: string, t: seq<(string, string)>)
    requires PatternsNonEmpty(t)
    ensures (forall k | 0 <= k < |t| :: !Occurs(t[k].0, s)) ==> ReplaceTable(s, t) == s
    decreases |t|
  {
    if t != [] {
      ReplaceTableKeepsClean(s, t[1..]);
      if forall k | 0 <= k < |t| :: !Occurs(t[k].0, s) {
        assert ReplaceAll(s, t[0].0, t[0].1) == s;
        assert forall k | 0 <= k < |t[1..]| :: !Occurs(t[1..][k].0, s) by {
          forall k | 0 <= k < |t[1..]|
            ensures !Occurs(t[1..][k].0, s)
          {
            assert t[1..][k] == t[k + 1];
          }
        }
      }
    }
  }

  /** The emoji table applied to `s`: none of its emoji is left, and a text without them is unchanged. */
  function ReplaceEmoji(s: string): (r: string)
    ensures forall k | 0 <= k < |EmojiTags| :: !Occurs(EmojiTags[k].0, r)
    ensures (forall k | 0 <= k < |EmojiTags| :: !Occurs(EmojiTags[k].0, s)) ==> r == s
  {
    EmojiTagsValid();
    ReplaceTableRemovesAll(s, EmojiTags);
    ReplaceTableKeepsClean(s, EmojiTags);
    ReplaceTable(s, EmojiTags)
  }

  /** No character of `a` is the first character of a pattern of `t`. */
  predicate StartsNoPattern(a: string, t: seq<(string, string)>)
    requires PatternsNonEmpty(t)
  {
    forall j, i | 0 <= j < |t| && 0 <= i < |a| :: a[i] != t[j].0[0]
  }

  /** A prefix at which no pattern of the table can start passes through the chain untouched. */
  lemma {:induction false} ReplaceTableSkipsPrefix(a: string, b: string, t: seq<(string, string)>)
    requires PatternsNonEmpty(t) && StartsNoPattern(a, t)
    ensures ReplaceTable(a + b, t) == a + ReplaceTable(b, t)
    decreases |t|
  {
    if t != [] {
      ReplaceAllSkipsPrefix(a, b, t[0].0, t[0].1);
      assert forall j | 0 <= j < |t[1..]| :: t[1..][j] == t[j + 1];
      ReplaceTableSkipsPrefix(a, ReplaceAll(b, t[0].0, t[0].1), t[1..]);
    }
  }

  /**
   * The k-th pattern contains no first character of another pattern, and its
   * replacement no first character of any pattern.
   */
  predicate Separated(t: seq<(string, string)>, k: nat)
    requires PatternsNonEmpty(t) && k < |t|
  {
    && (forall j, i | 0 <= j < |t| && j != k && 0 <= i < |t[k].0| :: t[k].0[i] != t[j].0[0])
    && StartsNoPattern(t[k].1, t)
  }

  /** The k-th pattern at the front of the text becomes its replacement, and the chain goes on after it. */
  lemma {:induction false} ReplaceTableAt(t: seq<(string, string)>, k: nat, x: string)
    requires PatternsNonEmpty(t) && k < |t| && Separated(t, k)
    ensures ReplaceTable(t[k].0 + x, t) == t[k].1 + ReplaceTable(x, t)
    decreases |t|
  {
    if k == 0 {
      ReplaceTableAtFirst(t, x);
    } else {
      var tail, x' := t[1..], ReplaceAll(x, t[0].0, t[0].1);
      SeparatedTail(t, k);
      ReplaceTableAt(tail, k - 1, x');
      ReplaceTableFirstStepSkips(t, t[k].0, x);
      calc {
        ReplaceTable(t[k].0 + x, t);
        ReplaceTable(t[k].0 + x', tail);
        { assert tail[k - 1] == t[k]; }
        tail[k - 1].1 + ReplaceTable(x', tail);
        t[k].1 + ReplaceTable(x, t);
      }
    }
  }

  /** When the first pattern cannot start inside `a`, the first step leaves `a` alone. */
  lemma ReplaceTableFirstStepSkips(t: seq<(string, string)>, a: string, x: string)
    requires PatternsNonEmpty(t) && 0 < |t| && Lacks(a, t[0].0[0])
    ensures PatternsNonEmpty(t[1..])
    ensures ReplaceTable(a + x, t) == ReplaceTable(a + ReplaceAll(x, t[0].0, t[0].1), t[1..])
    ensures ReplaceTable(x, t) == ReplaceTable(ReplaceAll(x, t[0].0, t[0].1), t[1..])
  {
    assert forall j | 0 <= j < |t[1..]| :: t[1..][j] == t[j + 1];
    ReplaceAllSkipsPrefix(a, x, t[0].0, t[0].1);
  }

  /** The first pattern at the front is replaced by the first step, and no later step touches its replacement. */
  lemma ReplaceTableAtFirst(t: seq<(string, string)>, x: string)
    requires PatternsNonEmpty(t) && 0 < |t| && Separated(t, 0)
    ensures ReplaceTable(t[0].0 + x, t) == t[0].1 + ReplaceTable(x, t)
  {
    ReplaceAllReplacesHead(t[0].0 + x, t[0].0, t[0].1);
    assert (t[0].0 + x)[|t[0].0|..] == x;
    var tail := t[1..];
    assert forall j | 0 <= j < |tail| :: tail[j] == t[j + 1];
    ReplaceTableSkipsPrefix(t[0].1, ReplaceAll(x, t[0].0, t[0].1), tail);
  }

  /** Dropping the first entry keeps a later entry separated. */
  lemma SeparatedTail(t: seq<(string, string)>, k: nat)
    requires PatternsNonEmpty(t) && 0 < k < |t| && Separated(t, k)
    ensures PatternsNonEmpty(t[1..]) && t[1..][k - 1] == t[k] && Separated(t[1..], k - 1)
    ensures Lacks(t[k].0, t[0].0[0])
  {
    var tail := t[1..];
    assert forall j | 0 <= j < |tail| :: tail[j] == t[j + 1];
  }

  /** Every emoji of the table is separated from the others. */
  lemma EmojiTagsSeparated(k: nat)
    requires k < |EmojiTags|
    ensures PatternsNonEmpty(EmojiTags) && Separated(EmojiTags, k)
  {
    EmojiTagsValid();
  }

  /** An emoji of the table at the front becomes its tag, and the rest is replaced on its own. */
  lemma EmojiReplaced(k: nat, x: string)
    requires k < |EmojiTags|
    ensures ReplaceEmoji(EmojiTags[k].0 + x) == EmojiTags[k].1 + ReplaceEmoji(x)
  {
    EmojiTagsSeparated(k);
    ReplaceTableAt(EmojiTags, k, x);
  }

  /** The text `TextHandler.emit` appends to the log panel: SGR sequences removed, then emoji replaced. */
  function CleanLogMessage(msg: string): (r: string)
    ensures forall k | 0 <= k < |EmojiTags| :: !Occurs(EmojiTags[k].0, r)
    ensures (forall i | 0 <= i < |msg| :: msg[i] != Esc) && (forall k | 0 <= k < |EmojiTags| :: !Occurs(EmojiTags[k].0, msg)) ==> r == msg
  {
    ReplaceEmoji(StripSgr(msg))
  }

  /** A prefix without escape characters passes through SGR stripping unchanged. */
  lemma {:induction false} StripSgrSkipsPrefix(a: string, b: string)
    requires forall i | 0 <= i < |a| :: a[i] != Esc
    ensures StripSgr(a + b) == a + StripSgr(b)
    decreases |a|
  {
    if a == [] {
      assert a + b == b;
    } else {
      var s := a + b;
      assert s[0] == a[0] && s[1..] == a[1..] + b;
      StripSgrKeepsOther(a[0], a[1..] + b);
      StripSgrSkipsPrefix(a[1..], b);
      HeadThenRest(a, StripSgr(b));
    }
  }

  /** An emoji of the table at the front of a log message becomes its tag; the rest is cleaned on its own. */
  lemma CleanLogMessageEmoji(k: nat, x: string)
    requires k < |EmojiTags|
    ensures CleanLogMessage(EmojiTags[k].0 + x) == EmojiTags[k].1 + CleanLogMessage(x)
  {
    EmojiTagsValid();
    assert NonAscii(EmojiTags[k].0);
    StripSgrSkipsPrefix(EmojiTags[k].0, x);
    EmojiReplaced(k, StripSgr(x));
  }

  /** The characters Python's `str.isspace` accepts. */
  predicate IsSpace(c: char)
  {
    || '\t' <= c <= '\r'
    || '\U{1C}' <= c <= ' '
    || c == '\U{85}' || c == '\U{A0}' || c == '\U{1680}'
    || '\U{2000}' <= c <= '\U{200A}'
    || c == '\U{2028}' || c == '\U{2029}' || c == '\U{202F}' || c == '\U{205F}' || c == '\U{3000}'
  }

  function TrimStart(s: string): (r: string)
    ensures |r| <= |s| && r == s[|s| - |r|..]
    ensures r == [] || !IsSpace(r[0])
    ensures forall i | 0 <= i < |s| - |r| :: IsSpace(s[i])
  {
    if s != [] && IsSpace(s[0]) then TrimStart(s[1..]) else s
  }

  function TrimEnd(s: string): (r: string)
    ensures |r| <= |s| && r == s[..|r|]
    ensures r == [] || !IsSpace(r[|r| - 1])
    ensures forall i | |r| <= i < |s| :: IsSpace(s[i])
  {
    if s != [] && IsSpace(s[|s| - 1]) then TrimEnd(s[..|s| - 1]) else s
  }

  /**
   * Python's `str.strip()`: the stretch of `s` left once its leading and
   * trailing whitespace is cut off.
   */
  function Trim(s: string): (r: string)
    ensures |r| <= |s|
    ensures r == [] || (!IsSpace(r[0]) && !IsSpace(r[|r| - 1]))
    ensures
      var lo := |s| - |TrimStart(s)|;
      && lo + |r| <= |s|
      && (forall k | 0 <= k < |r| :: r[k] == s[lo + k])
      && (forall i | 0 <= i < lo :: IsSpace(s[i]))
      && (forall i | lo + |r| <= i < |s| :: IsSpace(s[i]))
  {
    TrimEnd(TrimStart(s))
  }

  const PrivateVideoMarker: string := "Private video"
  const NoAccessNote: string := " (no access with current cookies)"

  /**
   * The label a playlist card shows when the engine refused an item: private
   * items get a fixed text, any other error its message cleaned of SGR
   * sequences and of "ERROR:", stripped and cut to 50 characters.
   */
  function FailureLabel(msg: string, useCookies: bool): (r: string)
    ensures Occurs(PrivateVideoMarker, msg) ==> |r| >= 2 && r[..2] == "\U{26D4} " && Occurs(PrivateVideoMarker, r)
    ensures Occurs(PrivateVideoMarker, msg) && !useCookies ==> r == "\U{26D4} " + PrivateVideoMarker
    ensures Occurs(PrivateVideoMarker, msg) && useCookies ==> r == "\U{26D4} " + PrivateVideoMarker + NoAccessNote
    ensures !Occurs(PrivateVideoMarker, msg) ==> 2 <= |r| <= 52 && r[..2] == "\U{274C} "
    ensures !Occurs(PrivateVideoMarker, msg) ==>
      r[2..] == Truncate(Trim(ReplaceAll(StripSgr(msg), "ERROR:", "")), 50)
  {
    if Occurs(PrivateVideoMarker, msg) then
      var text := if useCookies then PrivateVideoMarker + NoAccessNote else PrivateVideoMarker;
      var r := "\U{26D4} " + text;
      assert text[..|PrivateVideoMarker|] == PrivateVideoMarker;
      assert r[2..] == text;
      assert PrivateVideoMarker <= r[2..];
      r
    else
      "\U{274C} " + Truncate(Trim(ReplaceAll(StripSgr(msg), "ERROR:", "")), 50)
  }
}
