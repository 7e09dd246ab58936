/**
 * Pure string helpers behind the playlist cards, the description panel and the
 * history list: display truncation, upload-date reformatting and the decimal
 * rendering of a card's 1-based position.
 */
module TextFormat {

  /** `sub` occurs in `s` as a contiguous substring (Python's `sub in s`). */
  predicate Occurs(sub: string, s: string)
  {
    exists i :: 0 <= i <= |s| - |sub| && sub <= s[i..]
  }

  /** A string whose first character does not occur in `s` does not occur in `s`. */
  lemma AbsentWhenHeadAbsent(sub: string, s: string)
    requires |sub| > 0
    requires forall i | 0 <= i < |s| :: s[i] != sub[0]
    ensures !Occurs(sub, s)
  {
    forall i | 0 <= i <= |s| - |sub|
      ensures !(sub <= s[i..])
    {
      assert s[i] != sub[0];
    }
  }

  const Ellipsis: string := "..."

  /**
   * Card titles (n = 50), description text (n = 300) and engine error labels
   * (n = 50): a string longer than n keeps its first n - 3 characters followed
   * by "...", so it is exactly n long; a string of at most n is left alone.
   */
  function Truncate(s: string, n: nat): (r: string)
    requires n >= |Ellipsis|
    ensures |r| <= n
    ensures r == s <==> |s| <= n
    ensures |s| > n ==> |r| == n && r[..n - 3] == s[..n - 3] && r[n - 3..] == Ellipsis
  {
    if |s| > n then s[..n - 3] + Ellipsis else s
  }

  /**
   * The history list's variant: the first n characters, followed by "..." only
   * when something was cut off.
   */
  function Shorten(s: string, n: nat): (r: string)
    ensures |s| <= n ==> r == s
    ensures |s| > n ==> |r| == n + 3 && r[..n] == s[..n] && r[n..] == Ellipsis
  {
    if |s| > n then s[..n] + Ellipsis else s
  }

  /**
   * An eight-character upload date YYYYMMDD is shown as YYYY-MM-DD; any other
   * value (the "--" placeholder included) is shown as it is.
   */
  function FormatUploadDate(d: string): (r: string)
    ensures |d| != 8 ==> r == d
    ensures |d| == 8 ==> |r| == 10 && r[4] == '-' && r[7] == '-'
  {
    if |d| == 8 then d[0..4] + "-" + d[4..6] + "-" + d[6..8] else d
  }

  /** Drops the two dashes of a YYYY-MM-DD date. */
  function UndashDate(r: string): string
    requires |r| == 10
  {
    r[0..4] + r[5..7] + r[8..10]
  }

  /** Reformatting an eight-character date loses nothing: the dashes come off again. */
  lemma FormatUploadDateRoundTrip(d: string)
    requires |d| == 8
    ensures UndashDate(FormatUploadDate(d)) == d
  {
    var r := FormatUploadDate(d);
    assert r[0..4] == d[0..4] && r[5..7] == d[4..6] && r[8..10] == d[6..8];
    assert d == d[0..4] + d[4..6] + d[6..8];
  }

  predicate IsDigit(c: char)
  {
    '0' <= c <= '9'
  }

  function DigitChar(d: nat): (c: char)
    requires d < 10
    ensures IsDigit(c)
  {
    ['0', '1', '2', '3', '4', '5', '6', '7', '8', '9'][d]
  }

  function DigitValue(c: char): nat
    requires IsDigit(c)
  {
    (c as int - '0' as int) as nat
  }

  /** Python's `str(n)` for a natural number: its decimal digits, most significant first. */
  function NatToString(n: nat): (r: string)
    ensures |r| >= 1
    ensures forall i | 0 <= i < |r| :: IsDigit(r[i])
    ensures |r| == 1 || r[0] != '0'
    ensures n > 0 ==> r[0] != '0'
  {
    if n < 10 then [DigitChar(n)] else NatToString(n / 10) + [DigitChar(n % 10)]
  }

  /** The number a string of decimal digits denotes. */
  function DecimalValue(s: string): nat
    requires forall i | 0 <= i < |s| :: IsDigit(s[i])
  {
    if s == [] then 0 else 10 * DecimalValue(s[..|s| - 1]) + DigitValue(s[|s| - 1])
  }

  lemma DigitRoundTrip(d: nat)
    requires d < 10
    ensures DigitValue(DigitChar(d)) == d
  {
  }

  /** Reading back the rendered digits gives the number that was rendered. */
  lemma {:induction false} NatToStringRoundTrip(n: nat)
    ensures DecimalValue(NatToString(n)) == n
  {
    var r := NatToString(n);
    if n < 10 {
      DigitRoundTrip(n);
      assert r[..0] == [];
    } else {
      NatToStringRoundTrip(n / 10);
      DigitRoundTrip(n % 10);
      assert r[..|r| - 1] == NatToString(n / 10);
    }
  }
}
