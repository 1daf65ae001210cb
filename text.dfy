/** Text operations the handlers rely on: ASCII lower-casing and substring
    search (the model of SQL `ILIKE '%term%'`), and the decimal form of an
    integer (Python's `str(n)`). */
module Text {

  /** Lower-cases one ASCII letter; every other character is kept. */
  function AsciiLower(c: char): (d: char)
    ensures 'A' <= c <= 'Z' ==> 'a' <= d <= 'z' && d as int - c as int == 'a' as int - 'A' as int
    ensures !('A' <= c <= 'Z') ==> d == c
  {
    if 'A' <= c <= 'Z' then (c as int - 'A' as int + 'a' as int) as char else c
  }

  /** Lower-cases every character of `s`. */
  function Lower(s: string): (r: string)
    ensures |r| == |s|
    ensures forall i :: 0 <= i < |s| ==> r[i] == AsciiLower(s[i])
  {
    if s == [] then [] else [AsciiLower(s[0])] + Lower(s[1..])
  }

  /** `pat` occurs in `text` starting at index `i`. */
  predicate OccursAt(text: string, pat: string, i: int)
  {
    0 <= i && i + |pat| <= |text| && text[i..i + |pat|] == pat
  }

  /** Substring test, scanning `text` from the left. */
  predicate Contains(text: string, pat: string)
    decreases |text|
  {
    pat <= text || (text != [] && Contains(text[1..], pat))
  }

  /** The scan finds `pat` exactly when it occurs at some index. */
  lemma {:induction false} ContainsIffOccurs(text: string, pat: string)
    ensures Contains(text, pat) <==> exists i :: OccursAt(text, pat, i)
    decreases |text|
  {
    if pat <= text {
      assert OccursAt(text, pat, 0);
    } else if text == [] {
    } else {
      ContainsIffOccurs(text[1..], pat);
      if Contains(text[1..], pat) {
        var i :| OccursAt(text[1..], pat, i);
        assert text[i + 1..i + 1 + |pat|] == text[1..][i..i + |pat|];
        assert OccursAt(text, pat, i + 1);
      }
      forall i | OccursAt(text, pat, i) ensures Contains(text[1..], pat) {
        assert i > 0;
        assert text[1..][i - 1..i - 1 + |pat|] == text[i..i + |pat|];
        assert OccursAt(text[1..], pat, i - 1);
      }
    }
  }

  /** Case-insensitive substring test (ASCII case folding only). */
  predicate ContainsIgnoringCase(text: string, pat: string)
  {
    Contains(Lower(text), Lower(pat))
  }

  /** The case-insensitive test only sees the lower-cased pattern, so two
      spellings of a term that differ only in letter case match the same
      texts. */
  lemma IgnoresCaseOfPattern(text: string, pat: string, pat': string)
    requires |pat| == |pat'|
    requires forall i :: 0 <= i < |pat| ==> AsciiLower(pat[i]) == AsciiLower(pat'[i])
    ensures ContainsIgnoringCase(text, pat) <==> ContainsIgnoringCase(text, pat')
  {
    assert Lower(pat) == Lower(pat');
  }

  function DigitChar(d: nat): (c: char)
    requires d < 10
    ensures '0' <= c <= '9'
  {
    (d + '0' as int) as char
  }

  /** Decimal digits of `n`, most significant first, without leading zeros. */
  function NatToString(n: nat): (s: string)
    ensures |s| >= 1
    ensures forall i :: 0 <= i < |s| ==> '0' <= s[i] <= '9'
    ensures |s| > 1 ==> s[0] != '0'
  {
    if n < 10 then [DigitChar(n)] else NatToString(n / 10) + [DigitChar(n % 10)]
  }

  /** Python's `str(i)` for an integer. */
  function IntToString(i: int): (s: string)
    ensures i >= 0 ==> s == NatToString(i)
    ensures i < 0 ==> s == "-" + NatToString(-i)
  {
    if i < 0 then "-" + NatToString(-i) else NatToString(i)
  }

  /** The number a string of decimal digits denotes. */
  /** A non-empty run of decimal digits, as an integer column accepts in
      place of a number. */
  predicate IsDecimal(s: string)
  {
    s != [] && forall i :: 0 <= i < |s| ==> '0' <= s[i] <= '9'
  }

  function DecimalValue(s: string): nat
    requires forall i :: 0 <= i < |s| ==> '0' <= s[i] <= '9'
  {
    if s == [] then 0 else DecimalValue(s[..|s| - 1]) * 10 + (s[|s| - 1] as int - '0' as int)
  }

  /** Reading back the decimal form of `n` gives `n`. */
  lemma {:induction false} DecimalRoundTrip(n: nat)
    ensures DecimalValue(NatToString(n)) == n
  {
    if n >= 10 {
      var s := NatToString(n);
      assert s[..|s| - 1] == NatToString(n / 10);
      DecimalRoundTrip(n / 10);
    }
  }

  /** Distinct numbers have distinct decimal forms. */
  lemma NatToStringInjective(a: nat, b: nat)
    requires a != b
    ensures NatToString(a) != NatToString(b)
  {
    DecimalRoundTrip(a);
    DecimalRoundTrip(b);
  }
}
