/**
 The two string operations the backend relies on: PHP's conversion of an
 integer to its decimal text (used when a user id is concatenated into a
 channel name) and `strpos` (used to recognise the billing-limit error).
 */
module Text {
  import opened Records

  predicate IsDigit(c: char) { '0' <= c <= '9' }

  predicate AllDigits(s: string)
  {
    forall i :: 0 <= i < |s| ==> IsDigit(s[i])
  }

  function DigitChar(d: nat): (c: char)
    requires d < 10
    ensures IsDigit(c)
  {
    (48 + d) as char
  }

  function DigitValue(c: char): (d: nat)
    requires IsDigit(c)
    ensures d < 10
  {
    c as int - 48
  }

  /** The decimal text of `n`, as PHP writes an integer: no sign, no leading zeros. */
  function NatToString(n: nat): (s: string)
    ensures |s| > 0 && AllDigits(s)
    decreases n
  {
    if n < 10 then [DigitChar(n)] else NatToString(n / 10) + [DigitChar(n % 10)]
  }

  /** The number a string of decimal digits denotes. */
  function DigitsValue(s: string): nat
    requires AllDigits(s)
  {
    if s == [] then 0 else DigitsValue(s[..|s| - 1]) * 10 + DigitValue(s[|s| - 1])
  }

  /** Reading back the decimal text of a number gives the number. */
  lemma {:induction false} DigitsRoundTrip(n: nat)
    ensures DigitsValue(NatToString(n)) == n
  {
    if n >= 10 {
      var s := NatToString(n);
      assert s[..|s| - 1] == NatToString(n / 10);
      DigitsRoundTrip(n / 10);
    }
  }

  lemma NatToStringInjective(m: nat, n: nat)
    ensures NatToString(m) == NatToString(n) ==> m == n
  {
    DigitsRoundTrip(m);
    DigitsRoundTrip(n);
  }

  /** `needle` occurs in `hay` starting at index `i`. */
  predicate OccursAt(hay: string, needle: string, i: nat)
  {
    i + |needle| <= |hay| && hay[i..i + |needle|] == needle
  }

  /** PHP `strpos($hay, $needle, $from)`: the first index at or after `from` where
      `needle` occurs, or `None` (PHP `false`). */
  function StrPosFrom(hay: string, needle: string, from: nat): (r: Option<nat>)
    requires from <= |hay|
    ensures r.Some? ==> from <= r.value && OccursAt(hay, needle, r.value)
    ensures r.Some? ==> forall j :: from <= j < r.value ==> !OccursAt(hay, needle, j)
    ensures r.None? ==> forall j :: from <= j <= |hay| ==> !OccursAt(hay, needle, j)
    decreases |hay| - from
  {
    if OccursAt(hay, needle, from) then Some(from)
    else if from == |hay| then None
    else StrPosFrom(hay, needle, from + 1)
  }

  function StrPos(hay: string, needle: string): (r: Option<nat>)
    ensures r.Some? <==> exists j :: 0 <= j <= |hay| && OccursAt(hay, needle, j)
    ensures r.Some? ==> OccursAt(hay, needle, r.value)
  {
    StrPosFrom(hay, needle, 0)
  }

  /** `strpos($hay, $needle) !== false`. */
  predicate Contains(hay: string, needle: string)
  {
    StrPos(hay, needle).Some?
  }

  /** A message that embeds the needle anywhere contains it. */
  lemma ContainsEmbedded(prefix: string, needle: string, suffix: string)
    ensures Contains(prefix + needle + suffix, needle)
  {
    var hay := prefix + needle + suffix;
    assert hay[|prefix|..|prefix| + |needle|] == needle;
    assert OccursAt(hay, needle, |prefix|);
  }
}
