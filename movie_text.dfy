/**
 * The duration line of a movie's detail card: whole hours and the remaining
 * minutes of a duration in minutes, written out in decimal, and a parser
 * that reads the two numbers back.
 */
module MovieText {
  import opened Wrappers

  const TwoTo32 := 0x1_0000_0000
  const TwoTo31 := 0x8000_0000

  /** JavaScript's ToInt32 on an integer, as `~~` applies it: wrap into the signed 32-bit range. */
  function ToInt32(x: int): (r: int)
    ensures -TwoTo31 <= r < TwoTo31
    ensures (x - r) % TwoTo32 == 0
    ensures -TwoTo31 <= x < TwoTo31 ==> r == x
  {
    var m := x % TwoTo32;
    if m >= TwoTo31 then m - TwoTo32 else m
  }

  /** Division truncated toward zero, as `~~(a / b)` computes it before the 32-bit wrap. */
  function TruncDiv(a: int, b: int): int
    requires b > 0
  {
    if a >= 0 then a / b else -((-a) / b)
  }

  /** JavaScript's `%`: the remainder of the truncating division, with the dividend's sign. */
  function TruncMod(a: int, b: int): (r: int)
    requires b > 0
    ensures a == b * TruncDiv(a, b) + r
    ensures a >= 0 ==> r == a % b
    ensures a < 0 ==> -b < r <= 0
  {
    a - b * TruncDiv(a, b)
  }

  function DurationHours(d: int): int {
    ToInt32(TruncDiv(d, 60))
  }

  function DurationMinutes(d: int): int {
    TruncMod(d, 60)
  }

  /**
   * Within the 32-bit range of the hour count the text splits the duration
   * exactly: hours * 60 + minutes is the duration, and the minutes of a
   * non-negative duration lie in [0, 60).
   */
  lemma DurationSplit(d: int)
    requires -60 * TwoTo31 < d < 60 * TwoTo31
    ensures DurationHours(d) * 60 + DurationMinutes(d) == d
    ensures d >= 0 ==> DurationHours(d) == d / 60 && 0 <= DurationMinutes(d) < 60
    ensures d < 0 ==> -60 < DurationMinutes(d) <= 0
  {
    var q := TruncDiv(d, 60);
    assert -TwoTo31 <= q < TwoTo31;
  }

  /** Past that range the hour count wraps: 2^31 hours are written as -2^31. */
  lemma DurationHoursWrap()
    ensures DurationHours(60 * TwoTo31) == -TwoTo31
    ensures DurationHours(60 * TwoTo31) * 60 + DurationMinutes(60 * TwoTo31) != 60 * TwoTo31
  {
  }

  predicate IsDigit(c: char) {
    '0' <= c <= '9'
  }

  predicate AllDigits(s: string) {
    forall i :: 0 <= i < |s| ==> IsDigit(s[i])
  }

  function DigitChar(k: nat): (c: char)
    requires k < 10
    ensures IsDigit(c)
  {
    ('0' as int + k) as char
  }

  /** The decimal digits of `n`, most significant first, without leading zeros. */
  function Digits(n: nat): (s: string)
    ensures |s| >= 1 && AllDigits(s)
    ensures |s| > 1 ==> s[0] != '0'
    decreases n
  {
    if n < 10 then [DigitChar(n)] else Digits(n / 10) + [DigitChar(n % 10)]
  }

  /** The number a string of decimal digits denotes. */
  function DigitsValue(s: string): nat
    requires AllDigits(s)
  {
    if s == [] then 0 else DigitsValue(s[..|s| - 1]) * 10 + (s[|s| - 1] as int - '0' as int)
  }

  lemma {:induction false} DigitsRoundTrip(n: nat)
    ensures DigitsValue(Digits(n)) == n
    decreases n
  {
    if n >= 10 {
      var s := Digits(n);
      assert s[..|s| - 1] == Digits(n / 10);
      DigitsRoundTrip(n / 10);
    }
  }

  /** `Number.prototype.toString` on an integer: a minus sign for negatives, then the digits. */
  function DecimalText(i: int): string {
    if i < 0 then "-" + Digits(-i) else Digits(i)
  }

  /** Reads an optionally negative decimal integer. */
  function ParseDecimal(s: string): Option<int> {
    if |s| > 1 && s[0] == '-' && AllDigits(s[1..]) then Some(0 - DigitsValue(s[1..]) as int)
    else if |s| > 0 && AllDigits(s) then Some(DigitsValue(s))
    else None
  }

  /** The decimal text of an integer reads back as that integer and holds no 'h'. */
  lemma DecimalRoundTrip(i: int)
    ensures ParseDecimal(DecimalText(i)) == Some(i)
    ensures 'h' !in DecimalText(i)
  {
    if i < 0 {
      assert DecimalText(i)[1..] == Digits(-i);
      DigitsRoundTrip(-i);
    } else {
      DigitsRoundTrip(i);
    }
  }

  const DurationLabel := "Durée : "

  /** The duration line of `movie_to_obj`, for a duration of `d` minutes. */
  function DurationText(d: int): string {
    DurationLabel + DecimalText(DurationHours(d)) + "h" + DecimalText(DurationMinutes(d)) + "min"
  }

  /** The first position of `c` in `s`, or `|s|` when it does not occur. */
  function IndexOf(s: string, c: char): (r: nat)
    ensures r <= |s|
    ensures r < |s| ==> s[r] == c
    ensures forall i :: 0 <= i < r ==> s[i] != c
  {
    if s == [] then 0 else if s[0] == c then 0 else 1 + IndexOf(s[1..], c)
  }

  /** Reads hours and minutes back out of a duration line. */
  function ParseDurationText(t: string): Option<(int, int)> {
    if |t| >= |DurationLabel| + 3 && t[..|DurationLabel|] == DurationLabel && t[|t| - 3..] == "min" then
      var body := t[|DurationLabel|..|t| - 3];
      var k := IndexOf(body, 'h');
      if k < |body| then
        var h := ParseDecimal(body[..k]);
        var m := ParseDecimal(body[k + 1..]);
        if h.Some? && m.Some? then Some((h.value, m.value)) else None
      else
        None
    else
      None
  }

  /** The first occurrence of `c` in `a + [c] + b` is the one after `a` when `a` lacks `c`. */
  lemma IndexOfJoin(a: string, b: string, c: char)
    requires c !in a
    ensures IndexOf(a + [c] + b, c) == |a|
  {
    var s := a + [c] + b;
    var k := IndexOf(s, c);
    assert s[|a|] == c;
    assert forall i :: 0 <= i < |a| ==> s[i] == a[i];
  }

  /** A line built from two decimals around an 'h' reads back as those two numbers. */
  lemma ParseDurationOf(a: string, b: string)
    requires ParseDecimal(a).Some? && ParseDecimal(b).Some? && 'h' !in a
    ensures ParseDurationText(DurationLabel + a + "h" + b + "min") == Some((ParseDecimal(a).value, ParseDecimal(b).value))
  {
    var t := DurationLabel + a + "h" + b + "min";
    var body := a + "h" + b;
    assert t == DurationLabel + body + "min";
    assert t[..|DurationLabel|] == DurationLabel;
    assert t[|t| - 3..] == "min";
    assert t[|DurationLabel|..|t| - 3] == body;
    IndexOfJoin(a, b, 'h');
    assert body[..|a|] == a;
    assert body[|a| + 1..] == b;
  }

  /** The duration line carries its hours and minutes recoverably. */
  lemma DurationTextRoundTrip(d: int)
    ensures ParseDurationText(DurationText(d)) == Some((DurationHours(d), DurationMinutes(d)))
  {
    DecimalRoundTrip(DurationHours(d));
    DecimalRoundTrip(DurationMinutes(d));
    ParseDurationOf(DecimalText(DurationHours(d)), DecimalText(DurationMinutes(d)));
  }
}
