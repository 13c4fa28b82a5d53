/**
 * A reader for the duration labels the two screens print ("1h 5m", "3m 20s", "45s").
 * It is the inverse partner of both `formatDuration` variants: reading a label back
 * gives the number of seconds the label shows.
 */
module DurationText {

  import opened Wrappers
  import opened Text

  /** Length of the longest all-digit prefix of `s`. */
  function DigitRun(s: string): (n: nat)
    ensures n <= |s|
    ensures AllDigits(s[..n])
    ensures n < |s| ==> !IsDigit(s[n])
  {
    if |s| == 0 || !IsDigit(s[0]) then 0
    else
      var k := DigitRun(s[1..]);
      assert s[..k + 1] == [s[0]] + s[1..][..k];
      k + 1
  }

  /** Reads a leading decimal numeral, returning its value and the rest of the text. */
  function ReadNumber(s: string): Option<(nat, string)>
  {
    var k := DigitRun(s);
    if k == 0 then None else Some((ParseNat(s[..k]), s[k..]))
  }

  /** The seconds shown by a label of the form "<h>h <m>m", "<m>m <s>s" or "<s>s". */
  function ParseDuration(text: string): Option<nat>
  {
    match ReadNumber(text)
    case None => None
    case Some((a, rest)) => ParseUnits(a, rest)
  }

  /** What follows the leading number `a`: a seconds suffix, or a second number. */
  function ParseUnits(a: nat, rest: string): Option<nat>
  {
    if rest == "s" then Some(a)
    else if |rest| >= 2 && rest[..2] == "m " then ParseSecondNumber(60 * a, 1, rest[2..], "s")
    else if |rest| >= 2 && rest[..2] == "h " then ParseSecondNumber(3600 * a, 60, rest[2..], "m")
    else None
  }

  /** Reads "<b><suffix>" and returns base + unit * b. */
  function ParseSecondNumber(base: nat, unit: nat, text: string, suffix: string): Option<nat>
  {
    match ReadNumber(text)
    case Some((b, tail)) => if tail == suffix then Some(base + unit * b) else None
    case None => None
  }

  lemma {:induction false} DigitRunOfNumeral(d: string, rest: string)
    requires AllDigits(d)
    requires |rest| == 0 || !IsDigit(rest[0])
    ensures DigitRun(d + rest) == |d|
    decreases |d|
  {
    if |d| > 0 {
      assert (d + rest)[1..] == d[1..] + rest;
      DigitRunOfNumeral(d[1..], rest);
    } else {
      assert d + rest == rest;
    }
  }

  /** A printed numeral followed by a non-digit reads back as its value. */
  lemma ReadNumeral(n: nat, rest: string)
    requires |rest| == 0 || !IsDigit(rest[0])
    ensures ReadNumber(NatToString(n) + rest) == Some((n, rest))
  {
    var d := NatToString(n);
    DigitRunOfNumeral(d, rest);
    assert (d + rest)[..|d|] == d;
    assert (d + rest)[|d|..] == rest;
    ParseNatToString(n);
  }

  /** A label starting with a printed number is read by what follows it. */
  lemma ReadLeadingNumber(a: nat, rest: string)
    requires |rest| == 0 || !IsDigit(rest[0])
    ensures ParseDuration(NatToString(a) + rest) == ParseUnits(a, rest)
  {
    ReadNumeral(a, rest);
  }

  lemma ReadSecondPart(base: nat, unit: nat, b: nat, suffix: string)
    requires |suffix| == 0 || !IsDigit(suffix[0])
    ensures ParseSecondNumber(base, unit, NatToString(b) + suffix, suffix) == Some(base + unit * b)
  {
    ReadNumeral(b, suffix);
  }

  /** "<a>s" reads back as a seconds. */
  lemma ReadSeconds(a: nat)
    ensures ParseDuration(NatToString(a) + "s") == Some(a)
  {
    ReadLeadingNumber(a, "s");
  }

  lemma UnitsSecondNumber(a: nat, b: nat, base: nat, unit: nat, sep: string, suffix: string)
    requires sep == "m " || sep == "h "
    requires suffix == "s" || suffix == "m"
    requires base == (if sep == "m " then 60 * a else 3600 * a)
    requires unit == (if sep == "m " then 1 else 60)
    requires suffix == (if sep == "m " then "s" else "m")
    ensures ParseUnits(a, sep + NatToString(b) + suffix) == Some(base + unit * b)
  {
    var rest := sep + NatToString(b) + suffix;
    assert rest[..2] == sep;
    assert rest[2..] == NatToString(b) + suffix;
    ReadSecondPart(base, unit, b, suffix);
  }

  lemma ReadTwoNumbers(a: nat, b: nat, full: string, rest: string, sep: string, suffix: string)
    requires sep == "m " || sep == "h "
    requires suffix == (if sep == "m " then "s" else "m")
    requires rest == sep + NatToString(b) + suffix
    requires full == NatToString(a) + rest
    ensures ParseDuration(full) == Some(if sep == "m " then 60 * a + b else 3600 * a + 60 * b)
  {
    ReadLeadingNumber(a, rest);
    UnitsSecondNumber(a, b, if sep == "m " then 60 * a else 3600 * a, if sep == "m " then 1 else 60, sep, suffix);
  }

  lemma Reassociate(x: string, y: string, z: string, w: string)
    ensures x + y + z + w == x + (y + z + w)
  {
  }

  /** "<a>m <b>s" reads back as 60a + b seconds. */
  lemma ReadMinutesSeconds(a: nat, b: nat)
    ensures ParseDuration(NatToString(a) + "m " + NatToString(b) + "s") == Some(60 * a + b)
  {
    Reassociate(NatToString(a), "m ", NatToString(b), "s");
    ReadTwoNumbers(a, b, NatToString(a) + "m " + NatToString(b) + "s", "m " + NatToString(b) + "s", "m ", "s");
  }

  /** "<a>h <b>m" reads back as 3600a + 60b seconds. */
  lemma ReadHoursMinutes(a: nat, b: nat)
    ensures ParseDuration(NatToString(a) + "h " + NatToString(b) + "m") == Some(3600 * a + 60 * b)
  {
    Reassociate(NatToString(a), "h ", NatToString(b), "m");
    ReadTwoNumbers(a, b, NatToString(a) + "h " + NatToString(b) + "m", "h " + NatToString(b) + "m", "h ", "m");
  }
}
