/**
 * The pure helpers of the top-contacts screen (src/screens/TopContactsScreen.tsx):
 * the hours/minutes duration label, the total over the list, the zero-total share,
 * chart-name truncation, palette colouring and the per-call average.
 */
module TopContactsScreen {

  import opened Wrappers
  import opened Text
  import opened DurationText
  import CallLogsModule

  /** `formatDuration`: hours and minutes from an hour up, otherwise minutes and seconds. */
  function FormatDuration(seconds: int): (r: string)
    ensures |r| >= 2
    ensures seconds == 0 ==> r == "0s"
    ensures r[|r| - 1] == if seconds >= 3600 then 'm' else 's'
  {
    if seconds == 0 then "0s"
    else
      var hours := seconds / 3600;
      var mins := JsRemainder(seconds, 3600) / 60;
      var secs := JsRemainder(seconds, 60);
      if hours > 0 then IntToString(hours) + "h " + IntToString(mins) + "m"
      else if mins > 0 then IntToString(mins) + "m " + IntToString(secs) + "s"
      else IntToString(secs) + "s"
  }

  /** The three fields the label is built from split the duration exactly. */
  lemma DurationParts(s: nat)
    ensures 3600 * (s / 3600) + 60 * ((s % 3600) / 60) + s % 60 == s
    ensures (s % 3600) / 60 < 60 && s % 60 < 60
  {
    var r := s % 3600;
    assert s == 3600 * (s / 3600) + r;
    assert r == 60 * (r / 60) + r % 60;
    assert s % 60 == r % 60 by {
      assert s == 60 * (60 * (s / 3600) + r / 60) + r % 60;
    }
  }

  lemma SmallQuotient(a: nat, b: nat)
    requires a < b
    ensures a / b == 0 && a % b == a
  {
  }

  lemma MinutesAndSeconds(s: nat)
    ensures 60 * (s / 60) + s % 60 == s
  {
  }

  /** From an hour up the label is hours and minutes; the seconds are dropped. */
  lemma HoursLabel(s: nat)
    requires s >= 3600
    ensures FormatDuration(s) == NatToString(s / 3600) + "h " + NatToString((s % 3600) / 60) + "m"
  {
  }

  /** From a minute up to an hour the label is minutes and seconds. */
  lemma MinutesLabel(s: nat)
    requires 60 <= s < 3600
    ensures FormatDuration(s) == NatToString(s / 60) + "m " + NatToString(s % 60) + "s"
  {
    assert s % 3600 == s;
  }

  /** Below a minute the label is the seconds alone, "0s" included. */
  lemma SecondsLabel(s: nat)
    requires s < 60
    ensures FormatDuration(s) == NatToString(s) + "s"
  {
    if s == 0 {
      assert NatToString(0) == "0";
    } else {
      SmallQuotient(s, 3600);
      SmallQuotient(s, 60);
      assert JsRemainder(s, 3600) / 60 == 0;
    }
  }

  lemma HoursReadBack(s: nat)
    requires s >= 3600
    ensures ParseDuration(FormatDuration(s)) == Some(s - s % 60)
  {
    HoursLabel(s);
    ReadHoursMinutes(s / 3600, (s % 3600) / 60);
    DurationParts(s);
  }

  lemma MinutesReadBack(s: nat)
    requires 60 <= s < 3600
    ensures ParseDuration(FormatDuration(s)) == Some(s)
  {
    MinutesLabel(s);
    ReadMinutesSeconds(s / 60, s % 60);
    MinutesAndSeconds(s);
  }

  lemma SecondsReadBack(s: nat)
    requires s < 60
    ensures ParseDuration(FormatDuration(s)) == Some(s)
  {
    SecondsLabel(s);
    ReadSeconds(s);
  }

  /**
   * Reading a label back: below an hour it gives the exact duration; from an hour up it
   * gives the duration with the seconds dropped.
   */
  lemma FormatDurationReadsBack(s: nat)
    ensures ParseDuration(FormatDuration(s)) == Some(if s >= 3600 then s - s % 60 else s)
  {
    if s >= 3600 {
      HoursReadBack(s);
    } else if s >= 60 {
      MinutesReadBack(s);
    } else {
      SecondsReadBack(s);
    }
  }

  /**
   * `getTotalDuration`: the `reduce` over the list's total durations, starting from 0 and
   * adding one contact at a time in list order.
   */
  function TotalDuration(cs: seq<CallLogsModule.ContactStats>): (total: int)
    ensures cs == [] ==> total == 0
  {
    CallLogsModule.SumOf(cs, CallLogsModule.Seconds)
  }

  /** The `reduce` step: appending a contact adds its duration to the total. */
  lemma TotalDurationAppend(cs: seq<CallLogsModule.ContactStats>, c: CallLogsModule.ContactStats)
    ensures TotalDuration(cs + [c]) == TotalDuration(cs) + c.totalDuration
  {
    assert (cs + [c])[..|cs|] == cs;
  }

  predicate NoNegativeDurations(cs: seq<CallLogsModule.ContactStats>) {
    forall c :: c in cs ==> c.totalDuration >= 0
  }

  /** With no negative durations, each contact's duration is at most the total, so no share exceeds the whole. */
  lemma {:induction false} EachDurationWithinTotal(cs: seq<CallLogsModule.ContactStats>)
    requires NoNegativeDurations(cs)
    ensures TotalDuration(cs) >= 0
    ensures forall c :: c in cs ==> c.totalDuration <= TotalDuration(cs)
    decreases |cs|
  {
    if |cs| > 0 {
      var p := cs[..|cs| - 1];
      assert forall c :: c in p ==> c in cs;
      EachDurationWithinTotal(p);
      assert cs == p + [cs[|cs| - 1]];
    }
  }

  /** With no negative durations, the total is zero exactly when every contact's duration is. */
  lemma {:induction false} ZeroTotalMeansSilence(cs: seq<CallLogsModule.ContactStats>)
    requires NoNegativeDurations(cs)
    ensures TotalDuration(cs) == 0 <==> forall c :: c in cs ==> c.totalDuration == 0
    decreases |cs|
  {
    EachDurationWithinTotal(cs);
    if |cs| > 0 {
      var p := cs[..|cs| - 1];
      assert forall c :: c in p ==> c in cs;
      ZeroTotalMeansSilence(p);
      EachDurationWithinTotal(p);
      assert cs == p + [cs[|cs| - 1]];
    }
  }

  const ZeroPercentLabel := "0%"

  /** The share column: "0%" for a zero total; otherwise a fraction whose `toFixed(1)` text is not modelled. */
  datatype Share = ZeroPercent | Fraction(duration: int, total: int)

  function Percentage(duration: int, total: int): (p: Share)
    ensures p.ZeroPercent? <==> total == 0
    ensures p.Fraction? ==> p.duration == duration && p.total == total
  {
    if total == 0 then ZeroPercent else Fraction(duration, total)
  }

  /** The share text when it is fixed: "0%" exactly for a zero total. */
  function ShareLabel(p: Share): Option<string> {
    if p.ZeroPercent? then Some(ZeroPercentLabel) else None
  }

  const MaxChartName := 15
  const Ellipsis := "..."

  /** The pie-chart legend name: longer names are cut to 15 characters plus "...". */
  function ChartName(name: string): (r: string)
    ensures |r| == if |name| > MaxChartName then MaxChartName + |Ellipsis| else |name|
    ensures |name| <= MaxChartName ==> r == name
    ensures |name| > MaxChartName ==> r[..MaxChartName] == name[..MaxChartName] && r[MaxChartName..] == Ellipsis
  {
    if |name| > MaxChartName then name[..MaxChartName] + Ellipsis else name
  }

  /** A name survives unchanged exactly when it is short, or already ends in "..." right after character 15. */
  lemma ChartNameUnchanged(name: string)
    ensures ChartName(name) == name <==> |name| <= MaxChartName || name[MaxChartName..] == Ellipsis
  {
    if |name| > MaxChartName && name[MaxChartName..] == Ellipsis {
      assert name == name[..MaxChartName] + name[MaxChartName..];
    }
  }

  const Palette := ["#FF6384", "#36A2EB", "#FFCE56", "#4BC0C0", "#9966FF",
                    "#FF9F40", "#E7E9ED", "#8DD3C7", "#BEBADA", "#FB8072"]

  /** `colors[index % colors.length]`. */
  function PaletteColor(index: nat): (color: string)
    ensures color in Palette
  {
    Palette[index % |Palette|]
  }

  /** Two slices share a colour exactly when their positions agree modulo ten. */
  lemma PaletteColorsRepeatEveryTen(i: nat, j: nat)
    ensures PaletteColor(i) == PaletteColor(j) <==> i % 10 == j % 10
  {
    PaletteDistinct(i % 10, j % 10);
  }

  lemma PaletteDistinct(a: nat, b: nat)
    requires a < 10 && b < 10
    ensures Palette[a] == Palette[b] <==> a == b
  {
  }

  /** One pie-chart slice. */
  datatype ChartEntry = ChartEntry(name: string, duration: int, color: string)

  /** `chartData`: one slice per contact, in list order. */
  function ChartData(cs: seq<CallLogsModule.ContactStats>): (entries: seq<ChartEntry>)
    ensures |entries| == |cs|
    ensures forall i :: 0 <= i < |cs| ==> entries[i].name == ChartName(cs[i].name)
    ensures forall i :: 0 <= i < |cs| ==> entries[i].duration == cs[i].totalDuration
    ensures forall i :: 0 <= i < |cs| ==> entries[i].color == PaletteColor(i)
  {
    seq(|cs|, i requires 0 <= i < |cs| => ChartEntry(ChartName(cs[i].name), cs[i].totalDuration, PaletteColor(i)))
  }

  /** The screen fetches ten contacts, so every slice of its chart has its own colour. */
  lemma TenSlicesHaveDistinctColours(cs: seq<CallLogsModule.ContactStats>)
    requires |cs| <= 10
    ensures forall i, j :: 0 <= i < j < |cs| ==> ChartData(cs)[i].color != ChartData(cs)[j].color
  {
    var d := ChartData(cs);
    forall i, j | 0 <= i < j < |cs|
      ensures d[i].color != d[j].color
    {
      SmallQuotient(i, 10);
      SmallQuotient(j, 10);
      PaletteDistinct(i, j);
    }
  }

  /** JavaScript's `Math.floor(a / b)`; a zero divisor gives no finite value. */
  function FloorDiv(a: int, b: int): (q: Option<int>)
    ensures q.Some? <==> b != 0
    ensures b > 0 ==> q.Some? && b * q.value <= a < b * (q.value + 1)
    ensures b < 0 ==> q.Some? && (-b) * q.value <= -a < (-b) * (q.value + 1)
  {
    if b == 0 then None
    else if b > 0 then Some(a / b)
    else Some((-a) / (-b))
  }

  /** The "Avg/Call" value: `Math.floor(totalDuration / callCount)`. */
  function AveragePerCall(c: CallLogsModule.ContactStats): (avg: Option<int>)
    ensures avg.Some? <==> c.callCount != 0
    ensures c.callCount > 0 ==> avg.Some? && c.callCount * avg.value <= c.totalDuration
    ensures c.callCount > 0 ==> avg.Some? && c.totalDuration < c.callCount * (avg.value + 1)
  {
    FloorDiv(c.totalDuration, c.callCount)
  }

  /** Every contact the native module returns has at least one call, so its average is defined. */
  lemma EveryListedContactHasAverage(cursor: Option<seq<CallLogsModule.Row>>, limit: int, c: CallLogsModule.ContactStats)
    requires CallLogsModule.GetTopContactsByDuration(cursor, limit).Success?
    requires c in CallLogsModule.GetTopContactsByDuration(cursor, limit).value
    ensures AveragePerCall(c).Some?
  {
  }
}
