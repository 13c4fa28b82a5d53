/**
 * The pure helpers of the call-log screen (src/screens/CallLogsScreen.tsx): the
 * minutes/seconds duration label, the colour of a call type, and the choice between
 * name and number in a list row.
 */
module CallLogsScreen {

  import opened Wrappers
  import opened Text
  import opened DurationText
  import CallLogsModule
  import TopContactsScreen

  /** `formatDuration`: minutes (never folded into hours) and seconds. */
  function FormatDuration(seconds: int): (r: string)
    ensures |r| >= 2 && r[|r| - 1] == 's'
    ensures seconds == 0 ==> r == "0s"
  {
    if seconds == 0 then "0s"
    else
      var mins := seconds / 60;
      var secs := JsRemainder(seconds, 60);
      if mins > 0 then IntToString(mins) + "m " + IntToString(secs) + "s"
      else IntToString(secs) + "s"
  }

  lemma MinutesLabel(s: nat)
    requires s >= 60
    ensures FormatDuration(s) == NatToString(s / 60) + "m " + NatToString(s % 60) + "s"
  {
  }

  lemma SecondsLabel(s: nat)
    requires s < 60
    ensures FormatDuration(s) == NatToString(s) + "s"
  {
    if s == 0 {
      assert NatToString(0) == "0";
    } else {
      assert s % 60 == s;
    }
  }

  /** The label loses nothing: reading it back gives the exact duration, however many minutes. */
  lemma FormatDurationReadsBack(s: nat)
    ensures ParseDuration(FormatDuration(s)) == Some(s)
  {
    if s >= 60 {
      MinutesLabel(s);
      ReadMinutesSeconds(s / 60, s % 60);
      TopContactsScreen.MinutesAndSeconds(s);
    } else {
      SecondsLabel(s);
      ReadSeconds(s);
    }
  }

  /** An hour reads as sixty minutes. */
  lemma AnHourIsSixtyMinutes()
    ensures FormatDuration(3600) == "60m 0s"
  {
    MinutesLabel(3600);
    assert NatToString(60) == "60";
    assert NatToString(0) == "0";
  }

  /** Below an hour the two screens print the same label; from an hour up they differ. */
  lemma LabelsAgreeBelowAnHour(s: nat)
    ensures FormatDuration(s) == TopContactsScreen.FormatDuration(s) <==> s < 3600
  {
    if s < 3600 {
      if s >= 60 {
        MinutesLabel(s);
        TopContactsScreen.MinutesLabel(s);
      } else {
        SecondsLabel(s);
        TopContactsScreen.SecondsLabel(s);
      }
    } else {
      assert TopContactsScreen.FormatDuration(s)[|TopContactsScreen.FormatDuration(s)| - 1] == 'm';
    }
  }

  const IncomingColor := "#4CAF50"
  const OutgoingColor := "#2196F3"
  const MissedColor := "#F44336"
  const RejectedColor := "#FF9800"
  const OtherColor := "#9E9E9E"

  /** `getCallTypeStyle(type).color`. */
  function CallTypeColor(callType: string): (color: string)
    ensures color == OtherColor <==> callType !in {"INCOMING", "OUTGOING", "MISSED", "REJECTED"}
  {
    match callType
    case "INCOMING" => IncomingColor
    case "OUTGOING" => OutgoingColor
    case "MISSED" => MissedColor
    case "REJECTED" => RejectedColor
    case _ => OtherColor
  }

  /**
   * Every call type the native module reports has its own colour, and only the
   * unrecognised type codes are grey.
   */
  lemma CallTypeColoursDistinct(a: CallLogsModule.CallType, b: CallLogsModule.CallType)
    ensures CallTypeColor(CallLogsModule.CallTypeName(a)) == CallTypeColor(CallLogsModule.CallTypeName(b)) <==> a == b
  {
  }

  lemma GreyMeansUnknownCode(code: int)
    ensures CallTypeColor(CallLogsModule.CallTypeName(CallLogsModule.ClassifyType(code))) == OtherColor
        <==> code !in {CallLogsModule.IncomingType, CallLogsModule.OutgoingType, CallLogsModule.MissedType, CallLogsModule.RejectedType}
  {
  }

  /** The row title: `item.name || item.phoneNumber`. */
  function Title(item: CallLogsModule.CallLogItem): (title: string)
    ensures Truthy(item.name) ==> title == item.name.value
    ensures !Truthy(item.name) ==> title == item.phoneNumber
  {
    if Truthy(item.name) then item.name.value else item.phoneNumber
  }

  /** Whether the separate number line is rendered: `item.name && …`. */
  predicate ShowsNumberLine(item: CallLogsModule.CallLogItem) {
    Truthy(item.name)
  }

  /** The number is always on screen: as the title, on its own line, or both when the name is the number itself. */
  lemma NumberAlwaysShown(item: CallLogsModule.CallLogItem)
    ensures ShowsNumberLine(item) || Title(item) == item.phoneNumber
    ensures ShowsNumberLine(item) <==> Title(item) != item.phoneNumber || (Truthy(item.name) && item.name.value == item.phoneNumber)
  {
  }
}
