/** The older BatteryService (BatteryService.java): reads the level and the
    current draw from fixed sysfs paths (root first for the current, then
    direct reads, then a constant estimate), formats a discharge time, keeps
    an `isCharging` flag driven by the power-connect broadcasts and hides
    its notification while charging. */
module LegacyService {
  import opened Common
  import opened Text
  import opened Device

  /** Current nodes, tried in order; the first one is also read through `su`. */
  const CurrentPaths: seq<Path> := [
    "/sys/class/power_supply/battery/current_now",
    "/sys/class/power_supply/bms/current_now",
    "/sys/class/power_supply/max77705-fuelgauge/current_now"
  ]

  /** Level nodes, tried in order. */
  const CapacityPaths: seq<Path> := [
    "/sys/class/power_supply/battery/capacity",
    "/sys/class/power_supply/bms/capacity"
  ]

  /** Rated capacity of the battery in mAh. */
  const BatteryCapacityMah: int := 4100

  const ActionPowerConnected: string := "android.intent.action.ACTION_POWER_CONNECTED"
  const ActionPowerDisconnected: string := "android.intent.action.ACTION_POWER_DISCONNECTED"

  const LevelErrorMessage: string := "Could not read battery level"

  // ---------------------------------------------------------------------
  // readBatteryLevel
  // ---------------------------------------------------------------------

  /** One path of the level loop: the first line, trimmed and parsed; None
      when the file cannot be opened, is empty or does not parse (all three
      are caught and the loop moves on). */
  function LevelProbe(d: Device): Path -> Option<int> {
    p => match ReadFirstLine(d, p)
         case Some(line) => ParseInt32(Trim(line))
         case None => None
  }

  /** The level the loop returns, or the IOException it throws. */
  function LevelReading(d: Device): (r: Result<int>)
    ensures r.Failure? ==> r.message == LevelErrorMessage
  {
    match FirstSome(LevelProbe(d), CapacityPaths)
    case Some(v) => Ok(v)
    case None => Failure(LevelErrorMessage)
  }

  /** The level is the parsed first line of the first path that opens and
      parses; the error is raised exactly when no path does. */
  lemma LevelIsFirstReadable(d: Device)
    ensures LevelReading(d).Failure? <==>
      forall i :: 0 <= i < |CapacityPaths| ==> LevelProbe(d)(CapacityPaths[i]).None?
    ensures LevelReading(d).Failure? ==> LevelReading(d).message == LevelErrorMessage
    ensures LevelReading(d).Ok? ==>
      exists i :: 0 <= i < |CapacityPaths| && LevelProbe(d)(CapacityPaths[i]) == Some(LevelReading(d).value)
        && ReadFirstLine(d, CapacityPaths[i]).Some?
        && ParseInt32(Trim(ReadFirstLine(d, CapacityPaths[i]).value)) == Some(LevelReading(d).value)
        && forall j :: 0 <= j < i ==> LevelProbe(d)(CapacityPaths[j]).None?
  {
    var f := LevelProbe(d);
    FirstSomeNone(f, CapacityPaths);
    if LevelReading(d).Ok? {
      var i := FirstSomeWitness(f, CapacityPaths);
      assert forall j :: 0 <= j < i ==> f(CapacityPaths[j]).None?;
    }
  }

  /** `readBatteryLevel`. */
  method ReadBatteryLevel(d: Device) returns (r: Result<int>)
    ensures r == LevelReading(d)
  {
    var f := LevelProbe(d);
    var i := 0;
    while i < |CapacityPaths|
      invariant 0 <= i <= |CapacityPaths|
      invariant FirstSome(f, CapacityPaths[i..]) == FirstSome(f, CapacityPaths)
    {
      assert CapacityPaths[i..][0] == CapacityPaths[i] && CapacityPaths[i..][1..] == CapacityPaths[i + 1..];
      var line := ReadFirstLine(d, CapacityPaths[i]);
      if line.Some? {
        var level := ParseInt32(Trim(line.value));
        if level.Some? {
          return Ok(level.value);
        }
      }
      i := i + 1;
    }
    return Failure(LevelErrorMessage);
  }

  // ---------------------------------------------------------------------
  // readCurrentDraw / estimateCurrentDraw
  // ---------------------------------------------------------------------

  /** `Math.abs(microAmps / 1000)`: truncating division, then magnitude. The
      quotient is at most 2147483 in magnitude, so the `abs` cannot overflow. */
  function MilliAmps(micro: int): (ma: int)
    ensures 0 <= ma
    ensures ma * 1000 <= Abs(micro) < (ma + 1) * 1000
  {
    Abs(TruncDiv(micro, 1000))
  }

  /** `estimateCurrentDraw`: the constant fallback in mA. */
  function EstimateCurrentDraw(): int {
    450
  }

  /** The root read of the first current path: used when `su` prints a
      non-empty first line that parses. */
  function RootCurrent(d: Device): (r: Option<int>)
    ensures r.Some? ==> 0 <= r.value && PrivilegedFirstLine(d, CurrentPaths[0]).Some?
    ensures var l := PrivilegedFirstLine(d, CurrentPaths[0]);
      r.Some? <==> l.Some? && l.value != [] && ParseInt32(Trim(l.value)).Some?
    ensures r.Some? ==> r.value == MilliAmps(ParseInt32(Trim(PrivilegedFirstLine(d, CurrentPaths[0]).value)).value)
  {
    match PrivilegedFirstLine(d, CurrentPaths[0])
    case Some(line) =>
      if line != [] then
        match ParseInt32(Trim(line))
        case Some(micro) => Some(MilliAmps(micro))
        case None => None
      else None
    case None => None
  }

  /** One path of the direct loop: the first line, trimmed and parsed. */
  function DirectProbe(d: Device): Path -> Option<int> {
    p => match ReadFirstLine(d, p)
         case Some(line) =>
           (match ParseInt32(Trim(line))
            case Some(micro) => Some(MilliAmps(micro))
            case None => None)
         case None => None
  }

  /** What `readCurrentDraw` returns: root, then the direct reads, then the estimate. */
  function CurrentDraw(d: Device): int {
    RootCurrent(d).OrElse(FirstSome(DirectProbe(d), CurrentPaths)).GetOr(EstimateCurrentDraw())
  }

  /** The three tiers in order, and the draw is never negative. */
  lemma CurrentDrawTiers(d: Device)
    ensures CurrentDraw(d) >= 0
    ensures RootCurrent(d).Some? ==> CurrentDraw(d) == RootCurrent(d).value
    ensures (RootCurrent(d).None? && forall i :: 0 <= i < |CurrentPaths| ==> DirectProbe(d)(CurrentPaths[i]).None?) ==>
              CurrentDraw(d) == 450
    ensures RootCurrent(d).None? && FirstSome(DirectProbe(d), CurrentPaths).Some? ==>
      exists i :: 0 <= i < |CurrentPaths| && DirectProbe(d)(CurrentPaths[i]) == Some(CurrentDraw(d))
        && forall j :: 0 <= j < i ==> DirectProbe(d)(CurrentPaths[j]).None?
  {
    var f := DirectProbe(d);
    FirstSomeNone(f, CurrentPaths);
    if FirstSome(f, CurrentPaths).Some? {
      var i := FirstSomeWitness(f, CurrentPaths);
      assert forall j :: 0 <= j < i ==> f(CurrentPaths[j]).None?;
    }
  }

  /** `readCurrentDraw`. */
  method ReadCurrentDraw(d: Device) returns (ma: int)
    ensures ma == CurrentDraw(d)
  {
    var rootCurrent := PrivilegedFirstLine(d, CurrentPaths[0]);
    if rootCurrent.Some? && rootCurrent.value != [] {
      var micro := ParseInt32(Trim(rootCurrent.value));
      if micro.Some? {
        return MilliAmps(micro.value);
      }
    }
    var f := DirectProbe(d);
    var i := 0;
    while i < |CurrentPaths|
      invariant 0 <= i <= |CurrentPaths|
      invariant FirstSome(f, CurrentPaths[i..]) == FirstSome(f, CurrentPaths)
    {
      assert CurrentPaths[i..][0] == CurrentPaths[i] && CurrentPaths[i..][1..] == CurrentPaths[i + 1..];
      var line := ReadFirstLine(d, CurrentPaths[i]);
      if line.Some? {
        var micro := ParseInt32(Trim(line.value));
        if micro.Some? {
          return MilliAmps(micro.value);
        }
      }
      i := i + 1;
    }
    return EstimateCurrentDraw();
  }

  // ---------------------------------------------------------------------
  // calculateDischargeTime
  // ---------------------------------------------------------------------

  /** Hours of discharge left at `percent` of the rated capacity and a draw of
      `currentMa` (positive). */
  function HoursLeft(percent: int, currentMa: int): real
    requires currentMa > 0
  {
    ((BatteryCapacityMah * percent) as real / 100.0) / currentMa as real
  }

  /** `calculateDischargeTime`: "Unknown" without a positive draw; otherwise
      the truncated hours and minutes as "%dh %dm", or "%dm" under an hour
      (which can be "0m"; there is no "< 1m" form). */
  function DischargeTime(percent: int, currentMa: int): (r: string)
    ensures r == "Unknown" <==> currentMa <= 0
    ensures r != []
  {
    if currentMa <= 0 then "Unknown"
    else
      var hm := HoursMinutes(HoursLeft(percent, currentMa));
      var text := if hm.0 > 0 then IntToDecimal(hm.0) + "h " + IntToDecimal(hm.1) + "m"
                  else IntToDecimal(hm.1) + "m";
      assert text[|text| - 1] == 'm';
      text
  }

  /** For a non-negative level and a positive draw the text names the whole
      minutes left, truncated: under an hour as "Mm" with M in [0, 59], from an
      hour on as "Hh Mm" with M in [0, 59]. */
  lemma DischargeTimeForms(percent: int, currentMa: int)
    requires percent >= 0 && currentMa > 0
    ensures var t := HoursLeft(percent, currentMa); var hm := HoursMinutes(t);
      && 0 <= hm.1 < 60 && hm.0 * 60 + hm.1 == Trunc(t * 60.0)
      && (t < 1.0 ==> hm.0 == 0 && DischargeTime(percent, currentMa) == IntToDecimal(hm.1) + "m")
      && (t >= 1.0 ==> hm.0 >= 1 && DischargeTime(percent, currentMa) == IntToDecimal(hm.0) + "h " + IntToDecimal(hm.1) + "m")
  {
    var t := HoursLeft(percent, currentMa);
    assert t >= 0.0;
  }

  lemma DischargeTimeExamples()
    ensures DischargeTime(50, 1025) == "2h 0m"
    ensures DischargeTime(0, 450) == "0m"
    ensures DischargeTime(80, 0) == "Unknown"
    ensures DischargeTime(80, -5) == "Unknown"
  {
    assert HoursLeft(50, 1025) == 2.0;
    assert HoursMinutes(2.0) == (2, 0);
    assert HoursLeft(0, 450) == 0.0;
    assert HoursMinutes(0.0) == (0, 0);
  }

  // ---------------------------------------------------------------------
  // The service
  // ---------------------------------------------------------------------

  /** The texts of the ongoing discharge notification. */
  datatype Notice = Notice(content: string, subText: string)

  /** `showDischargeNotification`: "%s remaining (%dmA)" and "%d%%". The
      content is the time text, then " remaining (", then digits that read
      back as the current, then "mA)"; the subtext reads back as the level. */
  function DischargeNotice(level: int, currentMa: int): (n: Notice)
    ensures n.subText != [] && n.subText[|n.subText| - 1] == '%'
    ensures ParseInteger(n.subText[..|n.subText| - 1]) == Some(level)
    ensures var t := |DischargeTime(level, currentMa)|;
      && t + 12 < |n.content| - 3
      && n.content[..t] == DischargeTime(level, currentMa)
      && n.content[t..t + 12] == " remaining ("
      && ParseInteger(n.content[t + 12..|n.content| - 3]) == Some(currentMa)
      && n.content[|n.content| - 3..] == "mA)"
  {
    var sub := IntToDecimal(level) + "%";
    assert sub[..|sub| - 1] == IntToDecimal(level);
    DecimalRoundTrip(level);
    var time := DischargeTime(level, currentMa);
    var digits := IntToDecimal(currentMa);
    DecimalRoundTrip(currentMa);
    ContentParts(time, digits);
    Notice(time + " remaining (" + digits + "mA)", sub)
  }

  /** The parts of "%s remaining (%dmA)" can be cut back out of it. */
  lemma ContentParts(time: string, digits: string)
    requires digits != []
    ensures var content := time + " remaining (" + digits + "mA)"; var t := |time|;
      && t + 12 < |content| - 3
      && content[..t] == time
      && content[t..t + 12] == " remaining ("
      && content[t + 12..|content| - 3] == digits
      && content[|content| - 3..] == "mA)"
  {
    var content := time + " remaining (" + digits + "mA)";
    var t := |time|;
    assert content[..t] == time;
    assert content[t..t + 12] == " remaining (";
    assert content[t + 12..|content| - 3] == digits;
  }

  /** The notification after one `updateBatteryNotification` while not
      charging: the new texts when the level reads, and otherwise whatever
      was shown (the exception is caught and logged). */
  function NoticeAfterUpdate(d: Device, shown: Option<Notice>): Option<Notice> {
    match LevelReading(d)
    case Ok(level) => Some(DischargeNotice(level, CurrentDraw(d)))
    case Failure(_) => shown
  }

  /** The `isCharging` flag after one broadcast reaches `chargingReceiver`. */
  function ChargingAfter(charging: bool, action: Option<string>): bool {
    if action == Some(ActionPowerConnected) then true
    else if action == Some(ActionPowerDisconnected) then false
    else charging
  }

  predicate IsPowerEvent(action: Option<string>) {
    action == Some(ActionPowerConnected) || action == Some(ActionPowerDisconnected)
  }

  /** The flag after a stream of broadcasts, delivered in order. */
  function ChargingAfterAll(charging: bool, actions: seq<Option<string>>): bool
    decreases |actions|
  {
    if actions == [] then charging else ChargingAfterAll(ChargingAfter(charging, actions[0]), actions[1..])
  }

  /** After any stream of broadcasts, the flag says whether the last power
      event was a connect; with no power event in the stream it is unchanged. */
  lemma {:induction false} ChargingFollowsLastPowerEvent(charging: bool, actions: seq<Option<string>>)
    ensures (forall i :: 0 <= i < |actions| ==> !IsPowerEvent(actions[i])) ==>
              ChargingAfterAll(charging, actions) == charging
    ensures forall i :: (0 <= i < |actions| && IsPowerEvent(actions[i])
                         && forall j :: i < j < |actions| ==> !IsPowerEvent(actions[j])) ==>
              ChargingAfterAll(charging, actions) == (actions[i] == Some(ActionPowerConnected))
    decreases |actions|
  {
    if actions != [] {
      var rest := actions[1..];
      ChargingFollowsLastPowerEvent(ChargingAfter(charging, actions[0]), rest);
      assert forall i :: 1 <= i < |actions| ==> actions[i] == rest[i - 1];
      if forall j :: 0 < j < |actions| ==> !IsPowerEvent(actions[j]) {
        assert forall j :: 0 <= j < |rest| ==> !IsPowerEvent(rest[j]) by {
          forall j | 0 <= j < |rest| ensures !IsPowerEvent(rest[j]) {
            assert rest[j] == actions[j + 1];
          }
        }
      }
      forall i | 0 < i < |actions| && IsPowerEvent(actions[i])
                 && (forall j :: i < j < |actions| ==> !IsPowerEvent(actions[j]))
        ensures ChargingAfterAll(charging, actions) == (actions[i] == Some(ActionPowerConnected))
      {
        assert rest[i - 1] == actions[i];
        assert forall j :: i - 1 < j < |rest| ==> !IsPowerEvent(rest[j]) by {
          forall j | i - 1 < j < |rest| ensures !IsPowerEvent(rest[j]) {
            assert rest[j] == actions[j + 1];
          }
        }
      }
    }
  }

  class BatteryService {
    var isCharging: bool
    /** What the notification manager shows under NOTIFICATION_ID. */
    var notification: Option<Notice>

    constructor ()
      ensures !isCharging && notification == None
    {
      isCharging := false;
      notification := None;
    }

    /** `updateBatteryNotification`: while charging it only cancels the
        notification and reads nothing from the device. */
    method UpdateBatteryNotification(d: Device)
      modifies this
      ensures isCharging == old(isCharging)
      ensures old(isCharging) ==> notification == None
      ensures !old(isCharging) ==> notification == NoticeAfterUpdate(d, old(notification))
    {
      if isCharging {
        notification := None;
        return;
      }
      var level := ReadBatteryLevel(d);
      if level.Failure? {
        return;
      }
      var currentDraw := ReadCurrentDraw(d);
      notification := Some(DischargeNotice(level.value, currentDraw));
    }

    /** `chargingReceiver.onReceive`: a connect sets the flag and cancels the
        notification, a disconnect clears the flag, anything else is ignored. */
    method OnReceive(action: Option<string>)
      modifies this
      ensures isCharging == ChargingAfter(old(isCharging), action)
      ensures notification == if action == Some(ActionPowerConnected) then None else old(notification)
    {
      if action == Some(ActionPowerConnected) {
        isCharging := true;
        notification := None;
      } else if action == Some(ActionPowerDisconnected) {
        isCharging := false;
      }
    }
  }
}
