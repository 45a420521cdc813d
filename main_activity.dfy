/** MainActivity (calculator/MainActivity.kt): the live chart of the last 60
    current readings, the time-remaining label with its colour, and the
    root-status texts. */
module MainScreen {
  import opened Common
  import opened HardwareManager

  /** The number of readings the chart keeps (5 minutes at 5-second intervals). */
  const ChartCapacity: nat := 60

  /** A chart point: minutes since the activity started, current in mA. */
  datatype Entry = Entry(x: real, y: real)

  datatype LabelColor = HoloGreenDark | HoloOrangeDark | HoloRedDark

  // ---------------------------------------------------------------------
  // The readings buffer (updateChart)
  // ---------------------------------------------------------------------

  /** One `add` followed by the `removeAt(0)` that runs when the list has
      grown past the capacity. */
  function Push(buffer: seq<Entry>, e: Entry): seq<Entry> {
    var s := buffer + [e];
    if |s| > ChartCapacity then s[1..] else s
  }

  /** The buffer after a stream of readings, pushed in order. */
  function PushAll(buffer: seq<Entry>, es: seq<Entry>): seq<Entry>
    decreases |es|
  {
    if es == [] then buffer else Push(PushAll(buffer, es[..|es| - 1]), es[|es| - 1])
  }

  /** One push on a buffer within the capacity: the buffer stays within the
      capacity, ends with the new reading, and below the capacity grows by
      exactly that reading; at the capacity only the oldest entry goes and
      the others keep their order. */
  lemma PushKeepsWindow(buffer: seq<Entry>, e: Entry)
    requires |buffer| <= ChartCapacity
    ensures |Push(buffer, e)| <= ChartCapacity
    ensures Push(buffer, e)[|Push(buffer, e)| - 1] == e
    ensures |buffer| < ChartCapacity ==> Push(buffer, e) == buffer + [e]
    ensures |buffer| == ChartCapacity ==> Push(buffer, e) == buffer[1..] + [e]
  {
    if |buffer| == ChartCapacity {
      assert (buffer + [e])[1..] == buffer[1..] + [e];
    }
  }

  /** From an empty chart, the buffer holds exactly the last 60 readings (all
      of them while there are fewer), oldest first. */
  lemma {:induction false} KeepsLastReadings(es: seq<Entry>)
    ensures PushAll([], es) == es[|es| - Min(|es|, ChartCapacity)..]
    decreases |es|
  {
    if es != [] {
      var prior := es[..|es| - 1];
      var e := es[|es| - 1];
      KeepsLastReadings(prior);
      var w := PushAll([], prior);
      if |prior| < ChartCapacity {
        assert w == prior;
        assert prior + [e] == es;
      } else {
        assert w == prior[|prior| - ChartCapacity..];
        assert w + [e] == es[|prior| - ChartCapacity..];
        assert (w + [e])[1..] == es[|es| - ChartCapacity..];
      }
    }
  }

  function Min(a: int, b: int): int {
    if a < b then a else b
  }

  // ---------------------------------------------------------------------
  // Labels (updateBatteryDisplay, updateRootStatus)
  // ---------------------------------------------------------------------

  /** The time-remaining text: "Charging" while charging, the estimate otherwise. */
  function TimeLabel(data: BatteryData): string {
    if data.isCharging then "Charging" else data.estimatedTimeRemaining
  }

  /** The time-remaining colour: green while charging; otherwise by level. */
  function TimeColor(data: BatteryData): LabelColor {
    if data.isCharging then HoloGreenDark
    else if data.capacityPercent > 50 then HoloGreenDark
    else if data.capacityPercent > 20 then HoloOrangeDark
    else HoloRedDark
  }

  /** While discharging the colour bands are (50, ∞) green, (20, 50] orange
      and the rest red; while charging the text is "Charging" in green. */
  lemma TimeLabelBands(data: BatteryData)
    ensures data.isCharging ==> TimeLabel(data) == "Charging" && TimeColor(data) == HoloGreenDark
    ensures !data.isCharging ==> TimeLabel(data) == data.estimatedTimeRemaining
    ensures !data.isCharging ==>
      && (TimeColor(data) == HoloGreenDark <==> data.capacityPercent > 50)
      && (TimeColor(data) == HoloOrangeDark <==> 20 < data.capacityPercent <= 50)
      && (TimeColor(data) == HoloRedDark <==> data.capacityPercent <= 20)
  {
  }

  const RootText: string := "✓ Root Access"
  const NoRootText: string := "✗ No Root Access"
  const NoRootWarning: string := "⚠️ Root access required for accurate hardware readings"
  const RootEnabledText: string := "Hardware-level battery monitoring enabled"

  /** The status text, its colour and the warning line for the root check's answer. */
  datatype RootStatus = RootStatus(text: string, color: LabelColor, warning: string)

  function RootStatusFor(hasRoot: bool): RootStatus {
    if hasRoot then RootStatus(RootText, HoloGreenDark, RootEnabledText)
    else RootStatus(NoRootText, HoloRedDark, NoRootWarning)
  }

  /** The status text says root exactly when root is available, and the
      colour and the warning follow the same flag. */
  lemma RootStatusFollowsFlag(hasRoot: bool)
    ensures RootStatusFor(hasRoot).text == RootText <==> hasRoot
    ensures RootStatusFor(hasRoot).warning == NoRootWarning <==> !hasRoot
    ensures RootStatusFor(hasRoot).color == HoloGreenDark <==> hasRoot
  {
    assert RootText[0] != NoRootText[0];
    assert |NoRootWarning| != |RootEnabledText|;
  }

  // ---------------------------------------------------------------------
  // The activity
  // ---------------------------------------------------------------------

  class MainActivity {
    var currentReadings: seq<Entry>
    /** `System.currentTimeMillis()` when the activity was created. */
    var startTime: int
    var timeRemainingText: string
    var timeRemainingColor: LabelColor
    var rootStatus: RootStatus

    predicate Valid()
      reads this
    {
      |currentReadings| <= ChartCapacity
    }

    constructor (now: int)
      ensures Valid() && currentReadings == [] && startTime == now
    {
      currentReadings := [];
      startTime := now;
      timeRemainingText := "";
      timeRemainingColor := HoloGreenDark;
      rootStatus := RootStatusFor(false);
    }

    /** `updateChart` at time `now` (ms). */
    method UpdateChart(data: BatteryData, now: int)
      requires Valid()
      modifies this
      ensures Valid()
      ensures currentReadings == Push(old(currentReadings), Entry(((now - startTime) as real / 1000.0) / 60.0, data.currentMilliAmps))
      ensures startTime == old(startTime) && timeRemainingText == old(timeRemainingText)
      ensures timeRemainingColor == old(timeRemainingColor) && rootStatus == old(rootStatus)
    {
      var timeElapsed := ((now - startTime) as real / 1000.0) / 60.0;
      var e := Entry(timeElapsed, data.currentMilliAmps);
      PushKeepsWindow(currentReadings, e);
      currentReadings := currentReadings + [e];
      if |currentReadings| > ChartCapacity {
        currentReadings := currentReadings[1..];
      }
    }

    /** The time-remaining part of `updateBatteryDisplay`, then its chart update. */
    method UpdateBatteryDisplay(data: BatteryData, now: int)
      requires Valid()
      modifies this
      ensures Valid()
      ensures timeRemainingText == TimeLabel(data) && timeRemainingColor == TimeColor(data)
      ensures currentReadings == Push(old(currentReadings), Entry(((now - startTime) as real / 1000.0) / 60.0, data.currentMilliAmps))
      ensures startTime == old(startTime) && rootStatus == old(rootStatus)
    {
      if data.isCharging {
        timeRemainingText := "Charging";
        timeRemainingColor := HoloGreenDark;
      } else {
        timeRemainingText := data.estimatedTimeRemaining;
        timeRemainingColor := if data.capacityPercent > 50 then HoloGreenDark
                              else if data.capacityPercent > 20 then HoloOrangeDark
                              else HoloRedDark;
      }
      UpdateChart(data, now);
    }

    /** `updateRootStatus`. */
    method UpdateRootStatus(hasRoot: bool)
      modifies this
      ensures rootStatus == RootStatusFor(hasRoot)
      ensures currentReadings == old(currentReadings) && startTime == old(startTime)
      ensures timeRemainingText == old(timeRemainingText) && timeRemainingColor == old(timeRemainingColor)
    {
      rootStatus := RootStatusFor(hasRoot);
    }
  }
}
