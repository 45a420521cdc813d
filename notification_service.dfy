/** BatteryNotificationService (calculator/BatteryNotificationService.kt):
    one line of notification text built from a privileged read of the
    current and of the design capacity and from the platform's charge level,
    by straight-line unit conversion with fallbacks. */
module NotificationService {
  import opened Common
  import opened Text
  import opened Device

  const CurrentNowPath: Path := "/sys/class/power_supply/battery/current_now"
  const ChargeFullPath: Path := "/sys/class/power_supply/battery/charge_full_design"

  /** The fallback design capacity in µAh. */
  const FallbackChargeFullMicroAh: real := 4100000.0

  /** The separator the format string intends: an em dash. */
  const EmDash: string := "—"

  /** What the format string holds instead: the UTF-8 bytes of an em dash
      read back as Windows-1252 ("a circumflex, euro sign, right double quote"). */
  const MisencodedDash: string := "â€”"

  /** `tryReadFile`: the standard output of `su -c cat <path>`, trimmed; None
      when running the command throws. A command that runs but fails prints
      nothing, which no parser accepts, so the callers treat it like None. */
  function TryReadFile(d: Device, p: Path): (r: Option<string>)
    ensures r.None? <==> p !in d.privileged
    ensures r.Some? ==>
              var out := d.privileged[p];
              && (r.value == [] || (!IsBlank(r.value[0]) && !IsBlank(r.value[|r.value| - 1])))
              && exists a, b :: 0 <= a <= b <= |out| && r.value == out[a..b]
                   && (forall i :: 0 <= i < a ==> IsBlank(out[i]))
                   && (forall i :: b <= i < |out| ==> IsBlank(out[i]))
  {
    match PrivilegedOutput(d, p)
    case Some(out) => Some(Trim(out))
    case None => None
  }

  /** `text?.toFloatOrNull()` for the integer texts the nodes print. */
  function ParseNumber(text: Option<string>): (r: Option<real>)
    ensures r.Some? <==> text.Some? && ParseInteger(text.value).Some?
    ensures r.Some? ==> r.value == ParseInteger(text.value).value as real
  {
    match text
    case Some(t) => (match ParseInteger(t) case Some(v) => Some(v as real) case None => None)
    case None => None
  }

  /** `(currentNow?.toFloatOrNull() ?: 0f) / 1000f`: µA to mA, sign kept. */
  function CurrentMa(currentNow: Option<string>): real {
    ParseNumber(currentNow).GetOr(0.0) / 1000.0
  }

  /** `(chargeFull?.toFloatOrNull() ?: 4100000f) / 1000f`: µAh to mAh. */
  function CapacityMah(chargeFull: Option<string>): real {
    ParseNumber(chargeFull).GetOr(FallbackChargeFullMicroAh) / 1000.0
  }

  function RemainingMah(capacityMah: real, percent: int): real {
    capacityMah * percent as real / 100.0
  }

  /** Hours left: 0 unless the current is positive. */
  function HoursLeft(remainingMah: real, currentMa: real): real {
    if currentMa > 0.0 then remainingMah / currentMa else 0.0
  }

  /** The estimate line "%dh %dm remaining (%.0fmA) <sep> %d%%". */
  function EstimateText(h: int, m: int, currentMa: real, percent: int, sep: string): string {
    IntToDecimal(h) + "h " + IntToDecimal(m) + "m remaining (" + IntToDecimal(RoundHalfUp(currentMa)) + "mA) "
      + sep + " " + IntToDecimal(percent) + "%"
  }

  function CalculatingText(percent: int): string {
    "Calculating... " + IntToDecimal(percent) + "%"
  }

  /** `readBatteryInfo` on the three inputs, with the separator as a parameter. */
  function InfoWith(currentNow: Option<string>, chargeFull: Option<string>, percent: int, sep: string): string {
    var currentMa := CurrentMa(currentNow);
    var hours := HoursLeft(RemainingMah(CapacityMah(chargeFull), percent), currentMa);
    var hm := HoursMinutes(hours);
    if hm.0 > 0 || hm.1 > 0 then EstimateText(hm.0, hm.1, currentMa, percent, sep)
    else CalculatingText(percent)
  }

  /** `readBatteryInfo` as written, with the misencoded separator. */
  function BatteryInfoAsWritten(currentNow: Option<string>, chargeFull: Option<string>, percent: int): string {
    InfoWith(currentNow, chargeFull, percent, MisencodedDash)
  }

  /** `readBatteryInfo` with the em dash the format string intends. */
  function BatteryInfo(currentNow: Option<string>, chargeFull: Option<string>, percent: int): string {
    InfoWith(currentNow, chargeFull, percent, EmDash)
  }

  /** The text the program prints for the device and the level
      `getIntProperty(CAPACITY)` reports, separator as written. Without a
      privileged read of the current that parses to a positive number the
      estimate is withheld. */
  function ReadBatteryInfo(d: Device, percent: int): (r: string)
    ensures CurrentNowPath !in d.privileged ==> r == CalculatingText(percent)
    ensures r != CalculatingText(percent) ==>
              && TryReadFile(d, CurrentNowPath).Some?
              && ParseNumber(TryReadFile(d, CurrentNowPath)).Some?
              && ParseNumber(TryReadFile(d, CurrentNowPath)).value > 0.0
  {
    var currentNow := TryReadFile(d, CurrentNowPath);
    var chargeFull := TryReadFile(d, ChargeFullPath);
    EstimateShownIffSomeTimeLeft(currentNow, chargeFull, percent, MisencodedDash);
    BatteryInfoAsWritten(currentNow, chargeFull, percent)
  }

  /** A missing or unparsable current is 0 mA, and so is the estimate
      withheld: the text is "Calculating... p%", whatever the separator. The
      same holds for a negative current, the sign many drivers use while
      discharging. */
  lemma NoPositiveCurrentMeansCalculating(currentNow: Option<string>, chargeFull: Option<string>, percent: int, sep: string)
    requires ParseNumber(currentNow).None? || ParseNumber(currentNow).value <= 0.0
    ensures ParseNumber(currentNow).None? ==> CurrentMa(currentNow) == 0.0
    ensures ParseNumber(currentNow).Some? ==> CurrentMa(currentNow) * 1000.0 == ParseNumber(currentNow).value
    ensures InfoWith(currentNow, chargeFull, percent, sep) == CalculatingText(percent)
  {
    assert CurrentMa(currentNow) <= 0.0;
    assert HoursMinutes(0.0) == (0, 0);
  }

  /** A missing or unparsable capacity is 4100 mAh; otherwise it is the value
      in µAh divided by 1000. */
  lemma CapacityFallback(chargeFull: Option<string>)
    ensures ParseNumber(chargeFull).None? ==> CapacityMah(chargeFull) == 4100.0
    ensures ParseNumber(chargeFull).Some? ==> CapacityMah(chargeFull) * 1000.0 == ParseNumber(chargeFull).value
  {
  }

  /** The remaining charge lies between 0 and the capacity for a level in
      [0, 100] and a non-negative capacity. */
  lemma RemainingWithinCapacity(capacityMah: real, percent: int)
    requires 0.0 <= capacityMah && 0 <= percent <= 100
    ensures 0.0 <= RemainingMah(capacityMah, percent) <= capacityMah
  {
    assert capacityMah * percent as real <= capacityMah * 100.0 by {
      assert capacityMah * (100 - percent) as real >= 0.0;
    }
  }

  /** The estimate is shown exactly when the hours, truncated, or the
      minutes, truncated, are positive; it is then built from the real
      hours left, whose minutes lie in [0, 59], and needs a positive current. */
  lemma EstimateShownIffSomeTimeLeft(currentNow: Option<string>, chargeFull: Option<string>, percent: int, sep: string)
    ensures var currentMa := CurrentMa(currentNow);
      var hours := HoursLeft(RemainingMah(CapacityMah(chargeFull), percent), currentMa);
      var hm := HoursMinutes(hours);
      && (hm.0 > 0 || hm.1 > 0 ==>
            && currentMa > 0.0 && hours > 0.0 && 0 <= hm.1 < 60
            && hm.0 * 60 + hm.1 == Trunc(hours * 60.0)
            && InfoWith(currentNow, chargeFull, percent, sep) == EstimateText(hm.0, hm.1, currentMa, percent, sep))
      && (!(hm.0 > 0 || hm.1 > 0) ==> InfoWith(currentNow, chargeFull, percent, sep) == CalculatingText(percent))
  {
    var currentMa := CurrentMa(currentNow);
    var hours := HoursLeft(RemainingMah(CapacityMah(chargeFull), percent), currentMa);
    if currentMa <= 0.0 {
      assert HoursMinutes(0.0) == (0, 0);
    }
    if hours <= 0.0 {
      var hm := HoursMinutes(hours);
      assert hm.0 <= 0 && hm.1 <= 0;
    }
  }

  /** The two forms of the text cannot be confused: the calculating text
      starts with 'C', the estimate with a digit. */
  lemma FormsAreDistinct(h: int, m: int, currentMa: real, percent: int, sep: string)
    ensures EstimateText(h, m, currentMa, percent, sep) != CalculatingText(percent)
  {
    assert EstimateText(h, m, currentMa, percent, sep)[0] == IntToDecimal(h)[0];
    assert CalculatingText(percent)[0] == 'C';
  }

  /** As written, every estimate line carries the three misencoded
      characters where the em dash belongs: it is two characters longer than
      the intended line and differs from it. The calculating text, which has
      no separator, is as intended. */
  lemma MisencodedSeparator(currentNow: Option<string>, chargeFull: Option<string>, percent: int)
    ensures BatteryInfo(currentNow, chargeFull, percent) == CalculatingText(percent) ==>
              BatteryInfoAsWritten(currentNow, chargeFull, percent) == BatteryInfo(currentNow, chargeFull, percent)
    ensures BatteryInfo(currentNow, chargeFull, percent) != CalculatingText(percent) ==>
              |BatteryInfoAsWritten(currentNow, chargeFull, percent)| == |BatteryInfo(currentNow, chargeFull, percent)| + 2
  {
  }

  lemma ExampleReadings()
    ensures CurrentMa(Some("350000")) == 350.0
    ensures CapacityMah(Some("4100000")) == 4100.0
  {
    assert DigitsValue("350000") == 350000 by {
      assert "350000"[..5] == "35000" && "35000"[..4] == "3500" && "3500"[..3] == "350";
      assert "350"[..2] == "35" && "35"[..1] == "3";
    }
    assert DigitsValue("4100000") == 4100000 by {
      assert "4100000"[..6] == "410000" && "410000"[..5] == "41000" && "41000"[..4] == "4100";
      assert "4100"[..3] == "410" && "410"[..2] == "41" && "41"[..1] == "4";
    }
  }

  lemma ExampleSplit()
    ensures HoursLeft(RemainingMah(4100.0, 50), 350.0) == 41.0 / 7.0
    ensures HoursMinutes(41.0 / 7.0) == (5, 51)
  {
    assert Trunc(41.0 / 7.0) == 5;
    assert Trunc((41.0 / 7.0 - 5.0) * 60.0) == 51;
  }

  lemma ExampleDecimals()
    ensures IntToDecimal(5) == "5" && IntToDecimal(51) == "51"
    ensures IntToDecimal(350) == "350" && IntToDecimal(50) == "50"
    ensures RoundHalfUp(350.0) == 350
  {
  }

  /** A concrete input: 350 mA drawn from a full 4100 mAh battery at 50 %. */
  lemma MisencodedExample()
    ensures BatteryInfo(Some("350000"), Some("4100000"), 50) == "5h 51m remaining (350mA) — 50%"
    ensures BatteryInfoAsWritten(Some("350000"), Some("4100000"), 50) == "5h 51m remaining (350mA) â€” 50%"
  {
    ExampleReadings();
    ExampleSplit();
    ExampleText(EmDash);
    ExampleText(MisencodedDash);
    assert CurrentMa(Some("350000")) == 350.0;
    assert InfoWith(Some("350000"), Some("4100000"), 50, EmDash) == EstimateText(5, 51, 350.0, 50, EmDash);
    assert InfoWith(Some("350000"), Some("4100000"), 50, MisencodedDash) == EstimateText(5, 51, 350.0, 50, MisencodedDash);
  }

  lemma ExampleText(sep: string)
    ensures EstimateText(5, 51, 350.0, 50, sep) == "5h 51m remaining (350mA) " + sep + " 50%"
  {
    ExampleDecimals();
  }
}
