/** BatteryMonitorService (calculator/BatteryMonitorService.kt): the
    foreground service that starts and stops the polling of the hardware
    manager, keeps the last snapshot, and shows the discharge notification
    only while the battery is not charging, with an icon and a colour chosen
    from the charge level. */
module MonitorService {
  import opened Common
  import opened Text
  import opened HardwareManager

  const ActionStartMonitoring: string := "com.batterydischarge.START_MONITORING"
  const ActionStopMonitoring: string := "com.batterydischarge.STOP_MONITORING"
  const ActionUpdateNotification: string := "com.batterydischarge.UPDATE_NOTIFICATION"

  const CalculatingText: string := "Calculating discharge time..."

  // ---------------------------------------------------------------------
  // Icon and colour tables
  // ---------------------------------------------------------------------

  datatype Icon = Battery90 | Battery80 | Battery60 | Battery50 | Battery30 | Battery20 | BatteryAlert {
    /** The lowest level the icon stands for; the alert icon has none. */
    function Threshold(): Option<int> {
      match this
      case Battery90 => Some(90)
      case Battery80 => Some(80)
      case Battery60 => Some(60)
      case Battery50 => Some(50)
      case Battery30 => Some(30)
      case Battery20 => Some(20)
      case BatteryAlert => None
    }
  }

  datatype Color = Green | Yellow | Red

  /** `getBatteryIcon`. */
  function BatteryIcon(percentage: int): Icon {
    if percentage >= 90 then Battery90
    else if percentage >= 80 then Battery80
    else if percentage >= 60 then Battery60
    else if percentage >= 50 then Battery50
    else if percentage >= 30 then Battery30
    else if percentage >= 20 then Battery20
    else BatteryAlert
  }

  /** `getBatteryColor`. */
  function BatteryColor(percentage: int): Color {
    if percentage >= 50 then Green
    else if percentage >= 20 then Yellow
    else Red
  }

  /** The icon is the one with the highest threshold the level reaches, and
      the alert icon exactly when the level reaches none. */
  lemma IconIsHighestThresholdReached(percentage: int)
    ensures BatteryIcon(percentage) == BatteryAlert <==> percentage < 20
    ensures BatteryIcon(percentage).Threshold().Some? ==>
      && BatteryIcon(percentage).Threshold().value <= percentage
      && forall i: Icon :: i.Threshold().Some? && i.Threshold().value <= percentage ==>
           i.Threshold().value <= BatteryIcon(percentage).Threshold().value
  {
    var r := BatteryIcon(percentage);
    forall i: Icon | i.Threshold().Some? && i.Threshold().value <= percentage
      ensures i.Threshold().value <= r.Threshold().value
    {
    }
  }

  /** A higher level never shows a lower icon. */
  lemma {:induction false} IconMonotone(p: int, q: int)
    requires p <= q
    ensures BatteryIcon(p).Threshold().Some? ==>
      BatteryIcon(q).Threshold().Some? && BatteryIcon(p).Threshold().value <= BatteryIcon(q).Threshold().value
  {
    IconIsHighestThresholdReached(p);
    IconIsHighestThresholdReached(q);
    if BatteryIcon(p).Threshold().Some? {
      assert BatteryIcon(p).Threshold().value <= q;
    }
  }

  /** The colour bands agree with the icon bands: red exactly with the alert
      icon, green exactly with the icons from 50 up. */
  lemma ColorMatchesIcon(percentage: int)
    ensures BatteryColor(percentage) == Green <==> percentage >= 50
    ensures BatteryColor(percentage) == Red <==> percentage < 20
    ensures BatteryColor(percentage) == Red <==> BatteryIcon(percentage) == BatteryAlert
    ensures BatteryColor(percentage) == Green <==>
      BatteryIcon(percentage).Threshold().Some? && BatteryIcon(percentage).Threshold().value >= 50
  {
  }

  // ---------------------------------------------------------------------
  // Notification content
  // ---------------------------------------------------------------------

  datatype Notice = Notice(content: string, subText: string, icon: Icon, color: Color)

  /** What the service shows under its notification id. */
  datatype Shown = Hidden | Initializing | Discharge(notice: Notice)

  /** `updateDischargeNotification`'s texts, icon and colour for a snapshot. */
  function DischargeNotice(data: BatteryData): Notice {
    var content := if data.currentMilliAmps > NoiseFloorMa then
                     data.estimatedTimeRemaining + " remaining (" + IntToDecimal(RoundHalfUp(data.currentMilliAmps)) + "mA)"
                   else CalculatingText;
    Notice(content, IntToDecimal(data.capacityPercent) + "%",
           BatteryIcon(data.capacityPercent), BatteryColor(data.capacityPercent))
  }

  /** The content leads with the estimate exactly when the current is above
      10 mA, and is the calculating text otherwise; the current shown is the
      value rounded to whole mA; the subtext reads back as the level. */
  lemma DischargeNoticeContent(data: BatteryData)
    ensures var n := DischargeNotice(data);
      && (data.currentMilliAmps > NoiseFloorMa ==>
            var ma := RoundHalfUp(data.currentMilliAmps);
            && n.content[..|data.estimatedTimeRemaining|] == data.estimatedTimeRemaining
            && n.content[|data.estimatedTimeRemaining|..] == " remaining (" + IntToDecimal(ma) + "mA)"
            && ma >= 10 && data.currentMilliAmps - 0.5 <= ma as real <= data.currentMilliAmps + 0.5)
      && (data.currentMilliAmps <= NoiseFloorMa ==> n.content == CalculatingText)
      && n.subText[|n.subText| - 1] == '%'
      && ParseInteger(n.subText[..|n.subText| - 1]) == Some(data.capacityPercent)
  {
    var n := DischargeNotice(data);
    var sub := IntToDecimal(data.capacityPercent);
    assert n.subText[..|n.subText| - 1] == sub;
    DecimalRoundTrip(data.capacityPercent);
    if data.currentMilliAmps > NoiseFloorMa {
      var e := data.estimatedTimeRemaining;
      var tail := " remaining (" + IntToDecimal(RoundHalfUp(data.currentMilliAmps)) + "mA)";
      assert n.content == e + tail;
      assert n.content[..|e|] == e;
      assert n.content[|e|..] == tail;
    }
  }

  // ---------------------------------------------------------------------
  // The monitoring state machine
  // ---------------------------------------------------------------------

  /** The service's state: `isMonitoring`, whether `serviceJob` is set, the
      last snapshot and what is shown. */
  datatype Monitor = Monitor(isMonitoring: bool, hasJob: bool, lastBatteryData: Option<BatteryData>, shown: Shown)

  const Created: Monitor := Monitor(false, false, None, Hidden)

  /** `startMonitoring`: nothing when already monitoring; otherwise the flag
      is set, the foreground notification says "Initializing..." and the
      polling job is launched. */
  function Start(m: Monitor): Monitor {
    if m.isMonitoring then m
    else m.(isMonitoring := true, hasJob := true, shown := Initializing)
  }

  /** `stopMonitoring`: nothing when not monitoring; otherwise the flag is
      cleared, the job cancelled and dropped, and `stopForeground(true)`
      removes the notification. */
  function Stop(m: Monitor): Monitor {
    if !m.isMonitoring then m
    else m.(isMonitoring := false, hasJob := false, shown := Hidden)
  }

  /** `updateBatteryData` with the snapshot the manager returned. */
  function UpdateData(m: Monitor, data: BatteryData): Monitor {
    m.(lastBatteryData := Some(data), shown := if !data.isCharging then Discharge(DischargeNotice(data)) else Hidden)
  }

  /** `updateNotification`: re-shows the last snapshot when there is one and
      it is not charging. */
  function Refresh(m: Monitor): Monitor {
    match m.lastBatteryData
    case Some(data) => if !data.isCharging then m.(shown := Discharge(DischargeNotice(data))) else m
    case None => m
  }

  /** `onStartCommand`'s dispatch on the intent's action (None for a null
      intent or action). */
  function Dispatch(m: Monitor, action: Option<string>): Monitor {
    if action == Some(ActionStartMonitoring) then Start(m)
    else if action == Some(ActionStopMonitoring) then Stop(m)
    else if action == Some(ActionUpdateNotification) then Refresh(m)
    else Start(m)
  }

  /** Starting twice is starting once; a running service is left alone, and a
      stopped one ends up monitoring with a job. */
  lemma StartIdempotent(m: Monitor)
    ensures Start(Start(m)) == Start(m)
    ensures m.isMonitoring ==> Start(m) == m
    ensures Start(m).isMonitoring && (!m.isMonitoring ==> Start(m).hasJob && Start(m).shown == Initializing)
    ensures Start(m).lastBatteryData == m.lastBatteryData
  {
  }

  /** Stopping twice is stopping once; a stopped service is left alone, and a
      running one ends up stopped, without a job and with nothing shown. */
  lemma StopIdempotent(m: Monitor)
    ensures Stop(Stop(m)) == Stop(m)
    ensures !m.isMonitoring ==> Stop(m) == m
    ensures !Stop(m).isMonitoring && (m.isMonitoring ==> !Stop(m).hasJob && Stop(m).shown == Hidden)
    ensures Stop(m).lastBatteryData == m.lastBatteryData
  {
  }

  /** A stopped service restarts: `stop` then `start` leaves it monitoring. */
  lemma StopThenStart(m: Monitor)
    ensures Start(Stop(m)).isMonitoring && Start(Stop(m)).hasJob && Start(Stop(m)).shown == Initializing
  {
  }

  /** Any action other than the three known ones, and a missing action, start. */
  lemma DispatchDefaultsToStart(m: Monitor, action: Option<string>)
    requires action != Some(ActionStopMonitoring) && action != Some(ActionUpdateNotification)
    ensures Dispatch(m, action) == Start(m)
    ensures Dispatch(m, None) == Dispatch(m, Some(ActionStartMonitoring))
  {
  }

  /** Each update keeps the snapshot and shows the notification iff the
      battery is not charging; nothing else changes. */
  lemma UpdateShowsIffDischarging(m: Monitor, data: BatteryData)
    ensures UpdateData(m, data).lastBatteryData == Some(data)
    ensures UpdateData(m, data).shown.Discharge? <==> !data.isCharging
    ensures UpdateData(m, data).shown.Hidden? <==> data.isCharging
    ensures UpdateData(m, data).isMonitoring == m.isMonitoring && UpdateData(m, data).hasJob == m.hasJob
  {
  }

  /** `updateNotification` changes what is shown only when there is a last
      snapshot that is not charging, and right after an update it changes
      nothing. */
  lemma RefreshActsOnlyWhenDischarging(m: Monitor, data: BatteryData)
    ensures Refresh(m) != m ==> m.lastBatteryData.Some? && !m.lastBatteryData.value.isCharging
    ensures Refresh(m).isMonitoring == m.isMonitoring && Refresh(m).lastBatteryData == m.lastBatteryData
    ensures Refresh(UpdateData(m, data)) == UpdateData(m, data)
    ensures Refresh(Refresh(m)) == Refresh(m)
  {
  }

  class BatteryMonitorService {
    var isMonitoring: bool
    var hasJob: bool
    var lastBatteryData: Option<BatteryData>
    var shown: Shown

    function State(): Monitor
      reads this
    {
      Monitor(isMonitoring, hasJob, lastBatteryData, shown)
    }

    constructor ()
      ensures State() == Created
    {
      isMonitoring, hasJob, lastBatteryData, shown := false, false, None, Hidden;
    }

    /** `startMonitoring`. */
    method StartMonitoring()
      modifies this
      ensures State() == Start(old(State()))
    {
      if isMonitoring {
        return;
      }
      isMonitoring := true;
      shown := Initializing;
      hasJob := true;
    }

    /** `stopMonitoring`. */
    method StopMonitoring()
      modifies this
      ensures State() == Stop(old(State()))
    {
      if !isMonitoring {
        return;
      }
      isMonitoring := false;
      hasJob := false;
      shown := Hidden;
    }

    /** `updateBatteryData`, given the snapshot `getCurrentBatteryData` returned. */
    method UpdateBatteryData(data: BatteryData)
      modifies this
      ensures State() == UpdateData(old(State()), data)
    {
      lastBatteryData := Some(data);
      if !data.isCharging {
        shown := Discharge(DischargeNotice(data));
      } else {
        shown := Hidden;
      }
    }

    /** `updateNotification`. */
    method UpdateNotification()
      modifies this
      ensures State() == Refresh(old(State()))
    {
      if lastBatteryData.Some? {
        var data := lastBatteryData.value;
        if !data.isCharging {
          shown := Discharge(DischargeNotice(data));
        }
      }
    }

    /** `onStartCommand`. */
    method OnStartCommand(action: Option<string>)
      modifies this
      ensures State() == Dispatch(old(State()), action)
    {
      if action == Some(ActionStartMonitoring) {
        StartMonitoring();
      } else if action == Some(ActionStopMonitoring) {
        StopMonitoring();
      } else if action == Some(ActionUpdateNotification) {
        UpdateNotification();
      } else {
        StartMonitoring();
      }
    }
  }
}
