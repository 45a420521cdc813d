/** BatteryHardwareManager (calculator/BatteryManager.kt): discovers the
    sysfs nodes of the fuel gauge, reads the instantaneous current through a
    three-tier fallback chain and the design capacity with unit
    normalisation, and assembles a BatteryData snapshot with the discharge
    estimate and the power draw. */
module HardwareManager {
  import opened Common
  import opened Text
  import opened Device

  /** Candidate fuel-gauge directories, most specific driver first. */
  const BatteryPaths: seq<Path> := [
    "/sys/class/power_supply/battery",
    "/sys/class/power_supply/sec-fuelgauge",
    "/sys/class/power_supply/max77705-fuelgauge",
    "/sys/class/power_supply/s2mu004-fuelgauge"
  ]

  /** Candidate names of the instantaneous-current node under a directory. */
  const CurrentFiles: seq<string> := ["current_now", "current_avg", "present_current", "batt_current"]

  /** Candidate names of the design-capacity node under a directory. */
  const CapacityFiles: seq<string> := ["charge_full_design", "charge_full", "energy_full_design", "batt_capacity"]

  /** Rated capacity of the Galaxy S10+ battery, the fallback design capacity. */
  const DesignCapacityMah: int := 4100

  /** `BatteryManager.BATTERY_STATUS_CHARGING`. */
  const StatusCharging: int := 2

  /** The current below which, in mA, no estimate is shown. */
  const NoiseFloorMa: real := 10.0

  /** `"$basePath/$file"`. */
  function Join(base: Path, file: string): Path {
    base + "/" + file
  }

  /** The candidate files under one directory, in the order they are tried. */
  function Under(base: Path, files: seq<string>): (ps: seq<Path>)
    ensures |ps| == |files|
    ensures forall i :: 0 <= i < |files| ==> ps[i] == Join(base, files[i])
  {
    seq(|files|, i requires 0 <= i < |files| => Join(base, files[i]))
  }

  // ---------------------------------------------------------------------
  // Path discovery (findOptimalPaths)
  // ---------------------------------------------------------------------

  /** Probing one candidate: the path itself when it exists. */
  function ExistsProbe(d: Device): Path -> Option<Path> {
    p => if Exists(d, p) then Some(p) else None
  }

  /** The first candidate that exists, in order. */
  function FirstExisting(d: Device, candidates: seq<Path>): Option<Path> {
    FirstSome(ExistsProbe(d), candidates)
  }

  /** The three cached paths of the manager. */
  datatype Paths = Paths(base: Option<Path>, current: Option<Path>, capacity: Option<Path>)

  const NoPaths: Paths := Paths(None, None, None)

  /** One run of discovery from the cached paths `prior`: a field is only
      assigned when a candidate is found, and the leaf searches run under
      whatever base path is cached once the base search is over. */
  function Discover(d: Device, prior: Paths): Paths {
    var base := FirstExisting(d, BatteryPaths).OrElse(prior.base);
    match base
    case None => prior
    case Some(b) =>
      Paths(base,
            FirstExisting(d, Under(b, CurrentFiles)).OrElse(prior.current),
            FirstExisting(d, Under(b, CapacityFiles)).OrElse(prior.capacity))
  }

  /** What discovery from nothing cached finds: the first existing base
      directory in order; under it, independently, the first existing current
      file and the first existing capacity file; nothing at all without a base. */
  lemma DiscoveryFindsFirst(d: Device)
    ensures var r := Discover(d, NoPaths);
      && r.base == FirstExisting(d, BatteryPaths)
      && (r.base.Some? ==> exists i :: 0 <= i < |BatteryPaths| && r.base.value == BatteryPaths[i]
                              && Exists(d, BatteryPaths[i])
                              && forall j :: 0 <= j < i ==> !Exists(d, BatteryPaths[j]))
      && (r.base.None? ==> r.current.None? && r.capacity.None?
                           && forall i :: 0 <= i < |BatteryPaths| ==> !Exists(d, BatteryPaths[i]))
      && (r.current.Some? ==> r.base.Some? && FirstLeaf(d, r.base.value, CurrentFiles, r.current.value))
      && (r.capacity.Some? ==> r.base.Some? && FirstLeaf(d, r.base.value, CapacityFiles, r.capacity.value))
      && (r.base.Some? && r.current.None? ==> forall k :: 0 <= k < |CurrentFiles| ==> !Exists(d, Join(r.base.value, CurrentFiles[k])))
      && (r.base.Some? && r.capacity.None? ==> forall k :: 0 <= k < |CapacityFiles| ==> !Exists(d, Join(r.base.value, CapacityFiles[k])))
  {
    var r := Discover(d, NoPaths);
    FirstExistingSpec(d, BatteryPaths);
    if r.base.Some? {
      LeafFound(d, r.base.value, CurrentFiles);
      LeafFound(d, r.base.value, CapacityFiles);
    }
  }

  /** The first existing candidate, characterised. */
  lemma FirstExistingSpec(d: Device, ps: seq<Path>)
    ensures var r := FirstExisting(d, ps);
      && (r.Some? ==> exists i :: 0 <= i < |ps| && r.value == ps[i] && Exists(d, ps[i])
                                 && forall j :: 0 <= j < i ==> !Exists(d, ps[j]))
      && (r.None? ==> forall i :: 0 <= i < |ps| ==> !Exists(d, ps[i]))
  {
    var f := ExistsProbe(d);
    FirstSomeNone(f, ps);
    if FirstSome(f, ps).Some? {
      var i := FirstSomeWitness(f, ps);
      assert forall j :: 0 <= j < i ==> f(ps[j]).None?;
    } else {
      assert forall i :: 0 <= i < |ps| ==> f(ps[i]).None?;
    }
  }

  /** `p` is `base/files[k]` for the first `k` whose path exists. */
  ghost predicate FirstLeaf(d: Device, base: Path, files: seq<string>, p: Path) {
    exists k :: 0 <= k < |files| && p == Join(base, files[k]) && Exists(d, p)
      && forall j :: 0 <= j < k ==> !Exists(d, Join(base, files[j]))
  }

  lemma LeafFound(d: Device, base: Path, files: seq<string>)
    ensures var r := FirstExisting(d, Under(base, files));
      && (r.Some? ==> FirstLeaf(d, base, files, r.value))
      && (r.None? ==> forall k :: 0 <= k < |files| ==> !Exists(d, Join(base, files[k])))
  {
    var ps := Under(base, files);
    FirstExistingSpec(d, ps);
    var r := FirstExisting(d, ps);
    if r.Some? {
      var k :| 0 <= k < |ps| && r.value == ps[k] && Exists(d, ps[k])
                && forall j :: 0 <= j < k ==> !Exists(d, ps[j]);
      assert r.value == Join(base, files[k]);
    }
  }

  /** From any cache, discovery forgets no path it had, and a field it
      changes now holds an existing path: a base from the base list, or the
      first existing leaf under the new base. */
  lemma DiscoveryKeepsCache(d: Device, prior: Paths)
    ensures var r := Discover(d, prior);
      && (prior.base.Some? ==> r.base.Some?)
      && (prior.current.Some? ==> r.current.Some?)
      && (prior.capacity.Some? ==> r.capacity.Some?)
      && (r.base != prior.base ==> r.base.Some? && r.base.value in BatteryPaths && Exists(d, r.base.value))
      && (r.current != prior.current ==> r.base.Some? && FirstLeaf(d, r.base.value, CurrentFiles, r.current.value))
      && (r.capacity != prior.capacity ==> r.base.Some? && FirstLeaf(d, r.base.value, CapacityFiles, r.capacity.value))
  {
    var r := Discover(d, prior);
    FirstExistingSpec(d, BatteryPaths);
    if r.base.Some? {
      LeafFound(d, r.base.value, CurrentFiles);
      LeafFound(d, r.base.value, CapacityFiles);
    }
  }

  /** Running discovery again on the same file tree changes nothing. */
  lemma DiscoveryIdempotent(d: Device, prior: Paths)
    ensures Discover(d, Discover(d, prior)) == Discover(d, prior)
  {
  }

  // ---------------------------------------------------------------------
  // Current reading (getHardwareCurrentReading)
  // ---------------------------------------------------------------------

  /** Reading a node as an integer: the trimmed text parsed, 0 when it does
      not parse (`toIntOrNull() ?: 0`). */
  function IntOrZero(text: string): (r: int)
    ensures MinInt32 <= r <= MaxInt32
    ensures ParseInt32(Trim(text)).None? ==> r == 0
    ensures r != 0 ==> ParseInt32(Trim(text)) == Some(r)
    ensures ParseInt32(Trim(text)).Some? ==> r == ParseInt32(Trim(text)).value
  {
    ParseInt32(Trim(text)).GetOr(0)
  }

  /** Tier 1: the discovered current node, through `su` when root is
      available and directly otherwise. None when there is no discovered node
      or the read yields nothing (empty `su` output, an exception). */
  function DiscoveredReading(d: Device, root: bool, path: Option<Path>): (r: Option<int>)
    ensures r.Some? ==> path.Some?
    ensures r.Some? && root ==> PrivilegedFirstLine(d, path.value).Some?
    ensures r.Some? && !root ==> ReadText(d, path.value).Some?
    ensures r.Some? ==> MinInt32 <= r.value <= MaxInt32
    ensures path.Some? && root && PrivilegedFirstLine(d, path.value).Some? ==>
              r == Some(IntOrZero(PrivilegedFirstLine(d, path.value).value))
    ensures path.Some? && !root && ReadText(d, path.value).Some? ==>
              r == Some(IntOrZero(ReadText(d, path.value).value))
  {
    match path
    case None => None
    case Some(p) =>
      if root then
        match PrivilegedFirstLine(d, p)
        case Some(line) => Some(IntOrZero(line))
        case None => None
      else
        match ReadText(d, p)
        case Some(text) => Some(IntOrZero(text))
        case None => None
  }

  /** Tier 3 on one candidate: the first line of `su cat`, kept only when it
      parses to a non-zero value. */
  function SweepAt(d: Device, p: Path): (r: Option<int>)
    ensures r.Some? <==> ParsedText(PrivilegedFirstLine(d, p)).Some? && ParsedText(PrivilegedFirstLine(d, p)).value != 0
    ensures r.Some? ==> r == ParsedText(PrivilegedFirstLine(d, p)) && r.value != 0
  {
    match PrivilegedFirstLine(d, p)
    case Some(line) =>
      var v := ParseInt32(Trim(line));
      if v.Some? && v.value != 0 then v else None
    case None => None
  }

  function SweepProbe(d: Device): Path -> Option<int> {
    p => SweepAt(d, p)
  }

  /** Tier 3 under one base directory: its candidate files in order. */
  function SweepBase(d: Device, base: Path, files: seq<string>): Option<int> {
    FirstSome(SweepProbe(d), Under(base, files))
  }

  /** Tier 3 over `bases` × `files`, base-major: the first base whose sweep
      hits decides. */
  function SweepOver(d: Device, bases: seq<Path>, files: seq<string>): Option<int>
    decreases |bases|
  {
    if bases == [] then None
    else
      var hit := SweepBase(d, bases[0], files);
      if hit.Some? then hit else SweepOver(d, bases[1..], files)
  }

  /** Tier 3: every base directory × every current file. Its value, when
      there is one, is a non-zero reading of one of those nodes. */
  function Sweep(d: Device): (r: Option<int>)
    ensures r.Some? ==> r.value != 0
    ensures r.Some? ==> exists i, k :: 0 <= i < |BatteryPaths| && 0 <= k < |CurrentFiles|
                                    && SweepAt(d, Join(BatteryPaths[i], CurrentFiles[k])) == r
  {
    var hit := SweepOver(d, BatteryPaths, CurrentFiles);
    if hit.Some? then
      SweepIsFirstInBaseMajorOrder(d, BatteryPaths, CurrentFiles);
      hit
    else hit
  }

  /** The whole chain. `platform` is `getIntProperty(BATTERY_PROPERTY_CURRENT_NOW)`,
      None when that call throws. */
  function HardwareCurrent(d: Device, root: bool, path: Option<Path>, platform: Option<int>): (r: int)
    ensures DiscoveredReading(d, root, path).Some? ==> r == DiscoveredReading(d, root, path).value
    ensures DiscoveredReading(d, root, path).None? && platform.Some? ==> r == platform.value
    ensures DiscoveredReading(d, root, path).None? && platform.None? && r != 0 ==> root && Sweep(d) == Some(r)
    ensures root && DiscoveredReading(d, root, path).None? && platform.None? && Sweep(d).Some? ==> r == Sweep(d).value
    ensures !root && DiscoveredReading(d, root, path).None? && platform.None? ==> r == 0
  {
    match DiscoveredReading(d, root, path)
    case Some(v) => v
    case None =>
      match platform
      case Some(v) => v
      case None => if root then Sweep(d).GetOr(0) else 0
  }

  /** When the discovered node yields a value, that value is the reading, and
      neither the platform property nor any other node is consulted: devices
      that agree on that one node give the same reading. */
  lemma DiscoveredReadingDecides(d: Device, d': Device, root: bool, p: Path, platform: Option<int>, platform': Option<int>)
    requires DiscoveredReading(d, root, Some(p)).Some?
    requires (p in d.files) == (p in d'.files) && (p in d.files ==> d.files[p] == d'.files[p])
    requires (p in d.privileged) == (p in d'.privileged) && (p in d.privileged ==> d.privileged[p] == d'.privileged[p])
    ensures HardwareCurrent(d, root, Some(p), platform) == DiscoveredReading(d, root, Some(p)).value
    ensures HardwareCurrent(d', root, Some(p), platform') == HardwareCurrent(d, root, Some(p), platform)
  {
  }

  /** No file under `base` yields a usable reading. */
  ghost predicate BaseFails(d: Device, base: Path, files: seq<string>) {
    forall k :: 0 <= k < |files| ==> SweepAt(d, Join(base, files[k])).None?
  }

  /** Every pair before (i, k) in base-major order yields nothing usable:
      every file of every earlier base, and the earlier files of base i. */
  ghost predicate EarlierPairsFail(d: Device, bases: seq<Path>, files: seq<string>, i: int, k: int)
    requires 0 <= i < |bases| && 0 <= k <= |files|
  {
    && (forall a :: 0 <= a < i ==> BaseFails(d, bases[a], files))
    && (forall b :: 0 <= b < k ==> SweepAt(d, Join(bases[i], files[b])).None?)
  }

  /** Nothing under `base` before file `k` yields a usable reading. */
  lemma BaseSweepPrefix(d: Device, base: Path, files: seq<string>, k: int)
    requires 0 <= k <= |files|
    requires NoneBefore(SweepProbe(d), Under(base, files), k)
    ensures forall k' :: 0 <= k' < k ==> SweepAt(d, Join(base, files[k'])).None?
  {
    var ps := Under(base, files);
    forall k' | 0 <= k' < k ensures SweepAt(d, Join(base, files[k'])).None? {
      assert SweepProbe(d)(ps[k']).None?;
    }
  }

  /** A base whose sweep finds nothing has no usable file. */
  lemma BaseSweepMiss(d: Device, base: Path, files: seq<string>)
    requires SweepBase(d, base, files).None?
    ensures BaseFails(d, base, files)
  {
    FirstSomeNone(SweepProbe(d), Under(base, files));
    BaseSweepPrefix(d, base, files, |files|);
  }

  /** The pair (i, k) at which the sweep hits: its value is the sweep's
      result, and every pair before it in base-major order yields nothing. */
  lemma {:induction false} SweepHit(d: Device, bases: seq<Path>, files: seq<string>) returns (i: nat, k: nat)
    requires SweepOver(d, bases, files).Some?
    ensures i < |bases| && k < |files|
    ensures SweepAt(d, Join(bases[i], files[k])) == SweepOver(d, bases, files)
    ensures EarlierPairsFail(d, bases, files, i, k)
    decreases |bases|
  {
    var hit := SweepBase(d, bases[0], files);
    if hit.Some? {
      i := 0;
      k := FirstSomeWitness(SweepProbe(d), Under(bases[0], files));
      BaseSweepPrefix(d, bases[0], files, k);
    } else {
      var i', k' := SweepHit(d, bases[1..], files);
      i, k := i' + 1, k';
      assert bases[i] == bases[1..][i'];
      BaseSweepMiss(d, bases[0], files);
      forall a | 0 < a < i ensures BaseFails(d, bases[a], files) {
        assert bases[a] == bases[1..][a - 1];
      }
    }
  }

  /** The sweep returns the first non-zero reading in base-major order: every
      (base, file) pair before the one it returns yields nothing usable. */
  lemma SweepIsFirstInBaseMajorOrder(d: Device, bases: seq<Path>, files: seq<string>)
    requires SweepOver(d, bases, files).Some?
    ensures SweepOver(d, bases, files).value != 0
    ensures exists i, k :: (0 <= i < |bases| && 0 <= k < |files|
                            && SweepAt(d, Join(bases[i], files[k])) == SweepOver(d, bases, files)
                            && EarlierPairsFail(d, bases, files, i, k))
  {
    var i, k := SweepHit(d, bases, files);
  }

  /** The sweep finds nothing exactly when no pair yields a usable reading. */
  lemma {:induction false} SweepMissIffNoPair(d: Device, bases: seq<Path>, files: seq<string>)
    ensures SweepOver(d, bases, files).None? <==> forall i :: 0 <= i < |bases| ==> BaseFails(d, bases[i], files)
    decreases |bases|
  {
    if SweepOver(d, bases, files).Some? {
      var i, k := SweepHit(d, bases, files);
    } else if bases != [] {
      BaseSweepMiss(d, bases[0], files);
      SweepMissIffNoPair(d, bases[1..], files);
      forall i | 0 < i < |bases| ensures BaseFails(d, bases[i], files) {
        assert bases[i] == bases[1..][i - 1];
      }
    }
  }

  /** When every tier fails the reading is 0: the discovered node yields
      nothing, the platform property throws, and (with root) no swept node
      prints a line that parses to a non-zero value. */
  lemma AllTiersFailGiveZero(d: Device, root: bool, path: Option<Path>)
    requires DiscoveredReading(d, root, path).None?
    requires root ==> forall i :: 0 <= i < |BatteryPaths| ==> BaseFails(d, BatteryPaths[i], CurrentFiles)
    ensures HardwareCurrent(d, root, path, None) == 0
  {
    if root {
      SweepMissIffNoPair(d, BatteryPaths, CurrentFiles);
    }
  }

  // ---------------------------------------------------------------------
  // Design capacity (getDesignCapacity)
  // ---------------------------------------------------------------------

  /** Accepting and normalising a capacity reading: values above 1000 are
      accepted, values above 100000 are taken as µAh and divided by 1000, and
      anything else falls back to the rated 4100 mAh. */
  function NormalizeCapacity(v: Option<int>): (r: int)
    ensures r >= 100
    ensures v.Some? && 1000 < v.value <= 100000 ==> r == v.value
    ensures v.Some? && 100000 < v.value ==> r * 1000 <= v.value < (r + 1) * 1000
    ensures (v.None? || v.value <= 1000) ==> r == DesignCapacityMah
  {
    match v
    case Some(x) => if x > 1000 then (if x > 100000 then x / 1000 else x) else DesignCapacityMah
    case None => DesignCapacityMah
  }

  /** The trimmed text parsed as an `Int`; None when nothing was read. */
  function ParsedText(text: Option<string>): (v: Option<int>)
    ensures v.Some? <==> text.Some? && ParseInt32(Trim(text.value)).Some?
    ensures v.Some? ==> v == ParseInt32(Trim(text.value))
  {
    match text
    case Some(t) => ParseInt32(Trim(t))
    case None => None
  }

  /** The design capacity read from the discovered capacity node, through
      `su` when root is available and directly otherwise. */
  function DesignCapacity(d: Device, root: bool, path: Option<Path>): (r: int)
    ensures r >= 100
    ensures path.None? ==> r == DesignCapacityMah
    ensures path.Some? && root ==> r == NormalizeCapacity(ParsedText(PrivilegedFirstLine(d, path.value)))
    ensures path.Some? && !root ==> r == NormalizeCapacity(ParsedText(ReadText(d, path.value)))
  {
    match path
    case None => DesignCapacityMah
    case Some(p) =>
      var text := if root then PrivilegedFirstLine(d, p) else ReadText(d, p);
      NormalizeCapacity(ParsedText(text))
  }

  lemma CapacityExamples()
    ensures NormalizeCapacity(Some(4100000)) == 4100
    ensures NormalizeCapacity(Some(4100)) == 4100
    ensures NormalizeCapacity(Some(500)) == 4100
    ensures NormalizeCapacity(None) == 4100
  {
  }

  // ---------------------------------------------------------------------
  // Discharge estimate (calculateTimeRemaining)
  // ---------------------------------------------------------------------

  /** `calculateTimeRemaining`: "N/A" without a positive draw; otherwise the
      truncated hours and minutes of remaining/draw as "Hh Mm", "Mm" or "< 1m". */
  function TimeRemaining(remainingMah: real, drawMa: real): (r: string)
    ensures r == "N/A" <==> drawMa <= 0.0
    ensures r != [] && r != "Error"
  {
    if drawMa <= 0.0 then "N/A"
    else
      var hm := HoursMinutes(remainingMah / drawMa);
      var text := if hm.0 > 0 then IntToDecimal(hm.0) + "h " + IntToDecimal(hm.1) + "m"
                  else if hm.1 > 0 then IntToDecimal(hm.1) + "m"
                  else "< 1m";
      assert text[|text| - 1] == 'm';
      text
  }

  /** Which of the three forms the estimate takes, by the time it stands for:
      at least an hour, at least a minute, or less. */
  lemma TimeRemainingForms(remainingMah: real, drawMa: real)
    requires drawMa > 0.0 && remainingMah >= 0.0
    ensures var t := remainingMah / drawMa; var hm := HoursMinutes(t);
      && (t >= 1.0 ==> TimeRemaining(remainingMah, drawMa) == IntToDecimal(hm.0) + "h " + IntToDecimal(hm.1) + "m" && hm.0 >= 1 && 0 <= hm.1 < 60)
      && (1.0 / 60.0 <= t < 1.0 ==> TimeRemaining(remainingMah, drawMa) == IntToDecimal(hm.1) + "m" && 1 <= hm.1 < 60)
      && (t < 1.0 / 60.0 ==> TimeRemaining(remainingMah, drawMa) == "< 1m")
  {
    var t := remainingMah / drawMa;
    var hm := HoursMinutes(t);
    assert t >= 0.0;
    if t < 1.0 {
      assert hm.0 == 0;
      assert hm.1 == Trunc(t * 60.0);
      if t < 1.0 / 60.0 {
        assert t * 60.0 < 1.0;
      } else {
        assert t * 60.0 >= 1.0;
      }
    }
  }

  lemma TimeRemainingExamples()
    ensures TimeRemaining(2050.0, 1025.0) == "2h 0m"
    ensures TimeRemaining(100.0, 200.0) == "30m"
    ensures TimeRemaining(1.0, 100.0) == "< 1m"
    ensures TimeRemaining(1000.0, 0.0) == "N/A"
  {
    assert HoursMinutes(2050.0 / 1025.0) == (2, 0);
    assert HoursMinutes(100.0 / 200.0) == (0, 30);
    assert HoursMinutes(1.0 / 100.0) == (0, 0);
  }

  // ---------------------------------------------------------------------
  // Snapshot (getCurrentBatteryData)
  // ---------------------------------------------------------------------

  /** One reading of the battery, as BatteryData. */
  datatype BatteryData = BatteryData(
    currentMicroAmps: int,
    currentMilliAmps: real,
    capacityPercent: int,
    remainingCapacityMah: real,
    designCapacityMah: int,
    isCharging: bool,
    voltage: int,
    temperature: int,
    estimatedTimeRemaining: string,
    powerDrawWatts: real,
    lastUpdated: int)

  /** The extras of the sticky ACTION_BATTERY_CHANGED intent (-1 for a
      missing extra). */
  datatype StatusIntent = StatusIntent(level: int, scale: int, status: int, voltage: int, temperature: int)

  /** What the platform answers when the snapshot asks for the battery
      status: the sticky intent (None when there is none), or a failure of
      `getSystemService`/`registerReceiver`, the exception the snapshot catches. */
  datatype PlatformStatus = ServiceFailure | Sticky(intent: Option<StatusIntent>)

  /** The extras read when there is no sticky intent: `?: -1` for each. */
  const MissingExtras: StatusIntent := StatusIntent(-1, -1, -1, -1, -1)

  /** `level * 100 / scale` when both are meaningful, else 0. */
  function Percent(level: int, scale: int): (p: int)
    ensures 0 <= p
    ensures !(level >= 0 && scale > 0) ==> p == 0
    ensures 0 <= level <= scale ==> p <= 100
    ensures 0 <= level && 0 < scale ==> p * scale <= level * 100 < (p + 1) * scale
  {
    if level >= 0 && scale > 0 then level * 100 / scale else 0
  }

  /** The level is not clamped: a level above the scale gives more than 100,
      and a missing extra (-1) or a zero scale gives 0. */
  lemma PercentExamples()
    ensures Percent(50, 100) == 50 && Percent(3, 7) == 42
    ensures Percent(150, 100) == 150
    ensures Percent(-1, 100) == 0 && Percent(5, 0) == 0 && Percent(5, -1) == 0
  {
  }

  /** The snapshot returned when the status query throws. */
  function Degraded(now: int): BatteryData {
    BatteryData(0, 0.0, 0, 0.0, DesignCapacityMah, false, 0, 0, "Error", 0.0, now)
  }

  /** The magnitude of a µA reading in mA: the sign convention of the
      driver (negative while discharging on most devices) is dropped. */
  function MilliAmps(micro: int): (ma: real)
    ensures ma >= 0.0 && ma * 1000.0 == Abs(micro) as real
  {
    Abs(micro) as real / 1000.0
  }

  /** The charge left, in mAh, at `percent` of the design capacity. */
  function RemainingMah(design: int, percent: int): (r: real)
    ensures r * 100.0 == (design * percent) as real
    ensures 0 <= design && 0 <= percent <= 100 ==> 0.0 <= r <= design as real
  {
    RemainingBound(design, percent);
    (design * percent) as real / 100.0
  }

  lemma RemainingBound(design: int, percent: int)
    ensures 0 <= design && 0 <= percent <= 100 ==> 0 <= design * percent <= design * 100
  {
    if 0 <= design && 0 <= percent <= 100 {
      assert design * percent <= design * 100 by {
        assert design * (100 - percent) >= 0;
      }
    }
  }

  /** The power draw in W from a current in mA and a voltage in mV. */
  function PowerWatts(ma: real, millivolts: int): (w: real)
    ensures w * 1000000.0 == ma * millivolts as real
  {
    (ma * millivolts as real / 1000.0) / 1000.0
  }

  /** The snapshot for a status answer, a current reading `micro` in µA and a
      design capacity in mAh, taken at time `now`. */
  function Snapshot(status: PlatformStatus, micro: int, design: int, now: int): (s: BatteryData)
    ensures s.currentMilliAmps >= 0.0
    ensures s.capacityPercent >= 0
    ensures s.lastUpdated == now
    ensures 0 <= design && s.capacityPercent <= 100 ==> s.remainingCapacityMah <= s.designCapacityMah as real
    ensures status.Sticky? && (s.isCharging || s.currentMilliAmps <= NoiseFloorMa) ==> s.estimatedTimeRemaining == "N/A"
    ensures status.Sticky? && !s.isCharging && s.currentMilliAmps > NoiseFloorMa ==>
              s.estimatedTimeRemaining == TimeRemaining(s.remainingCapacityMah, s.currentMilliAmps) != "N/A"
    ensures s.estimatedTimeRemaining == "Error" <==> status.ServiceFailure?
    ensures status.ServiceFailure? ==> s == Degraded(now)
    ensures status.Sticky? ==>
              var i := status.intent.GetOr(MissingExtras);
              && s.capacityPercent == Percent(i.level, i.scale)
              && s.isCharging == (i.status == StatusCharging)
              && s.remainingCapacityMah == RemainingMah(design, s.capacityPercent)
              && s.voltage == i.voltage && s.temperature == i.temperature
    ensures status.Sticky? ==> s.currentMicroAmps == micro && s.designCapacityMah == design
                               && s.currentMilliAmps * 1000.0 == Abs(micro) as real
                               && s.powerDrawWatts * 1000000.0 == s.currentMilliAmps * s.voltage as real
  {
    match status
    case ServiceFailure => Degraded(now)
    case Sticky(intent) =>
      var i := intent.GetOr(MissingExtras);
      var percent := Percent(i.level, i.scale);
      var charging := i.status == StatusCharging;
      var ma := MilliAmps(micro);
      var remaining := RemainingMah(design, percent);
      var time := if !charging && ma > NoiseFloorMa then TimeRemaining(remaining, ma) else "N/A";
      BatteryData(micro, ma, percent, remaining, design, charging, i.voltage, i.temperature, time,
                  PowerWatts(ma, i.voltage), now)
  }

  // ---------------------------------------------------------------------
  // The manager
  // ---------------------------------------------------------------------

  class BatteryHardwareManager {
    var isRootAvailable: bool
    var optimalBatteryPath: Option<Path>
    var optimalCurrentPath: Option<Path>
    var optimalCapacityPath: Option<Path>

    function CachedPaths(): Paths
      reads this
    {
      Paths(optimalBatteryPath, optimalCurrentPath, optimalCapacityPath)
    }

    /** `init`: the root check (`suAvailable` is what `Shell.SU.available()`
        answers, false when it throws) and then the path discovery, here
        completed before the first read. */
    constructor (suAvailable: bool, d: Device)
      ensures isRootAvailable == suAvailable
      ensures CachedPaths() == Discover(d, NoPaths)
    {
      isRootAvailable := suAvailable;
      optimalBatteryPath, optimalCurrentPath, optimalCapacityPath := None, None, None;
      new;
      FindOptimalPaths(d);
    }

    /** `findOptimalPaths`. */
    method FindOptimalPaths(d: Device)
      modifies this
      ensures isRootAvailable == old(isRootAvailable)
      ensures CachedPaths() == Discover(d, old(CachedPaths()))
    {
      var base := FindFirstExisting(d, BatteryPaths);
      if base.Some? {
        optimalBatteryPath := base;
      }
      if optimalBatteryPath.Some? {
        var b := optimalBatteryPath.value;
        var current := FindFirstExisting(d, Under(b, CurrentFiles));
        if current.Some? {
          optimalCurrentPath := current;
        }
        var capacity := FindFirstExisting(d, Under(b, CapacityFiles));
        if capacity.Some? {
          optimalCapacityPath := capacity;
        }
      }
    }

    /** `getHardwareCurrentReading`. `platform` is what
        `getIntProperty(BATTERY_PROPERTY_CURRENT_NOW)` returns, None when it
        throws. */
    method GetHardwareCurrentReading(d: Device, platform: Option<int>) returns (r: int)
      ensures r == HardwareCurrent(d, isRootAvailable, optimalCurrentPath, platform)
    {
      // Tier 1: the discovered node.
      if optimalCurrentPath.Some? {
        var path := optimalCurrentPath.value;
        if isRootAvailable {
          var result := PrivilegedFirstLine(d, path);
          if result.Some? {
            return IntOrZero(result.value);
          }
        } else {
          var text := ReadText(d, path);
          if text.Some? {
            return IntOrZero(text.value);
          }
        }
      }
      // Tier 2: the platform property.
      if platform.Some? {
        return platform.value;
      }
      // Tier 3: the root sweep over every base and every current file.
      if isRootAvailable {
        var hit := SweepNodes(d, BatteryPaths, CurrentFiles);
        if hit.Some? {
          return hit.value;
        }
      }
      return 0;
    }

    /** `getCurrentBatteryData`: never throws; a failing status query gives
        the degraded snapshot. */
    method GetCurrentBatteryData(d: Device, status: PlatformStatus, platform: Option<int>, now: int)
      returns (data: BatteryData)
      ensures status.Sticky? ==> data == Snapshot(status, HardwareCurrent(d, isRootAvailable, optimalCurrentPath, platform),
                                                   DesignCapacity(d, isRootAvailable, optimalCapacityPath), now)
      ensures status.ServiceFailure? ==> data == Degraded(now)
    {
      if status.ServiceFailure? {
        return Degraded(now);
      }
      var micro := GetHardwareCurrentReading(d, platform);
      var design := DesignCapacity(d, isRootAvailable, optimalCapacityPath);
      data := Snapshot(status, micro, design, now);
    }
  }

  /** One of the `for (...) { if (File(p).exists()) { ...; break } }` loops:
      the first candidate that exists. */
  method FindFirstExisting(d: Device, candidates: seq<Path>) returns (r: Option<Path>)
    ensures r == FirstExisting(d, candidates)
  {
    var f := ExistsProbe(d);
    var i := 0;
    while i < |candidates|
      invariant 0 <= i <= |candidates|
      invariant FirstSome(f, candidates[..i]).None?
    {
      if Exists(d, candidates[i]) {
        FirstSomeHit(f, candidates, i);
        return Some(candidates[i]);
      }
      FirstSomeStep(f, candidates, i);
      i := i + 1;
    }
    assert candidates[..i] == candidates;
    return None;
  }

  /** The nested `for (basePath ...) for (currentFile ...)` loop of the root
      sweep, returning the first non-zero value read. */
  method SweepNodes(d: Device, bases: seq<Path>, files: seq<string>) returns (r: Option<int>)
    ensures r == SweepOver(d, bases, files)
  {
    var f := SweepProbe(d);
    var i := 0;
    while i < |bases|
      invariant 0 <= i <= |bases|
      invariant SweepOver(d, bases[i..], files) == SweepOver(d, bases, files)
    {
      var base := bases[i];
      var ps := Under(base, files);
      var k := 0;
      while k < |files|
        invariant 0 <= k <= |files|
        invariant FirstSome(f, ps[k..]) == SweepBase(d, base, files)
      {
        var result := PrivilegedFirstLine(d, Join(base, files[k]));
        assert ps[k..][0] == ps[k] && ps[k..][1..] == ps[k + 1..];
        if result.Some? {
          var value := ParseInt32(Trim(result.value));
          if value.Some? && value.value != 0 {
            assert f(ps[k]) == value;
            return value;
          }
        }
        assert f(ps[k]).None?;
        k := k + 1;
      }
      assert bases[i..][0] == base && bases[i..][1..] == bases[i + 1..];
      i := i + 1;
    }
    return None;
  }
}
