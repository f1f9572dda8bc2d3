/**
 * The badges of a beacon card (components/beacon-list.tsx): a signal badge
 * from the smoothed RSSI and a battery badge from the reported millivolts.
 * Both are threshold tables; each is proved equal to a tier count over
 * its ascending thresholds.
 */
module BeaconList {

  /** A signal badge: label, colour and icon name. */
  datatype Signal = Signal(quality: string, color: string, icon: string)

  /** A battery badge: label, colour and icon name. */
  datatype Battery = Battery(status: string, color: string, icon: string)

  /** `getSignalQuality`: the first threshold the RSSI (dBm) reaches, from the strongest down. */
  function SignalQuality(rssi: int): (r: Signal)
    ensures r.icon == "wifi.slash" <==> rssi < -80
    ensures r.quality == "Excelente" <==> rssi >= -60
  {
    if rssi >= -60 then Signal("Excelente", "#10B981", "wifi")
    else if rssi >= -70 then Signal("Buena", "#3B82F6", "wifi")
    else if rssi >= -80 then Signal("Regular", "#F59E0B", "wifi")
    else Signal("Débil", "#EF4444", "wifi.slash")
  }

  /** `getBatteryStatus`: the first threshold the voltage (mV) reaches, from the highest down. */
  function BatteryStatus(millivolts: int): (r: Battery)
    ensures r.status == "Baja" <==> millivolts < 3400
    ensures r.status == "Alta" <==> millivolts >= 3600
  {
    if millivolts >= 3600 then Battery("Alta", "#10B981", "battery.100")
    else if millivolts >= 3400 then Battery("Media", "#F59E0B", "battery.50")
    else Battery("Baja", "#EF4444", "battery.25")
  }

  /** The signal badges, weakest first. */
  const SIGNAL_TIERS: seq<Signal> := [
    Signal("Débil", "#EF4444", "wifi.slash"),
    Signal("Regular", "#F59E0B", "wifi"),
    Signal("Buena", "#3B82F6", "wifi"),
    Signal("Excelente", "#10B981", "wifi")]

  /** The RSSI each signal badge after the first starts at, ascending. */
  const SIGNAL_FLOORS: seq<int> := [-80, -70, -60]

  /** The battery badges, lowest first. */
  const BATTERY_TIERS: seq<Battery> := [
    Battery("Baja", "#EF4444", "battery.25"),
    Battery("Media", "#F59E0B", "battery.50"),
    Battery("Alta", "#10B981", "battery.100")]

  /** The voltage each battery badge after the first starts at, ascending. */
  const BATTERY_FLOORS: seq<int> := [3400, 3600]

  /** How many of the thresholds `v` reaches. */
  function Reached(floors: seq<int>, v: int): (n: nat)
    ensures n <= |floors|
  {
    if floors == [] then 0
    else (if v >= floors[0] then 1 else 0) + Reached(floors[1..], v)
  }

  /** A larger value reaches at least as many thresholds. */
  lemma {:induction false} ReachedMonotone(floors: seq<int>, a: int, b: int)
    requires a <= b
    ensures Reached(floors, a) <= Reached(floors, b)
  {
    if floors != [] {
      ReachedMonotone(floors[1..], a, b);
    }
  }

  /** The signal badge is the tier given by the number of thresholds the RSSI reaches. */
  lemma SignalQualityTier(rssi: int)
    ensures SignalQuality(rssi) == SIGNAL_TIERS[Reached(SIGNAL_FLOORS, rssi)]
  {
    var f := SIGNAL_FLOORS;
    assert f[1..] == [-70, -60] && f[1..][1..] == [-60] && f[1..][1..][1..] == [];
    assert Reached(f[1..][1..], rssi) == if rssi >= -60 then 1 else 0;
    assert Reached(f[1..], rssi) == (if rssi >= -70 then 1 else 0) + (if rssi >= -60 then 1 else 0);
  }

  /** The battery badge is the tier given by the number of thresholds the voltage reaches. */
  lemma BatteryStatusTier(millivolts: int)
    ensures BatteryStatus(millivolts) == BATTERY_TIERS[Reached(BATTERY_FLOORS, millivolts)]
  {
    var f := BATTERY_FLOORS;
    assert f[1..] == [3600] && f[1..][1..] == [];
    assert Reached(f[1..], millivolts) == if millivolts >= 3600 then 1 else 0;
  }

  /** A stronger signal never shows a weaker badge. */
  lemma SignalMonotone(a: int, b: int)
    requires a <= b
    ensures var i, j := Reached(SIGNAL_FLOORS, a), Reached(SIGNAL_FLOORS, b);
      i <= j && SignalQuality(a) == SIGNAL_TIERS[i] && SignalQuality(b) == SIGNAL_TIERS[j]
  {
    ReachedMonotone(SIGNAL_FLOORS, a, b);
    SignalQualityTier(a);
    SignalQualityTier(b);
  }

  /** A higher voltage never shows a lower badge. */
  lemma BatteryMonotone(a: int, b: int)
    requires a <= b
    ensures var i, j := Reached(BATTERY_FLOORS, a), Reached(BATTERY_FLOORS, b);
      i <= j && BatteryStatus(a) == BATTERY_TIERS[i] && BatteryStatus(b) == BATTERY_TIERS[j]
  {
    ReachedMonotone(BATTERY_FLOORS, a, b);
    BatteryStatusTier(a);
    BatteryStatusTier(b);
  }

  /** Different badges differ in label and in colour, so the colour alone tells them apart. */
  lemma TiersDistinguishable()
    ensures forall i, j :: 0 <= i < j < |SIGNAL_TIERS| ==>
      SIGNAL_TIERS[i].quality != SIGNAL_TIERS[j].quality && SIGNAL_TIERS[i].color != SIGNAL_TIERS[j].color
    ensures forall i, j :: 0 <= i < j < |BATTERY_TIERS| ==>
      BATTERY_TIERS[i].status != BATTERY_TIERS[j].status && BATTERY_TIERS[i].color != BATTERY_TIERS[j].color
  {
  }
}
