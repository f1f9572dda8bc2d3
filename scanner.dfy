/**
 * The beacon registry of `useBleScanner` (hooks/use-ble-scanner.ts): every
 * accepted advertisement is decoded, smoothed and written into a map keyed by
 * beacon identity; a periodic tick marks quiet beacons inactive and forgets
 * silent ones; the screen shows the map's values strongest first.
 *
 * The React state and refs become the fields of one object, and the clock is
 * a parameter. Each operation updates the map, the windows and the EMAs
 * together; in the source the map is written through a queued state updater
 * while the refs are written at once, an interleaving this model leaves out.
 */
module BleScanner {
  import opened Wrappers
  import opened Text
  import opened Payload
  import opened Smoothing

  const BEACON_SERVICE_UUID: string := "0000A00A-0000-1000-8000-00805F9B34FB"

  const DEFAULT_TX_POWER_DBM := -8
  const DEFAULT_RSSI_WINDOW := 5
  const DEFAULT_EMA_ALPHA := 0.7

  /** RSSI assumed when the radio reports none. */
  const MISSING_RSSI := -100

  /** A beacon unheard for longer than this (ms) is shown as inactive. */
  const INACTIVE_AFTER_MS := 30000
  /** A beacon unheard for longer than this (ms) is forgotten. */
  const EXPIRE_AFTER_MS := 120000

  /** One tracked beacon, as the scanner writes it into its map. */
  datatype Beacon = Beacon(
    id: string,
    roomId: string,
    beaconNode: int,
    rssi: int,
    txPower: int,
    txPowerPayload: int,
    firmwareVersion: string,
    firmwareMajor: int,
    firmwareMinor: int,
    battery: int,
    lastSeen: int,
    deviceAddress: string,
    isActive: bool)

  /** One service-data entry of an advertisement: a service UUID and its payload. */
  datatype ServiceEntry = ServiceEntry(uuid: string, payload: seq<byte>)

  /** What the radio reports about one advertising device. */
  datatype Device = Device(address: string, rssi: Option<int>, serviceData: Option<seq<ServiceEntry>>)

  /** Hook options; an absent option takes its default. */
  datatype ScannerOptions = ScannerOptions(
    defaultTxPowerDbm: Option<int>, rssiWindowSize: Option<int>, emaAlpha: Option<real>)

  /** `uuid.toLowerCase() === BEACON_SERVICE_UUID.toLowerCase()`. */
  function IsBeaconUuid(uuid: string): (b: bool)
    ensures b <==> (|uuid| == |BEACON_SERVICE_UUID| &&
                    forall i :: 0 <= i < |uuid| ==> LowerChar(uuid[i]) == LowerChar(BEACON_SERVICE_UUID[i]))
  {
    var a, c := ToLowerAscii(uuid), ToLowerAscii(BEACON_SERVICE_UUID);
    assert |a| == |c| ==> (a == c <==> forall i :: 0 <= i < |a| ==> a[i] == c[i]);
    a == c
  }

  /** Position of the first entry whose UUID matches the beacon service, ignoring case. */
  function FirstBeaconEntry(entries: seq<ServiceEntry>): (r: Option<nat>)
    ensures r.None? <==> forall i :: 0 <= i < |entries| ==> !IsBeaconUuid(entries[i].uuid)
    ensures r.Some? ==> r.value < |entries| && IsBeaconUuid(entries[r.value].uuid)
    ensures r.Some? ==> forall i :: 0 <= i < r.value ==> !IsBeaconUuid(entries[i].uuid)
  {
    if entries == [] then None
    else if IsBeaconUuid(entries[0].uuid) then Some(0)
    else
      match FirstBeaconEntry(entries[1..])
      case None => None
      case Some(i) => Some(i + 1)
  }

  /**
   * The reading an advertisement carries: none without service data, without
   * an entry for the beacon service, or when that entry does not decode.
   */
  function DecodeDevice(device: Device): (r: Option<ServiceData>)
    ensures r.Some? <==>
      && device.serviceData.Some?
      && FirstBeaconEntry(device.serviceData.value).Some?
      && |device.serviceData.value[FirstBeaconEntry(device.serviceData.value).value].payload| >= TRAILER_LEN
    ensures r.Some? ==> r.value.id != [] && r.value.id == Identity(r.value.roomId, r.value.beaconNode)
  {
    match device.serviceData
    case None => None
    case Some(entries) =>
      match FirstBeaconEntry(entries)
      case None => None
      case Some(i) => ParseServiceData(entries[i].payload)
  }

  /** `device.rssi ?? -100`. */
  function RawRssi(device: Device): (r: int)
    ensures device.rssi == Some(r) || (device.rssi.None? && r == MISSING_RSSI)
  {
    device.rssi.GetOr(MISSING_RSSI)
  }

  /** The record `processDevice` stores for a decoded frame. */
  function MakeBeacon(d: ServiceData, rssi: int, txPower: int, now: int, address: string): (b: Beacon)
    ensures b.isActive && b.lastSeen == now && b.deviceAddress == address
    ensures b.rssi == rssi && b.txPower == txPower && b.txPowerPayload == d.txPower
    ensures b.id == d.id && b.roomId == d.roomId && b.beaconNode == d.beaconNode
    ensures b.firmwareVersion == d.firmwareVersion && b.firmwareMajor == d.firmwareMajor
    ensures b.firmwareMinor == d.firmwareMinor && b.battery == d.battery
  {
    Beacon(d.id, d.roomId, d.beaconNode, rssi, txPower, d.txPower, d.firmwareVersion,
           d.firmwareMajor, d.firmwareMinor, d.battery, now, address, true)
  }

  predicate Expired(b: Beacon, now: int) {
    now - b.lastSeen > EXPIRE_AFTER_MS
  }

  predicate GoesInactive(b: Beacon, now: int) {
    !Expired(b, now) && b.isActive && now - b.lastSeen > INACTIVE_AFTER_MS
  }

  /** True when a tick at `now` removes or changes this entry. */
  predicate TickTouches(b: Beacon, now: int) {
    Expired(b, now) || GoesInactive(b, now)
  }

  /** A surviving entry after a tick at `now`. */
  function Aged(b: Beacon, now: int): (r: Beacon)
    ensures r == b.(isActive := r.isActive)
    ensures r.isActive <==> b.isActive && !GoesInactive(b, now)
  {
    if GoesInactive(b, now) then b.(isActive := false) else b
  }

  /** The beacon map after a tick at `now`. */
  function TickBeacons(m: map<string, Beacon>, now: int): (r: map<string, Beacon>)
    ensures forall id :: id in r <==> id in m && now - m[id].lastSeen <= EXPIRE_AFTER_MS
    ensures forall id :: id in r ==> r[id] == m[id].(isActive := r[id].isActive)
    ensures forall id :: id in r ==>
      (r[id].isActive <==> m[id].isActive && now - m[id].lastSeen <= INACTIVE_AFTER_MS)
  {
    map id | id in m && !Expired(m[id], now) :: Aged(m[id], now)
  }

  /** The entries of `m` whose keys are in `keys`. */
  function Restrict<V>(m: map<string, V>, keys: set<string>): (r: map<string, V>)
    ensures r.Keys == m.Keys * keys
    ensures forall id :: id in r ==> r[id] == m[id]
  {
    map id | id in m && id in keys :: m[id]
  }

  /**
   * What a tick does to one entry: an expired entry is removed; an active
   * entry past the inactivity limit survives marked inactive and otherwise
   * unchanged; every other entry survives untouched.
   */
  lemma TickEntry(m: map<string, Beacon>, now: int, id: string)
    requires id in m
    ensures var r, age, active := TickBeacons(m, now), now - m[id].lastSeen, m[id].isActive;
      && (age > EXPIRE_AFTER_MS ==> id !in r)
      && (age <= EXPIRE_AFTER_MS && active && age > INACTIVE_AFTER_MS ==>
            id in r && r[id] == m[id].(isActive := false))
      && (age <= EXPIRE_AFTER_MS && !(active && age > INACTIVE_AFTER_MS) ==>
            id in r && r[id] == m[id])
  {
  }

  /** A tick adds no key. */
  lemma TickKeys(m: map<string, Beacon>, now: int)
    ensures TickBeacons(m, now).Keys <= m.Keys
  {
  }

  /** A tick returns the map unchanged exactly when no entry is due for removal or deactivation. */
  lemma TickUnchangedIff(m: map<string, Beacon>, now: int)
    ensures TickBeacons(m, now) == m <==> forall id :: id in m ==> !TickTouches(m[id], now)
  {
    var r := TickBeacons(m, now);
    if forall id :: id in m ==> !TickTouches(m[id], now) {
      assert forall id :: id in m ==> id in r && r[id] == m[id];
      assert r.Keys == m.Keys;
    } else {
      var id :| id in m && TickTouches(m[id], now);
      if Expired(m[id], now) {
        assert id !in r;
      } else {
        assert r[id].isActive != m[id].isActive;
      }
    }
  }

  /**
   * After a tick nothing is older than the expiry limit and every entry still
   * active was heard within the inactivity limit.
   */
  lemma TickLifecycle(m: map<string, Beacon>, now: int)
    ensures forall id :: id in TickBeacons(m, now) ==>
      && now - TickBeacons(m, now)[id].lastSeen <= EXPIRE_AFTER_MS
      && (TickBeacons(m, now)[id].isActive ==> now - TickBeacons(m, now)[id].lastSeen <= INACTIVE_AFTER_MS)
  {
  }

  /** A second tick at the same instant changes nothing. */
  lemma TickIdempotent(m: map<string, Beacon>, now: int)
    ensures TickBeacons(TickBeacons(m, now), now) == TickBeacons(m, now)
  {
    var r := TickBeacons(m, now);
    TickLifecycle(m, now);
    TickUnchangedIff(r, now);
  }

  /** The first `i` keys of `order`, in order, whose entries survive a tick at `now`. */
  function SurvivingPrefix(order: seq<string>, i: nat, m: map<string, Beacon>, now: int): (r: seq<string>)
    requires i <= |order|
    requires forall j :: 0 <= j < |order| ==> order[j] in m
    ensures forall x :: x in r <==> exists j :: 0 <= j < i && order[j] == x && !Expired(m[x], now)
  {
    if i == 0 then []
    else
      var last := order[i - 1];
      SurvivingPrefix(order, i - 1, m, now) + (if Expired(m[last], now) then [] else [last])
  }

  /** The keys of `order`, in order, whose entries survive a tick at `now`. */
  function Surviving(order: seq<string>, m: map<string, Beacon>, now: int): (r: seq<string>)
    requires forall j :: 0 <= j < |order| ==> order[j] in m
    ensures forall x :: x in r <==> x in order && !Expired(m[x], now)
  {
    SurvivingPrefix(order, |order|, m, now)
  }

  predicate Distinct(s: seq<string>) {
    forall i, j :: 0 <= i < j < |s| ==> s[i] != s[j]
  }

  lemma {:induction false} SurvivingPrefixDistinct(order: seq<string>, i: nat, m: map<string, Beacon>, now: int)
    requires i <= |order|
    requires forall j :: 0 <= j < |order| ==> order[j] in m
    requires Distinct(order)
    ensures Distinct(SurvivingPrefix(order, i, m, now))
  {
    if i > 0 {
      var prev, last := SurvivingPrefix(order, i - 1, m, now), order[i - 1];
      SurvivingPrefixDistinct(order, i - 1, m, now);
      if !Expired(m[last], now) {
        forall x | x in prev
          ensures x != last
        {
          var j :| 0 <= j < i - 1 && order[j] == x;
          assert order[j] != order[i - 1];
        }
        var r := prev + [last];
        forall a, b | 0 <= a < b < |r|
          ensures r[a] != r[b]
        {
          if b == |prev| {
            assert r[a] in prev;
          }
        }
      }
    }
  }

  lemma {:induction false} SurvivingPrefixAll(order: seq<string>, i: nat, m: map<string, Beacon>, now: int)
    requires i <= |order|
    requires forall j :: 0 <= j < |order| ==> order[j] in m && !Expired(m[order[j]], now)
    ensures SurvivingPrefix(order, i, m, now) == order[..i]
  {
    if i > 0 {
      SurvivingPrefixAll(order, i - 1, m, now);
      assert order[..i] == order[..i - 1] + [order[i - 1]];
    }
  }

  /** The entries of `m` in the order given by `order` (a JavaScript Map's `values()`). */
  function ValuesInOrder(m: map<string, Beacon>, order: seq<string>): (r: seq<Beacon>)
    requires forall j :: 0 <= j < |order| ==> order[j] in m
    ensures |r| == |order| && forall j :: 0 <= j < |order| ==> r[j] == m[order[j]]
  {
    seq(|order|, j requires 0 <= j < |order| => m[order[j]])
  }

  predicate NonIncreasingRssi(s: seq<Beacon>) {
    forall i, j :: 0 <= i < j < |s| ==> s[i].rssi >= s[j].rssi
  }

  /** A beacon at least as strong as the head of a sorted list may go in front of it. */
  lemma PrependSorted(b: Beacon, s: seq<Beacon>)
    requires NonIncreasingRssi(s)
    requires s != [] ==> b.rssi >= s[0].rssi
    ensures NonIncreasingRssi([b] + s)
  {
    var r := [b] + s;
    forall i, j | 0 <= i < j < |r| ensures r[i].rssi >= r[j].rssi {
      if i == 0 && j > 1 {
        assert s[0].rssi >= s[j - 1].rssi;
      }
    }
  }

  /** Places `b` before the first entry it is at least as strong as. */
  function InsertByRssi(b: Beacon, s: seq<Beacon>): (r: seq<Beacon>)
    requires NonIncreasingRssi(s)
    ensures multiset(r) == multiset(s) + multiset{b}
    ensures NonIncreasingRssi(r)
    ensures |r| == |s| + 1
    ensures r[0] == b || (s != [] && r[0] == s[0])
  {
    if s == [] || b.rssi >= s[0].rssi then
      PrependSorted(b, s);
      [b] + s
    else
      var t := InsertByRssi(b, s[1..]);
      assert s == [s[0]] + s[1..];
      PrependSorted(s[0], t);
      [s[0]] + t
  }

  /**
   * `values.sort((a, b) => b.rssi - a.rssi)`: the same beacons, strongest
   * first. (The sort is stable; the model does not state the order of ties.)
   */
  function SortByRssi(s: seq<Beacon>): (r: seq<Beacon>)
    ensures multiset(r) == multiset(s)
    ensures NonIncreasingRssi(r)
  {
    if s == [] then []
    else
      assert s == [s[0]] + s[1..];
      InsertByRssi(s[0], SortByRssi(s[1..]))
  }

  /** The keys among the first `i` of `order`. */
  function PrefixKeys(order: seq<string>, i: nat): set<string>
    requires i <= |order|
  {
    set j | 0 <= j < i :: order[j]
  }

  /** The beacon map part-way through a tick: only the keys in `done` have been visited. */
  function PartialTick(m: map<string, Beacon>, done: set<string>, now: int): map<string, Beacon> {
    map id | id in m && !(id in done && Expired(m[id], now)) ::
      if id in done then Aged(m[id], now) else m[id]
  }

  /** Visiting one more key does what the loop body of the tick does. */
  lemma PartialTickStep(m: map<string, Beacon>, done: set<string>, now: int, id: string)
    requires id in m && id !in done
    ensures var before, after := PartialTick(m, done, now), PartialTick(m, done + {id}, now);
      && id in before && before[id] == m[id]
      && after == if Expired(m[id], now) then before - {id}
                  else if GoesInactive(m[id], now) then before[id := m[id].(isActive := false)]
                  else before
  {
    var before, after := PartialTick(m, done, now), PartialTick(m, done + {id}, now);
    if Expired(m[id], now) {
      assert after.Keys == before.Keys - {id};
    } else {
      assert after.Keys == before.Keys;
    }
  }

  lemma PartialTickDone(m: map<string, Beacon>, now: int)
    ensures PartialTick(m, m.Keys, now) == TickBeacons(m, now)
  {
  }

  lemma RestrictRemove<V>(m: map<string, V>, keys: set<string>, id: string)
    ensures Restrict(m, keys) - {id} == Restrict(m, keys - {id})
  {
  }

  /**
   * The registry's invariant: the map, its insertion order, the sample
   * windows and the EMAs cover the same identities, each entry is stored
   * under its own identity, and a positive window size bounds every window.
   */
  ghost predicate Coherent(beacons: map<string, Beacon>, order: seq<string>,
                           history: map<string, seq<int>>, ema: map<string, real>, k: int)
  {
    && history.Keys == beacons.Keys
    && ema.Keys == beacons.Keys
    && Distinct(order)
    && (forall id :: id in beacons <==> id in order)
    && (forall id :: id in beacons ==> beacons[id].id == id)
    && (forall id :: id in history && k >= 1 ==> 1 <= |history[id]| <= k)
  }

  /** Writing one identity's entry, window and EMA keeps the invariant. */
  lemma UpsertCoherent(beacons: map<string, Beacon>, order: seq<string>, history: map<string, seq<int>>,
                       ema: map<string, real>, k: int, b: Beacon, w: seq<int>, e: real)
    requires Coherent(beacons, order, history, ema, k)
    requires k >= 1 ==> 1 <= |w| <= k
    ensures Coherent(beacons[b.id := b], if b.id in beacons then order else order + [b.id],
                     history[b.id := w], ema[b.id := e], k)
  {
    if b.id !in beacons {
      var order' := order + [b.id];
      assert forall x :: x in order' <==> x in order || x == b.id;
      assert forall j :: 0 <= j < |order| ==> order'[j] == order[j] != b.id;
    }
  }

  /** A tick, with the windows and EMAs of removed identities dropped, keeps the invariant. */
  lemma TickCoherent(beacons: map<string, Beacon>, order: seq<string>, history: map<string, seq<int>>,
                     ema: map<string, real>, k: int, now: int)
    requires Coherent(beacons, order, history, ema, k)
    ensures var r := TickBeacons(beacons, now);
      Coherent(r, Surviving(order, beacons, now), Restrict(history, r.Keys), Restrict(ema, r.Keys), k)
  {
    SurvivingPrefixDistinct(order, |order|, beacons, now);
  }

  /** Adding the next position of `order` adds one new key. */
  lemma PrefixKeysStep(order: seq<string>, i: nat)
    requires i < |order| && Distinct(order)
    ensures PrefixKeys(order, i + 1) == PrefixKeys(order, i) + {order[i]}
    ensures order[i] !in PrefixKeys(order, i)
  {
  }

  /** The state of the tick's walk over the insertion order after `i` keys. */
  ghost predicate TickProgress(m: map<string, Beacon>, o: seq<string>, h: map<string, seq<int>>,
                               e: map<string, real>, now: int, i: nat,
                               updated: map<string, Beacon>, kept: seq<string>,
                               history: map<string, seq<int>>, emas: map<string, real>, changed: bool)
  {
    && i <= |o|
    && (forall j :: 0 <= j < |o| ==> o[j] in m)
    && updated == PartialTick(m, PrefixKeys(o, i), now)
    && (changed <==> exists j :: 0 <= j < i && TickTouches(m[o[j]], now))
    && kept == SurvivingPrefix(o, i, m, now)
    && history == Restrict(h, updated.Keys)
    && emas == Restrict(e, updated.Keys)
  }

  /** The loop body of the tick: visits the `i`-th key of the insertion order. */
  method TickVisit(m: map<string, Beacon>, o: seq<string>, h: map<string, seq<int>>,
                   e: map<string, real>, now: int, i: nat,
                   updated: map<string, Beacon>, kept: seq<string>,
                   history: map<string, seq<int>>, emas: map<string, real>, changed: bool)
    returns (updated': map<string, Beacon>, kept': seq<string>,
             history': map<string, seq<int>>, emas': map<string, real>, changed': bool)
    requires i < |o| && Distinct(o)
    requires TickProgress(m, o, h, e, now, i, updated, kept, history, emas, changed)
    ensures TickProgress(m, o, h, e, now, i + 1, updated', kept', history', emas', changed')
  {
    var id := o[i];
    PrefixKeysStep(o, i);
    PartialTickStep(m, PrefixKeys(o, i), now, id);
    var beacon := updated[id];
    if now - beacon.lastSeen > EXPIRE_AFTER_MS {
      RestrictRemove(h, updated.Keys, id);
      RestrictRemove(e, updated.Keys, id);
      updated', kept', history', emas', changed' := updated - {id}, kept, history - {id}, emas - {id}, true;
    } else if beacon.isActive && now - beacon.lastSeen > INACTIVE_AFTER_MS {
      updated', kept', history', emas', changed' := updated[id := beacon.(isActive := false)], kept + [id], history, emas, true;
    } else {
      updated', kept', history', emas', changed' := updated, kept + [id], history, emas, changed;
    }
  }

  /** Once every key has been visited, `changed` says whether the tick touched any entry. */
  lemma TickFinishedChanged(m: map<string, Beacon>, o: seq<string>, h: map<string, seq<int>>,
                            e: map<string, real>, k: int, now: int,
                            updated: map<string, Beacon>, kept: seq<string>,
                            history: map<string, seq<int>>, emas: map<string, real>, changed: bool)
    requires Coherent(m, o, h, e, k)
    requires TickProgress(m, o, h, e, now, |o|, updated, kept, history, emas, changed)
    requires updated == TickBeacons(m, now) && kept == Surviving(o, m, now)
    ensures changed <==> exists id :: id in m && TickTouches(m[id], now)
    ensures !changed ==> updated == m && kept == o
  {
    if !changed {
      assert forall id :: id in m ==> !TickTouches(m[id], now);
      TickUnchangedIff(m, now);
      SurvivingPrefixAll(o, |o|, m, now);
      assert o[..|o|] == o;
    } else {
      var j :| 0 <= j < |o| && TickTouches(m[o[j]], now);
      assert o[j] in m;
    }
  }

  /** Once every key has been visited, the walk has computed the whole tick. */
  lemma TickFinished(m: map<string, Beacon>, o: seq<string>, h: map<string, seq<int>>,
                     e: map<string, real>, k: int, now: int,
                     updated: map<string, Beacon>, kept: seq<string>,
                     history: map<string, seq<int>>, emas: map<string, real>, changed: bool)
    requires Coherent(m, o, h, e, k)
    requires TickProgress(m, o, h, e, now, |o|, updated, kept, history, emas, changed)
    ensures updated == TickBeacons(m, now)
    ensures kept == Surviving(o, m, now)
    ensures changed <==> exists id :: id in m && TickTouches(m[id], now)
    ensures !changed ==> updated == m && kept == o
    ensures Coherent(updated, kept, history, emas, k)
  {
    assert PrefixKeys(o, |o|) == m.Keys;
    PartialTickDone(m, now);
    TickCoherent(m, o, h, e, k, now);
    TickFinishedChanged(m, o, h, e, k, now, updated, kept, history, emas, changed);
  }

  /**
   * The timer's update of the beacon map (the function passed to
   * `setBeacons`): walks the entries in insertion order, deleting expired
   * ones together with their window and EMA, and marking quiet active ones
   * inactive. When nothing changed the result equals the input, so keeping
   * the old map (as the source does) loses nothing.
   */
  method TickPass(m: map<string, Beacon>, o: seq<string>, h: map<string, seq<int>>,
                  e: map<string, real>, k: int, now: int)
    returns (updated: map<string, Beacon>, kept: seq<string>, history: map<string, seq<int>>,
             emas: map<string, real>, changed: bool)
    requires Coherent(m, o, h, e, k)
    ensures updated == TickBeacons(m, now)
    ensures kept == Surviving(o, m, now)
    ensures history == Restrict(h, updated.Keys) && emas == Restrict(e, updated.Keys)
    ensures changed <==> exists id :: id in m && TickTouches(m[id], now)
    ensures !changed ==> updated == m && kept == o
    ensures Coherent(updated, kept, history, emas, k)
  {
    updated, history, emas := m, h, e;
    kept := [];
    changed := false;
    var i := 0;
    while i < |o|
      invariant TickProgress(m, o, h, e, now, i, updated, kept, history, emas, changed)
    {
      updated, kept, history, emas, changed := TickVisit(m, o, h, e, now, i, updated, kept, history, emas, changed);
      i := i + 1;
    }
    assert i == |o|;
    TickFinished(m, o, h, e, k, now, updated, kept, history, emas, changed);
  }

  class BeaconScanner {
    const defaultTxPowerDbm: int
    const rssiWindowSize: int
    const emaAlpha: real

    /** The beacon map (`beacons` state), keyed by identity. */
    var beacons: map<string, Beacon>
    /** The map's insertion order, which a JavaScript Map keeps. */
    var order: seq<string>
    /** Recent raw samples per identity (`rssiHistoryRef`). */
    var rssiHistory: map<string, seq<int>>
    /** Current EMA per identity (`emaRssiRef`). */
    var emaRssi: map<string, real>

    ghost predicate Valid()
      reads this
    {
      Coherent(beacons, order, rssiHistory, emaRssi, rssiWindowSize)
    }

    constructor (options: ScannerOptions)
      ensures Valid()
      ensures defaultTxPowerDbm == options.defaultTxPowerDbm.GetOr(DEFAULT_TX_POWER_DBM)
      ensures rssiWindowSize == options.rssiWindowSize.GetOr(DEFAULT_RSSI_WINDOW)
      ensures emaAlpha == options.emaAlpha.GetOr(DEFAULT_EMA_ALPHA)
      ensures beacons == map[] && order == [] && rssiHistory == map[] && emaRssi == map[]
    {
      defaultTxPowerDbm := options.defaultTxPowerDbm.GetOr(DEFAULT_TX_POWER_DBM);
      rssiWindowSize := options.rssiWindowSize.GetOr(DEFAULT_RSSI_WINDOW);
      emaAlpha := options.emaAlpha.GetOr(DEFAULT_EMA_ALPHA);
      beacons, order, rssiHistory, emaRssi := map[], [], map[], map[];
    }

    function HistoryOf(id: string): seq<int>
      reads this
    {
      if id in rssiHistory then rssiHistory[id] else []
    }

    function EmaOf(id: string): Option<real>
      reads this
    {
      if id in emaRssi then Some(emaRssi[id]) else None
    }

    /**
     * `processDevice` at time `now`: a decodable advertisement updates the
     * window and EMA of its identity and replaces that identity's entry by a
     * fresh, active record; anything else changes nothing.
     */
    method ProcessDevice(device: Device, now: int) returns (accepted: bool)
      requires Valid()
      modifies this
      ensures Valid()
      ensures accepted <==> DecodeDevice(device).Some?
      ensures !accepted ==> unchanged(this)
      ensures accepted ==>
        var d, raw := DecodeDevice(device).value, RawRssi(device);
        && rssiHistory == old(rssiHistory)[d.id := NextWindow(old(HistoryOf(d.id)), raw, rssiWindowSize)]
        && emaRssi == old(emaRssi)[d.id := NextEma(old(EmaOf(d.id)), rssiHistory[d.id], raw, emaAlpha)]
        && beacons == old(beacons)[d.id := MakeBeacon(d, JsRound(emaRssi[d.id]), defaultTxPowerDbm, now, device.address)]
        && order == if d.id in old(beacons) then old(order) else old(order) + [d.id]
      ensures accepted && DecodeDevice(device).value.id !in old(beacons) && rssiWindowSize >= 0 ==>
        beacons[DecodeDevice(device).value.id].rssi == RawRssi(device)
    {
      var decoded := DecodeDevice(device);
      if decoded.None? || decoded.value.id == [] {
        return false;
      }
      var d := decoded.value;
      var raw := RawRssi(device);
      var isNew := d.id !in beacons;

      var nextHistory := NextWindow(HistoryOf(d.id), raw, rssiWindowSize);
      var nextEma := NextEma(EmaOf(d.id), nextHistory, raw, emaAlpha);
      var beacon := MakeBeacon(d, JsRound(nextEma), defaultTxPowerDbm, now, device.address);
      if isNew && rssiWindowSize >= 0 {
        FirstSampleExact(raw, rssiWindowSize, emaAlpha);
      }
      UpsertCoherent(beacons, order, rssiHistory, emaRssi, rssiWindowSize, beacon, nextHistory, nextEma);

      rssiHistory := rssiHistory[d.id := nextHistory];
      emaRssi := emaRssi[d.id := nextEma];
      if isNew {
        order := order + [d.id];
      }
      beacons := beacons[d.id := beacon];
      accepted := true;
    }

    /**
     * One pass of the lifecycle timer at time `now`: expired entries are
     * removed together with their window and EMA, active entries past the
     * inactivity limit are marked inactive, and `changed` reports whether
     * anything happened (the source keeps the old map when nothing did).
     */
    method Tick(now: int) returns (changed: bool)
      requires Valid()
      modifies this
      ensures Valid()
      ensures beacons == TickBeacons(old(beacons), now)
      ensures order == Surviving(old(order), old(beacons), now)
      ensures rssiHistory == Restrict(old(rssiHistory), beacons.Keys)
      ensures emaRssi == Restrict(old(emaRssi), beacons.Keys)
      ensures changed <==> exists id :: id in old(beacons) && TickTouches(old(beacons)[id], now)
      ensures !changed ==> beacons == old(beacons) && order == old(order)
    {
      var updated, kept, history, emas;
      updated, kept, history, emas, changed := TickPass(beacons, order, rssiHistory, emaRssi, rssiWindowSize, now);
      if !changed {
        // the source hands back the previous map; it equals the updated one
        updated, kept := beacons, order;
      }
      beacons, order, rssiHistory, emaRssi := updated, kept, history, emas;
    }

    /** The map's values in insertion order (`beacons.values()`). */
    function Values(): (r: seq<Beacon>)
      reads this
      requires Valid()
      ensures |r| == |order|
      ensures forall id :: id in beacons ==> beacons[id] in r
      ensures forall b :: b in r ==> b.id in beacons && beacons[b.id] == b
    {
      ValuesInOrder(beacons, order)
    }

    /** `sortedBeacons`: every tracked beacon once, strongest smoothed RSSI first. */
    function SortedBeacons(): (r: seq<Beacon>)
      reads this
      requires Valid()
      ensures multiset(r) == multiset(Values())
      ensures NonIncreasingRssi(r)
    {
      SortByRssi(Values())
    }
  }
}
