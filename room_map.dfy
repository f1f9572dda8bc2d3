/**
 * The room map (components/room-map.tsx): three zone bands stacked inside a
 * padded canvas, zone 1 at the bottom (the entrance) and zone 3 at the top
 * (the exit), a user marker placed on the current zone, and the bands up to
 * the progress zone shaded.
 *
 * Positions are in layout points and computed over exact reals. The source
 * computes them in doubles, where the zone height 236/3 and every band centre
 * derived from it are rounded, so the equalities proved here (the marker
 * centred on its band, for one) hold of the real-number layout only.
 */
module RoomMap {

  const MAP_HEIGHT: real := 260.0
  const MAP_PADDING: real := 12.0
  const INNER_HEIGHT: real := MAP_HEIGHT - MAP_PADDING * 2.0
  const ZONE_HEIGHT: real := INNER_HEIGHT / 3.0
  const MARKER_SIZE: real := 20.0

  /** The colours of one zone band: plain, and shaded once the visitor has reached it. */
  datatype BandColors = BandColors(base: string, active: string)

  /** Band colours for zones 1, 2 and 3. */
  const ZONE_COLORS: seq<BandColors> := [
    BandColors("#DCFCE7", "#86EFAC"),
    BandColors("#DBEAFE", "#93C5FD"),
    BandColors("#FEF3C7", "#FCD34D")]

  predicate InZone(zone: int) {
    1 <= zone <= 3
  }

  /** `getZoneLabel`. */
  function ZoneLabel(zone: int): (r: string)
    ensures r == "Fuera" <==> !InZone(zone)
  {
    if zone == 1 then "Zona 1"
    else if zone == 2 then "Zona 2"
    else if zone == 3 then "Zona 3"
    else "Fuera"
  }

  /** `getZoneColor`: the marker colour. */
  function ZoneColor(zone: int): (r: string)
    ensures r == "#9CA3AF" <==> !InZone(zone)
  {
    if zone == 1 then "#10B981"
    else if zone == 2 then "#3B82F6"
    else if zone == 3 then "#F59E0B"
    else "#9CA3AF"
  }

  /** Label and colour identify the zone: two zones with the same label or the same colour are both outside or equal. */
  lemma LabelsAndColorsIdentifyZone(a: int, b: int)
    ensures ZoneLabel(a) == ZoneLabel(b) <==> a == b || (!InZone(a) && !InZone(b))
    ensures ZoneColor(a) == ZoneColor(b) <==> a == b || (!InZone(a) && !InZone(b))
  {
  }

  /** The top edge of zone `k`'s band: the bands are stacked from zone 3 at the top down to zone 1. */
  function BandTop(k: int): real
    requires InZone(k)
  {
    MAP_PADDING + (3 - k) as real * ZONE_HEIGHT
  }

  /** `getUserMarkerTop`: the top edge of the user marker for the current zone. */
  function UserMarkerTop(zone: int): (top: real)
    ensures MAP_PADDING <= top && top + MARKER_SIZE <= MAP_PADDING + INNER_HEIGHT
  {
    var innerTop := MAP_PADDING;
    var zoneCenter1 := innerTop + INNER_HEIGHT - ZONE_HEIGHT / 2.0;
    var zoneCenter2 := innerTop + INNER_HEIGHT - ZONE_HEIGHT - ZONE_HEIGHT / 2.0;
    var zoneCenter3 := innerTop + ZONE_HEIGHT / 2.0;
    if zone <= 0 then innerTop + INNER_HEIGHT - MARKER_SIZE - 4.0
    else if zone == 1 then zoneCenter1 - MARKER_SIZE / 2.0
    else if zone == 2 then zoneCenter2 - MARKER_SIZE / 2.0
    else zoneCenter3 - MARKER_SIZE / 2.0
  }

  /** Inside the room the marker sits centred on its zone's band. */
  lemma MarkerCentredOnBand(zone: int)
    requires InZone(zone)
    ensures UserMarkerTop(zone) + MARKER_SIZE / 2.0 == BandTop(zone) + ZONE_HEIGHT / 2.0
  {
  }

  /**
   * Outside the room the marker rests at the entrance, inside the bottom band
   * and below the marker of zone 1; a zone past 3 is drawn as zone 3.
   */
  lemma MarkerOutsideAndBeyond(zone: int)
    ensures zone <= 0 ==>
      && UserMarkerTop(zone) == 224.0
      && BandTop(1) <= UserMarkerTop(zone)
      && UserMarkerTop(zone) > UserMarkerTop(1)
    ensures zone > 3 ==> UserMarkerTop(zone) == UserMarkerTop(3)
  {
  }

  /**
   * The marker rises as the visitor moves from the entrance towards the exit:
   * strictly from one of outside, zone 1, zone 2 to any later one (zones up
   * to 0 share the entrance position, zones from 3 on the top one).
   */
  lemma MarkerRises(a: int, b: int)
    requires a < b && b >= 1 && a < 3
    ensures UserMarkerTop(a) > UserMarkerTop(b)
  {
  }

  /** Zone `k`'s band colour given the progress zone. */
  function BandFill(progressZone: int, k: int): (c: string)
    requires InZone(k)
    ensures c == ZONE_COLORS[k - 1].active <==> progressZone >= k
  {
    if progressZone >= k then ZONE_COLORS[k - 1].active else ZONE_COLORS[k - 1].base
  }

  /** The shaded bands are exactly zones 1 up to the progress zone: shading never skips a zone. */
  lemma ShadingDownwardClosed(progressZone: int, j: int, k: int)
    requires InZone(j) && InZone(k) && j <= k
    requires BandFill(progressZone, k) == ZONE_COLORS[k - 1].active
    ensures BandFill(progressZone, j) == ZONE_COLORS[j - 1].active
  {
  }
}
