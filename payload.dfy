/**
 * Decoding of the beacon's service-data frame (`parseServiceData` in
 * hooks/use-ble-scanner.ts). A frame is a room identifier of any length
 * followed by a fixed six-byte trailer:
 *
 *   [room id ...][node][fw major][fw minor][tx power, signed][battery lo][battery hi]
 *
 * The trailer is read from the END of the buffer and everything before it is
 * the room identifier. The frame arrives base64-encoded; the model starts from
 * the decoded bytes.
 */
module Payload {
  import opened Wrappers
  import opened Text

  type byte = b: int | 0 <= b < 256

  /** Length of the trailer; shorter buffers carry no reading. */
  const TRAILER_LEN := 6

  /** The fields `parseServiceData` extracts from one frame. */
  datatype ServiceData = ServiceData(
    roomId: string,
    beaconNode: byte,
    firmwareMajor: byte,
    firmwareMinor: byte,
    firmwareVersion: string,
    txPower: int,
    battery: int,
    id: string)

  /** `Buffer.readInt8`: one byte read as a two's-complement signed value. */
  function Int8(b: byte): (v: int)
    ensures -128 <= v <= 127
    ensures (v + 256) % 256 == b
  {
    if b < 128 then b else b - 256
  }

  /** The byte that stores the signed value `v`. */
  function Int8Byte(v: int): (b: byte)
    requires -128 <= v <= 127
    ensures Int8(b) == v
  {
    if v < 0 then v + 256 else v
  }

  /** `Buffer.readUInt16LE`: two bytes, least significant first. */
  function U16LE(lo: byte, hi: byte): (v: int)
    ensures 0 <= v <= 65535
    ensures v % 256 == lo && v / 256 == hi
  {
    lo + 256 * hi
  }

  /** The two little-endian bytes that store `v`. */
  function U16LEBytes(v: int): (bs: seq<byte>)
    requires 0 <= v <= 65535
    ensures |bs| == 2 && U16LE(bs[0], bs[1]) == v
  {
    [v % 256, v / 256]
  }

  /**
   * The room identifier's text: one character per byte. This agrees with the
   * UTF-8 decoding the app applies for room identifiers written in ASCII.
   */
  function RoomText(bs: seq<byte>): (t: string)
    ensures |t| == |bs|
    ensures forall i :: 0 <= i < |bs| ==> t[i] as int == bs[i]
  {
    seq(|bs|, i requires 0 <= i < |bs| => bs[i] as char)
  }

  /** `beaconNode.toString().padStart(2, '0')`. */
  function NodeLabel(n: byte): (s: string)
    ensures AllDigits(s) && |s| >= 2
  {
    PadStart(NatString(n), 2, '0')
  }

  /** The beacon identity `${roomId}-B${node padded to two digits}`. */
  function Identity(roomId: string, n: byte): (id: string)
    ensures |id| >= |roomId| + 4
    ensures id[..|roomId|] == roomId
  {
    roomId + "-B" + NodeLabel(n)
  }

  /** `${firmwareMajor}.${firmwareMinor}`. */
  function FirmwareVersion(major: byte, minor: byte): (v: string)
    ensures var k := |NatString(major)|;
      && 1 <= k < |v| - 1 && v[k] == '.'
      && AllDigits(v[..k]) && AllDigits(v[k + 1..])
      && DigitsValue(v[..k]) == major && DigitsValue(v[k + 1..]) == minor
  {
    var a, b := NatString(major), NatString(minor);
    NatStringRoundTrip(major);
    NatStringRoundTrip(minor);
    assert (a + "." + b)[..|a|] == a && (a + "." + b)[|a| + 1..] == b;
    a + "." + b
  }

  /** Different firmware versions print differently. */
  lemma FirmwareVersionInjective(major1: byte, minor1: byte, major2: byte, minor2: byte)
    requires FirmwareVersion(major1, minor1) == FirmwareVersion(major2, minor2)
    ensures major1 == major2 && minor1 == minor2
  {
    var a1, b1, a2, b2 := NatString(major1), NatString(minor1), NatString(major2), NatString(minor2);
    assert Lacks(b1, '.') && Lacks(b2, '.');
    SeparatedSplitUnique(a1, b1, a2, b2, ".");
    NatStringRoundTrip(major1);
    NatStringRoundTrip(major2);
    NatStringRoundTrip(minor1);
    NatStringRoundTrip(minor2);
  }

  /**
   * `parseServiceData` on an already base64-decoded buffer: `None` (the
   * source's `null`) when the buffer cannot hold the trailer.
   */
  function ParseServiceData(buffer: seq<byte>): (r: Option<ServiceData>)
    ensures r.None? <==> |buffer| < TRAILER_LEN
    ensures r.Some? ==> r.value.id == Identity(r.value.roomId, r.value.beaconNode)
    ensures r.Some? ==> r.value.id != []
  {
    if |buffer| < TRAILER_LEN then None
    else
      var n := |buffer|;
      var roomId := RoomText(buffer[..n - TRAILER_LEN]);
      var node, major, minor := buffer[n - 6], buffer[n - 5], buffer[n - 4];
      Some(ServiceData(
        roomId, node, major, minor, FirmwareVersion(major, minor),
        Int8(buffer[n - 3]), U16LE(buffer[n - 2], buffer[n - 1]), Identity(roomId, node)))
  }

  /** The frame a beacon of room `room` and node `node` advertises. */
  function Frame(room: seq<byte>, node: byte, major: byte, minor: byte, txPower: int, battery: int): (f: seq<byte>)
    requires -128 <= txPower <= 127 && 0 <= battery <= 65535
    ensures |f| == |room| + TRAILER_LEN
  {
    room + [node, major, minor, Int8Byte(txPower)] + U16LEBytes(battery)
  }

  /** Decoding a frame gives back every field that was put into it. */
  lemma ParseFrame(room: seq<byte>, node: byte, major: byte, minor: byte, txPower: int, battery: int)
    requires -128 <= txPower <= 127 && 0 <= battery <= 65535
    ensures var roomId := RoomText(room);
      ParseServiceData(Frame(room, node, major, minor, txPower, battery))
      == Some(ServiceData(roomId, node, major, minor, FirmwareVersion(major, minor),
                          txPower, battery, Identity(roomId, node)))
  {
    var f := Frame(room, node, major, minor, txPower, battery);
    assert f[..|f| - TRAILER_LEN] == room;
  }

  /** Every buffer that decodes is the frame of the fields it decodes to. */
  lemma ParsedIsFrame(buffer: seq<byte>)
    requires |buffer| >= TRAILER_LEN
    ensures var d := ParseServiceData(buffer).value;
      && RoomText(buffer[..|buffer| - TRAILER_LEN]) == d.roomId
      && buffer == Frame(buffer[..|buffer| - TRAILER_LEN], d.beaconNode, d.firmwareMajor,
                         d.firmwareMinor, d.txPower, d.battery)
  {
    var n := |buffer|;
    var d := ParseServiceData(buffer).value;
    assert Int8Byte(d.txPower) == buffer[n - 3];
    assert U16LEBytes(d.battery) == buffer[n - 2..];
    assert buffer == buffer[..n - TRAILER_LEN] + buffer[n - 6..n - 2] + buffer[n - 2..];
  }

  /**
   * Nodes 0..9 gain one leading zero, larger nodes print unpadded, and in
   * both cases the label reads back as the node number.
   */
  lemma NodeLabelDigits(n: byte)
    ensures n < 10 ==> NodeLabel(n) == ['0', DigitChar(n)]
    ensures n >= 10 ==> NodeLabel(n) == NatString(n)
    ensures DigitsValue(NodeLabel(n)) == n
  {
    NatStringRoundTrip(n);
    if n < 10 {
      assert NodeLabel(n) == "0" + NatString(n);
      LeadingZeroValue(NatString(n));
    }
  }

  /** Different (room, node) pairs never share an identity. */
  lemma IdentityInjective(room1: string, node1: byte, room2: string, node2: byte)
    requires Identity(room1, node1) == Identity(room2, node2)
    ensures room1 == room2 && node1 == node2
  {
    var l1, l2 := NodeLabel(node1), NodeLabel(node2);
    assert room1 + "-B" + l1 == room2 + "-B" + l2;
    SeparatedSplitUnique(room1, l1, room2, l2, "-B");
    NodeLabelDigits(node1);
    NodeLabelDigits(node2);
  }

  /** The frame of beacon 2 of room "SALA_2" (fw 1.0, -8 dBm, 3748 mV). */
  lemma SalaExample()
    ensures var f := [83, 65, 76, 65, 95, 50] + [2, 1, 0, 248, 164, 14];
      ParseServiceData(f) == Some(ServiceData("SALA_2", 2, 1, 0, "1.0", -8, 3748, "SALA_2-B02"))
  {
    var f: seq<byte> := [83, 65, 76, 65, 95, 50] + [2, 1, 0, 248, 164, 14];
    assert RoomText(f[..6]) == "SALA_2";
    assert NatString(2) == "2" && NatString(1) == "1" && NatString(0) == "0";
    assert NodeLabel(2) == "02";
    assert FirmwareVersion(1, 0) == "1.0";
    assert Identity("SALA_2", 2) == "SALA_2-B02";
    assert Int8(248) == -8 && U16LE(164, 14) == 3748;
  }
}
