/**
 * The audio guide of `useGuideNarrator` (hooks/use-guide-narrator.ts): the
 * narration of the visitor's zone is looked up in the museum content and
 * spoken once each time the visitor enters a new zone, until stopped.
 *
 * The hook's state and refs (`isPlaying`, `isMountedRef`, `lastSpokenKeyRef`)
 * and the props of its latest render become one value; each callback runs to
 * completion, and whether the speech engine throws is a parameter.
 */
module GuideNarrator {
  import opened Wrappers
  import opened Text

  /** One zone's entry in the museum content; its narration may be missing. */
  datatype ZoneContent = ZoneContent(narration: Option<string>)

  /** The museum content: per room id, the entries keyed "Z1", "Z2", "Z3". */
  type Museum = map<string, map<string, ZoneContent>>

  /** The hook's props: the current room, the visitor's zone (or none) and the on/off switch. */
  datatype Props = Props(roomId: string, zone: Option<int>, enabled: bool)

  /**
   * The hook's state: whether speech is playing, whether the component is
   * still mounted, the key of the last zone narrated, and the props of the
   * latest render (none before the first).
   */
  datatype Narrator = Narrator(isPlaying: bool, isMounted: bool, lastSpokenKey: Option<string>,
                               rendered: Option<Props>)

  /** What an event leaves behind: the new state and the text handed to the speech engine, if any. */
  datatype Outcome = Outcome(state: Narrator, spoken: Option<string>)

  /** The key of a zone's entry within a room's content. */
  function ZoneKey(zone: int): (key: string)
    ensures |key| >= 2 && key[0] == 'Z' && Lacks(key[1..], 'Z')
    ensures var d := key[1..]; ((d[0] == '-' && AllDigits(d[1..])) || AllDigits(d)) && IntValue(d) == zone
  {
    IntStringRoundTrip(zone);
    assert ("Z" + IntString(zone))[1..] == IntString(zone);
    "Z" + IntString(zone)
  }

  /** The key that identifies a narration already given: room id, a colon, "Z" and the zone. */
  function NarrationKey(roomId: string, zone: int): (key: string)
    ensures |key| >= |roomId| + 3 && key[..|roomId|] == roomId && key[|roomId|] == ':'
    ensures key[|roomId| + 1..] == ZoneKey(zone)
  {
    roomId + ":" + ZoneKey(zone)
  }

  /** JavaScript truthiness of a `number | null` zone. */
  function HasZone(zone: Option<int>): (b: bool)
    ensures b <==> zone != None && zone != Some(0)
  {
    zone.Some? && zone.value != 0
  }

  /**
   * `getContent`: the narration for the zone, or none when there is no zone
   * or it lies outside 1..3, when the room has no content, or when the zone
   * entry or its narration is missing or empty.
   */
  function GetContent(museum: Museum, roomId: string, zone: Option<int>): (r: Option<string>)
    ensures r.Some? <==>
      && zone.Some? && 1 <= zone.value <= 3
      && roomId in museum && ZoneKey(zone.value) in museum[roomId]
      && museum[roomId][ZoneKey(zone.value)].narration.Some?
      && museum[roomId][ZoneKey(zone.value)].narration.value != ""
    ensures r.Some? ==> r.value != "" && r == museum[roomId][ZoneKey(zone.value)].narration
  {
    if !HasZone(zone) || zone.value < 1 || zone.value > 3 then None
    else if roomId !in museum then None
    else
      var key := ZoneKey(zone.value);
      if key in museum[roomId] && museum[roomId][key].narration.Some? && museum[roomId][key].narration.value != ""
      then museum[roomId][key].narration
      else None
  }

  /** The zone keys the content is looked up under are exactly "Z1", "Z2" and "Z3". */
  lemma ZoneKeys()
    ensures ZoneKey(1) == "Z1" && ZoneKey(2) == "Z2" && ZoneKey(3) == "Z3"
  {
    assert NatString(1) == "1" && NatString(2) == "2" && NatString(3) == "3";
  }

  /** Distinct rooms or distinct zones never share a narration key. */
  lemma NarrationKeyInjective(room1: string, zone1: int, room2: string, zone2: int)
    requires NarrationKey(room1, zone1) == NarrationKey(room2, zone2)
    ensures room1 == room2 && zone1 == zone2
  {
    var d1, d2 := IntString(zone1), IntString(zone2);
    assert NarrationKey(room1, zone1) == room1 + ":Z" + d1;
    assert NarrationKey(room2, zone2) == room2 + ":Z" + d2;
    SeparatedSplitUnique(room1, d1, room2, d2, ":Z");
    IntStringInjective(zone1, zone2);
  }

  /** The state right after the hook mounts. */
  const Mounted := Narrator(false, true, None, None)

  /**
   * `speakNow` with the given content: with no content nothing happens;
   * otherwise a mounted hook starts playing and hands the text to the engine,
   * and when the engine throws, a mounted hook is marked not playing.
   */
  function Speak(s: Narrator, content: Option<string>, fails: bool): (r: Outcome)
    ensures r.spoken.Some? <==> content.Some? && s.isMounted && !fails
    ensures r.spoken.Some? ==> r.spoken == content
    ensures r.state.isPlaying == if content.Some? && s.isMounted then !fails else s.isPlaying
    ensures r.state.(isPlaying := s.isPlaying) == s
  {
    if content.None? then Outcome(s, None)
    else if fails then Outcome(if s.isMounted then s.(isPlaying := false) else s, None)
    else if s.isMounted then Outcome(s.(isPlaying := true), content)
    else Outcome(s, None)
  }

  /** `speakNow` as the latest render's button calls it: speaks the narration of its props. */
  function OnSpeakNow(museum: Museum, s: Narrator, fails: bool): (r: Outcome)
    requires s.rendered.Some?
    ensures r.spoken.Some? <==>
      s.isMounted && !fails && GetContent(museum, s.rendered.value.roomId, s.rendered.value.zone).Some?
    ensures r.spoken.Some? ==> r.spoken == GetContent(museum, s.rendered.value.roomId, s.rendered.value.zone)
    ensures r.state.lastSpokenKey == s.lastSpokenKey && r.state.rendered == s.rendered
    ensures r.state.isMounted == s.isMounted
    ensures r.state.isPlaying ==
      if GetContent(museum, s.rendered.value.roomId, s.rendered.value.zone).Some? && s.isMounted
      then !fails else s.isPlaying
  {
    var p := s.rendered.value;
    Speak(s, GetContent(museum, p.roomId, p.zone), fails)
  }

  /** `stop`: a mounted hook stops playing and forgets the last narration given. */
  function OnStop(s: Narrator): (r: Narrator)
    ensures s.isMounted ==> !r.isPlaying && r.lastSpokenKey.None?
    ensures r.isMounted == s.isMounted && r.rendered == s.rendered
    ensures !s.isMounted ==> r == s
  {
    if s.isMounted then s.(isPlaying := false, lastSpokenKey := None) else s
  }

  /** The engine's `onDone` or `onError` callback: a mounted hook is no longer playing. */
  function OnSpeechEnded(s: Narrator): (r: Narrator)
    ensures s.isMounted ==> !r.isPlaying
    ensures r.(isPlaying := s.isPlaying) == s
    ensures !s.isMounted ==> r == s
  {
    if s.isMounted then s.(isPlaying := false) else s
  }

  /** The unmount cleanup. */
  function OnUnmount(s: Narrator): (r: Narrator)
    ensures !r.isMounted && r.(isMounted := s.isMounted) == s
  {
    s.(isMounted := false)
  }

  /**
   * The auto-trigger effect for props `p`: when enabled and given a zone,
   * a zone whose key differs from the last one spoken becomes the last one
   * spoken and its narration is spoken.
   */
  function AutoTrigger(museum: Museum, s: Narrator, p: Props, fails: bool): (r: Outcome)
    ensures r.state.rendered == s.rendered && r.state.isMounted == s.isMounted
    ensures r.spoken.Some? ==>
      && p.enabled && p.zone.Some? && 1 <= p.zone.value <= 3
      && s.lastSpokenKey != Some(NarrationKey(p.roomId, p.zone.value))
      && r.spoken == GetContent(museum, p.roomId, p.zone)
    ensures p.enabled && HasZone(p.zone) ==> r.state.lastSpokenKey == Some(NarrationKey(p.roomId, p.zone.value))
    ensures !(p.enabled && HasZone(p.zone)) ==> r == Outcome(s, None)
    ensures p.enabled && HasZone(p.zone) && s.lastSpokenKey == Some(NarrationKey(p.roomId, p.zone.value)) ==>
      r == Outcome(s, None)
    ensures p.enabled && HasZone(p.zone) && s.lastSpokenKey != Some(NarrationKey(p.roomId, p.zone.value)) ==>
      var content := GetContent(museum, p.roomId, p.zone);
      && (r.spoken.Some? <==> content.Some? && s.isMounted && !fails)
      && r.state.isPlaying == (if content.Some? && s.isMounted then !fails else s.isPlaying)
  {
    if !p.enabled || !HasZone(p.zone) then Outcome(s, None)
    else
      var key := NarrationKey(p.roomId, p.zone.value);
      if s.lastSpokenKey == Some(key) then Outcome(s, None)
      else Speak(s.(lastSpokenKey := Some(key)), GetContent(museum, p.roomId, p.zone), fails)
  }

  /** A render with props `p`: the effect runs exactly when a dependency changed since the last render. */
  function OnRender(museum: Museum, s: Narrator, p: Props, fails: bool): (r: Outcome)
    ensures r.state.rendered == Some(p)
    ensures s.rendered == Some(p) ==> r == Outcome(s, None)
    ensures s.rendered != Some(p) ==> r == AutoTrigger(museum, s.(rendered := Some(p)), p, fails)
  {
    if s.rendered == Some(p) then Outcome(s, None)
    else AutoTrigger(museum, s.(rendered := Some(p)), p, fails)
  }

  /** Once a zone has been narrated, running the effect again for the same props stays silent and changes nothing. */
  lemma TriggerOnce(museum: Museum, s: Narrator, p: Props, fails1: bool, fails2: bool)
    ensures var first := AutoTrigger(museum, s, p, fails1);
      AutoTrigger(museum, first.state, p, fails2) == Outcome(first.state, None)
  {
  }

  /**
   * Entering a zone speaks its narration when the hook is mounted, enabled,
   * the engine works, the content has a narration for it, and it is not the
   * zone spoken last.
   */
  lemma EnteringZoneSpeaks(museum: Museum, s: Narrator, p: Props)
    requires s.isMounted && p.enabled && s.rendered != Some(p)
    requires GetContent(museum, p.roomId, p.zone).Some?
    requires s.lastSpokenKey != Some(NarrationKey(p.roomId, p.zone.value))
    ensures var r := OnRender(museum, s, p, false);
      r.spoken == GetContent(museum, p.roomId, p.zone) && r.state.isPlaying
  {
  }

  /**
   * Walking to another zone and back narrates the first zone again: the key
   * of the other zone replaces it as the last one spoken.
   */
  lemma ReturnToZoneSpeaksAgain(museum: Museum, s: Narrator, p: Props, q: Props, fails: bool)
    requires s.isMounted && p.enabled && q.enabled && p.roomId == q.roomId
    requires HasZone(q.zone) && p.zone != q.zone
    requires GetContent(museum, p.roomId, p.zone).Some?
    ensures var there := OnRender(museum, OnRender(museum, s, p, fails).state, q, fails).state;
      OnRender(museum, there, p, false).spoken == GetContent(museum, p.roomId, p.zone)
  {
    var there := OnRender(museum, OnRender(museum, s, p, fails).state, q, fails).state;
    assert there.lastSpokenKey == Some(NarrationKey(q.roomId, q.zone.value));
    if NarrationKey(p.roomId, p.zone.value) == NarrationKey(q.roomId, q.zone.value) {
      NarrationKeyInjective(p.roomId, p.zone.value, q.roomId, q.zone.value);
    }
  }

  /**
   * After `stop`, the same props do not restart the narration (the effect
   * does not run again), but the effect running for them does.
   */
  lemma StopThenTrigger(museum: Museum, s: Narrator, fails: bool)
    requires s.isMounted && s.rendered.Some? && s.rendered.value.enabled
    requires GetContent(museum, s.rendered.value.roomId, s.rendered.value.zone).Some?
    ensures var p, stopped := s.rendered.value, OnStop(s);
      && OnRender(museum, stopped, p, false).spoken.None?
      && AutoTrigger(museum, stopped, p, false).spoken == GetContent(museum, p.roomId, p.zone)
  {
  }

  /** Once unmounted, no event speaks or changes whether the hook reports playing. */
  lemma UnmountedIsSilent(museum: Museum, s: Narrator, p: Props, fails: bool)
    requires !s.isMounted
    ensures var r := OnRender(museum, s, p, fails);
      r.spoken.None? && r.state.isPlaying == s.isPlaying && !r.state.isMounted
    ensures s.rendered.Some? ==> OnSpeakNow(museum, s, fails) == Outcome(s, None)
    ensures OnStop(s) == s && OnSpeechEnded(s) == s
  {
  }

  /** The hook, whose state callbacks update in place. */
  class NarratorHook {
    const museum: Museum
    var isPlaying: bool
    var isMounted: bool
    var lastSpokenKey: Option<string>
    var rendered: Option<Props>

    function State(): Narrator
      reads this
    {
      Narrator(isPlaying, isMounted, lastSpokenKey, rendered)
    }

    constructor (museum: Museum)
      ensures this.museum == museum && State() == Mounted
    {
      this.museum := museum;
      isPlaying, isMounted, lastSpokenKey, rendered := false, true, None, None;
    }

    /** A render with props `p`, running the auto-trigger effect when a dependency changed. */
    method Render(p: Props, fails: bool) returns (spoken: Option<string>)
      modifies this
      ensures var r := OnRender(museum, old(State()), p, fails);
        State() == r.state && spoken == r.spoken
    {
      var wasRendered := rendered == Some(p);
      rendered := Some(p);
      spoken := None;
      if wasRendered || !p.enabled || !HasZone(p.zone) {
        return;
      }
      var key := NarrationKey(p.roomId, p.zone.value);
      if lastSpokenKey != Some(key) {
        lastSpokenKey := Some(key);
        spoken := SpeakNow(fails);
      }
    }

    /** `speakNow`, with the props of the latest render. */
    method SpeakNow(fails: bool) returns (spoken: Option<string>)
      requires rendered.Some?
      modifies this
      ensures var r := OnSpeakNow(museum, old(State()), fails);
        State() == r.state && spoken == r.spoken
    {
      var content := GetContent(museum, rendered.value.roomId, rendered.value.zone);
      spoken := None;
      if content.None? {
        return;
      }
      if fails {
        if isMounted {
          isPlaying := false;
        }
      } else if isMounted {
        isPlaying := true;
        spoken := content;
      }
    }

    method Stop()
      modifies this
      ensures State() == OnStop(old(State()))
    {
      if isMounted {
        isPlaying := false;
        lastSpokenKey := None;
      }
    }

    method SpeechEnded()
      modifies this
      ensures State() == OnSpeechEnded(old(State()))
    {
      if isMounted {
        isPlaying := false;
      }
    }

    method Unmount()
      modifies this
      ensures State() == OnUnmount(old(State()))
    {
      isMounted := false;
    }
  }
}
