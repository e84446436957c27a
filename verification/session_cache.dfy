/** The Electron main process (main.js): `lastAudioSessions`, a map from id to
    the last session reported under it, driven by the periodic poll and by the
    renderer's `set-volume`, `toggle-mute` and `request-audio-sessions`
    messages. Each handler is a transition from the cache to a new cache plus
    the calls and messages it emits, in order.
 */
module SessionCache {
  import opened Sessions

  type Cache = map<string, AudioSession>

  /** Every entry is filed under its own id */
  predicate WellKeyed(cache: Cache) {
    forall k :: k in cache ==> cache[k].id == k
  }

  function Ids(sessions: seq<AudioSession>): set<string> {
    set s | s in sessions :: s.id
  }

  /** `updatedSessions`: each session filed under its id in list order, so a
      later session overwrites an earlier one with the same id */
  function Updated(sessions: seq<AudioSession>): (m: Cache)
    ensures m.Keys == Ids(sessions)
    ensures WellKeyed(m)
    ensures forall k :: k in m ==> m[k] in sessions
  {
    if |sessions| == 0 then map[]
    else
      var init := sessions[..|sessions| - 1];
      var last := sessions[|sessions| - 1];
      assert sessions == init + [last];
      assert Ids(sessions) == Ids(init) + {last.id};
      Updated(init)[last.id := last]
  }

  /** Among sessions sharing an id, the last one is kept */
  lemma {:induction false} LaterEntryWins(sessions: seq<AudioSession>, i: nat)
    requires i < |sessions|
    requires forall j :: i < j < |sessions| ==> sessions[j].id != sessions[i].id
    ensures Updated(sessions)[sessions[i].id] == sessions[i]
  {
    var n := |sessions| - 1;
    if i < n {
      LaterEntryWins(sessions[..n], i);
    }
  }

  /** `hasChanges` as the poll computes it: some listed id is not cached, or
      some cached id is not in `updatedSessions` */
  predicate HasChanges(cache: Cache, sessions: seq<AudioSession>) {
    || (exists s :: s in sessions && s.id !in cache)
    || (exists k :: k in cache && k !in Updated(sessions))
  }

  /** A change is detected exactly when the set of listed ids differs from the
      set of cached ids */
  lemma HasChangesIffIdsDiffer(cache: Cache, sessions: seq<AudioSession>)
    ensures HasChanges(cache, sessions) <==> Ids(sessions) != cache.Keys
  {
    if Ids(sessions) != cache.Keys {
      if !(Ids(sessions) <= cache.Keys) {
        var id :| id in Ids(sessions) && id !in cache.Keys;
        var s :| s in sessions && s.id == id;
      } else {
        var k :| k in cache.Keys && k !in Ids(sessions);
      }
    }
  }

  datatype Request =
    | Poll(sessions: seq<AudioSession>)   // the poll's getAudioSessions() returned
    | PollFailed                           // the poll's getAudioSessions() threw
    | SetVolume(id: string, volume: real)  // `set-volume`
    | ToggleMute(id: string)               // `toggle-mute`
    | RequestSessions                      // `request-audio-sessions`

  datatype Effect =
    | ControllerSetVolume(id: string, volume: real)    // audioController.setVolume
    | ControllerSetMute(id: string, muted: bool)       // audioController.setMute
    | SessionsUpdate(sessions: set<AudioSession>)      // `audio-sessions-update` with these values
    | MuteUpdated(id: string, muted: bool)             // `mute-updated`

  datatype Transition = Transition(cache: Cache, effects: seq<Effect>)

  /** sendAudioSessions: the cache is replaced, and an open window told, only
      when the set of ids changed; new volume, mute or name values under the
      same ids are not taken in */
  function SendAudioSessions(cache: Cache, windowOpen: bool, sessions: seq<AudioSession>): (t: Transition)
    ensures Ids(sessions) == cache.Keys ==> t == Transition(cache, [])
    ensures Ids(sessions) != cache.Keys ==> t.cache == Updated(sessions)
    ensures Ids(sessions) != cache.Keys ==>
      t.effects == if windowOpen then [SessionsUpdate(Updated(sessions).Values)] else []
  {
    HasChangesIffIdsDiffer(cache, sessions);
    if HasChanges(cache, sessions) then
      var updated := Updated(sessions);
      Transition(updated, if windowOpen then [SessionsUpdate(updated.Values)] else [])
    else Transition(cache, [])
  }

  /** `set-volume`: forwarded to the controller; the cache is untouched */
  function OnSetVolume(cache: Cache, id: string, volume: real): (t: Transition)
    ensures t.cache == cache && t.effects == [ControllerSetVolume(id, volume)]
  {
    Transition(cache, [ControllerSetVolume(id, volume)])
  }

  /** `toggle-mute`: for an uncached id nothing happens; otherwise the
      controller is asked for the opposite of the cached flag, the cache takes
      that flag whatever the controller reports, and the renderer is told */
  function OnToggleMute(cache: Cache, id: string): (t: Transition)
    ensures id !in cache ==> t == Transition(cache, [])
    ensures t.cache.Keys == cache.Keys
    ensures forall k :: k in cache && k != id ==> t.cache[k] == cache[k]
    ensures id in cache ==>
      && t.cache[id] == cache[id].(muted := !cache[id].muted)
      && t.effects == [ControllerSetMute(id, !cache[id].muted), MuteUpdated(id, !cache[id].muted)]
  {
    if id !in cache then Transition(cache, [])
    else
      var muted := !cache[id].muted;
      Transition(cache[id := cache[id].(muted := muted)], [ControllerSetMute(id, muted), MuteUpdated(id, muted)])
  }

  /** `request-audio-sessions`: the cached values are sent back as they are */
  function OnRequestSessions(cache: Cache): (t: Transition)
    ensures t.cache == cache && t.effects == [SessionsUpdate(cache.Values)]
  {
    Transition(cache, [SessionsUpdate(cache.Values)])
  }

  /** One event of the main process. A poll whose getAudioSessions() throws is
      caught and logged, leaving the cache and the renderer alone; the
      renderer is sent sessions unasked only while the window is open; only
      the two mutation messages call the controller's setVolume or setMute */
  function Step(cache: Cache, windowOpen: bool, request: Request): (t: Transition)
    ensures request.PollFailed? ==> t == Transition(cache, [])
    ensures request.Poll? && !windowOpen ==> forall e :: e in t.effects ==> !e.SessionsUpdate?
    ensures forall e :: e in t.effects && (e.ControllerSetVolume? || e.ControllerSetMute?) ==>
      request.SetVolume? || request.ToggleMute?
  {
    match request
    case Poll(sessions) => SendAudioSessions(cache, windowOpen, sessions)
    case PollFailed => Transition(cache, [])
    case SetVolume(id, volume) => OnSetVolume(cache, id, volume)
    case ToggleMute(id) => OnToggleMute(cache, id)
    case RequestSessions => OnRequestSessions(cache)
  }

  /** Every transition keeps each entry filed under its own id */
  lemma StepKeepsWellKeyed(cache: Cache, windowOpen: bool, request: Request)
    requires WellKeyed(cache)
    ensures WellKeyed(Step(cache, windowOpen, request).cache)
  {
  }

  /** Only a poll can change which ids are cached */
  lemma OnlyPollChangesIds(cache: Cache, windowOpen: bool, request: Request)
    requires !request.Poll?
    ensures Step(cache, windowOpen, request).cache.Keys == cache.Keys
  {
  }

  /** Two toggles of the same id restore the cache */
  lemma ToggleTwiceRestores(cache: Cache, id: string)
    ensures OnToggleMute(OnToggleMute(cache, id).cache, id).cache == cache
  {
    if id in cache {
      var once := OnToggleMute(cache, id).cache;
      assert once[id].(muted := !once[id].muted) == cache[id];
      assert once[id := cache[id]] == cache;
    }
  }

  /** After a toggle, a poll that lists the same ids keeps the toggled flag,
      whatever mute state the controller now reports */
  lemma ToggledFlagSurvivesPoll(cache: Cache, id: string, windowOpen: bool, sessions: seq<AudioSession>)
    requires id in cache && Ids(sessions) == cache.Keys
    ensures SendAudioSessions(OnToggleMute(cache, id).cache, windowOpen, sessions).cache[id].muted == !cache[id].muted
  {
  }
}
