# AmpCore audio control core, modelled in Dafny

AmpCore is an Electron mixer that lists the audio sessions of the machine and
changes their volume and mute state through a native module. There is one
module per platform. This project models the decision logic of that core and
proves properties of it. Every call into the operating system is an input to
the model.

- **Windows backend** (`windows_audio.dfy`, module `WindowsAudio`).
  Enumeration walks the sessions of the default render endpoint. Per session
  it decides whether to skip it, whether it is the `system-sounds` entry, and
  which name to use: the display name, or else the executable's base name. It
  builds the id from the process id. `SetVolume` and `SetMute` check the
  range (volume only), route the id (`"system-sounds"` or a `std::stoul`
  pid), and act on the first matching session. A COM call is a success flag
  plus the out-parameter it filled.
- **Linux backend** (`pulse_audio.dfy`, module `PulseAudio`). It models the
  PulseAudio context-state callback and the connection wait. The sink and
  sink-input list callbacks build sessions with ids `"system-<n>"` and
  `"<n>"`. Enumeration runs in two stages, and the outcome depends on each
  stage's result. Mutations route on the `"system-"` prefix, truncate the
  percentage to a native volume written to two channels, and turn the
  operation's outcome into a boolean. Each 5-second wait is represented by
  the callbacks that ran before it returned.
- **Session cache of the main process** (`session_cache.dfy`, module
  `SessionCache`). `lastAudioSessions` is a map from id to session. The poll
  and the three IPC handlers are transitions on it, and each also yields the
  calls and messages it emits.
- Shared pieces: `text.dfy` (module `Text`) models `std::to_string`,
  `std::stoul` (white space, sign, digit run, range), `wcsrchr` and
  first-match search. `sessions.dfy` (module `Sessions`) holds the session
  record and the outcome type of both backends' set operations, and `wrappers.dfy` (module `Wrappers`) the `Option` and `Result`
  types.

Behaviours of the code that a reader might not expect:

- A malformed id makes `std::stoul` throw. The exception is not turned into
  `false`. The model's outcome is `Threw`.
- On Linux, a sink-input wait that times out returns every session collected
  so far. That includes the sink inputs already delivered, not only the
  sinks.
- Linux converts a percentage to native volume by truncation, not rounding.
  Windows hands `volume / 100` to the setter unchanged.
- Linux names a sink input by its `application.name` property or
  `"Unknown Application"`. The longer name-fallback chain exists only on
  Windows.

Each Linux operation (after `SetVolume`'s range check) first creates its
PulseAudio state and connects. When `pa_mainloop_new` fails,
`CreatePulseState` returns null and the operation gives an empty list or
`false`; the same holds when the connection does not become ready. On the
main-process side, a poll whose `getAudioSessions()` throws is caught and
logged, and the cache and the renderer are left alone.

As written, the Linux backend drives a non-threaded mainloop that is never
iterated during its waits. No callback can run inside a wait, so every
connection wait times out. In the model this is the case where every
delivered-callback sequence is empty. `ConnectToPulseAudio` is then false,
and enumeration and mutation yield an empty list and `false`.

## Model

| member | source | states |
|---|---|---|
| Text.ToDecimal | native-modules/windows-audio-controller.cpp:197 | `std::to_string` of an unsigned value is a non-empty digit string with no leading zero unless the value is 0 |
| Text.Stoul | native-modules/windows-audio-controller.cpp:290 | `std::stoul` yields a value that fits the `unsigned long` width; it throws `invalid_argument` exactly when no digit follows the white space and sign |
| Text.StoulOfToDecimal | native-modules/linux-audio-controller.cpp:335 | `std::stoul` reads back `std::to_string(n)` as `n` for every `n` the `unsigned long` can hold |
| Text.StoulRejectsWord | native-modules/linux-audio-controller.cpp:319-320 | text starting with a letter (such as `sounds`) makes `std::stoul` throw `invalid_argument` |
| Text.LastIndexOf | native-modules/windows-audio-controller.cpp:160-164 | `wcsrchr` finds nothing exactly when the character is absent; otherwise it finds an occurrence with none after it |
| Text.LastIndexOfSplit | native-modules/windows-audio-controller.cpp:160-167 | in `a + c + b` with no `c` in `b`, `wcsrchr` finds the `c` right after `a` |
| Text.FirstMatch | native-modules/windows-audio-controller.cpp:307-336 | the loop stops at an index whose session matches, and no earlier session matches; with no hit, none matches |
| WindowsAudio.ExecutableName | native-modules/windows-audio-controller.cpp:158-170 | a base name is derived exactly when the image path has a backslash, and it contains no backslash |
| WindowsAudio.SessionName | native-modules/windows-audio-controller.cpp:143-174 | a present, non-empty display name other than `"Unknown"` is the name; otherwise the executable base name when one can be derived from the image path; otherwise the display name, or `"Unknown"` when there is none |
| WindowsAudio.DotlessExecutableName | native-modules/windows-audio-controller.cpp:160-169 | an image path `dir\stem` whose file part has no dot yields the whole file part `stem` |
| WindowsAudio.SessionOf | native-modules/windows-audio-controller.cpp:104-202 | an index gives a session exactly when both control interfaces are obtained and it is the system-sounds session (even with no volume interface) or it is not known inactive, its pid is read, and the volume interface, volume read and mute read all succeed; the id is `"system-sounds"` exactly for the system-sounds session, which is named `"System Sounds"`; any other id is the decimal pid, named by `SessionName`; every session has volume = raw × 100 and muted = (BOOL == 1) |
| WindowsAudio.Collect | native-modules/windows-audio-controller.cpp:91-203 | the loop yields at most one session per index, and every id is `"system-sounds"` or a pure decimal string |
| WindowsAudio.GetAudioSessions | native-modules/windows-audio-controller.cpp:42-205 | a failure to create the enumerator or to get the endpoint, session manager, session enumerator or count gives an empty list; otherwise the list is what the loop collects over every index, so `CollectFollowsEnumerationOrder` describes it |
| WindowsAudio.CollectFollowsEnumerationOrder | native-modules/windows-audio-controller.cpp:91-203 | the k-th listed session comes from the k-th contributing index; contributing indices strictly increase; an index contributes exactly when its record yields a session |
| WindowsAudio.ApplyToSession | native-modules/windows-audio-controller.cpp:250-338 | throws exactly when the session manager is up and an id other than `"system-sounds"` fails `std::stoul`; `"system-sounds"` acts on the first system-sounds session with a volume interface, and a setter call happens exactly when such a session exists; a numeric id goes to the first readable session carrying that pid: the setter is called on it when it has a volume interface, and otherwise the result is false with no call; when no readable session carries the pid, the result is false with no call; the result is true exactly when a setter was called and succeeded |
| WindowsAudio.SetVolume | native-modules/windows-audio-controller.cpp:209-339 | a volume outside [0, 100] gives false with no COM call whatever the system state; otherwise the routing of `ApplyToSession` applies, and the setter receives volume / 100, which lies in [0, 1] |
| WindowsAudio.SetMute | native-modules/windows-audio-controller.cpp:342-465 | no range check; the routing of `ApplyToSession` applies, so it throws exactly when the session manager is up and an id other than `"system-sounds"` fails `std::stoul`; any setter call receives the requested flag; the result is true exactly when a setter was called and succeeded |
| WindowsAudio.EnumeratedIdRoutesBack | native-modules/windows-audio-controller.cpp:290-335 | the id of a listed application session never throws when handed back; it reaches a session at the same or an earlier index with the same pid, and reaches that very session, passing on the setter's result, when no earlier session carries the pid |
| WindowsAudio.UnknownPidFails | native-modules/windows-audio-controller.cpp:307-338 | a numeric id that no readable session carries gives false with no setter call |
| WindowsAudio.WordIdThrows | native-modules/windows-audio-controller.cpp:290 | an id that starts with a letter and is not `"system-sounds"`, such as `"system-0"`, throws once the session manager is obtained |
| WindowsAudio.NameFromImagePath | native-modules/windows-audio-controller.cpp:152-174 | with no display name, an empty one or `"Unknown"`, and image path `dir\stem.ext`, the session is named `stem` |
| PulseAudio.OnContextState | native-modules/linux-audio-controller.cpp:127-143 | READY sets `ready`; FAILED and TERMINATED clear it; any other state leaves it unchanged |
| PulseAudio.ReadyAfterLastDecisive | native-modules/linux-audio-controller.cpp:127-143 | after a series of state callbacks, `ready` is true exactly when some READY has no FAILED or TERMINATED after it, or it started true and none of those came |
| PulseAudio.Acquire | native-modules/linux-audio-controller.cpp:97-112 | every operation starts with a usable connection exactly when `pa_mainloop_new` gave a mainloop, `pa_context_connect` did not fail, and a READY with no later FAILED or TERMINATED ran before the wait returned (the checks at linux-audio-controller.cpp:237-238, 304-305 and 382-383) |
| PulseAudio.ConnectToPulseAudio | native-modules/linux-audio-controller.cpp:146-160 | true exactly when `pa_context_connect` did not fail and a READY with no later FAILED or TERMINATED ran before the wait returned |
| PulseAudio.Percent | native-modules/linux-audio-controller.cpp:189-190 | a native volume scaled to percent of PA_VOLUME_NORM; non-negative, at most 100 up to full scale |
| PulseAudio.Route | native-modules/linux-audio-controller.cpp:318-335 | a routed id selects the sink path exactly when it starts with `"system-"` |
| PulseAudio.SinkSession | native-modules/linux-audio-controller.cpp:210-224 | a sink becomes id `"system-"` + `std::to_string(index)`, which routes back to that sink; named by its description or `"System Output"`; volume is `Percent` of its average; muted exactly when mute == 1 |
| PulseAudio.SinkInputSession | native-modules/linux-audio-controller.cpp:172-197 | a sink input becomes id `std::to_string(index)`, which routes back to that sink input; named by its application name or `"Unknown Application"`; volume is `Percent` of its average; muted exactly when mute == 1 |
| PulseAudio.OnListItem | native-modules/linux-audio-controller.cpp:201-225 | end of list (eol > 0) marks the operation done and appends nothing; otherwise an info record appends its session and leaves the flags alone |
| PulseAudio.SinkCallback | native-modules/linux-audio-controller.cpp:201-225 | end of list marks the operation done; otherwise an info record appends its sink session, and a null record changes nothing |
| PulseAudio.SinkInputCallback | native-modules/linux-audio-controller.cpp:163-198 | end of list marks the operation done; otherwise an info record appends its sink-input session, and a null record changes nothing |
| PulseAudio.DeliverAppendsListed | native-modules/linux-audio-controller.cpp:163-198 | a series of list callbacks appends exactly the sessions of its non-final info records, in order, and marks the operation done exactly when one of them is end of list |
| PulseAudio.SinkStage | native-modules/linux-audio-controller.cpp:245-264 | the sink stage goes on exactly when an operation was returned and end of list arrived before the wait returned; it then holds exactly the listed sinks |
| PulseAudio.SinkInputStage | native-modules/linux-audio-controller.cpp:266-295 | after the sink stage, a null sink-input operation returns the sinks; a timed-out or completed one returns the sinks followed by the sink inputs delivered |
| PulseAudio.GetAudioSessions | native-modules/linux-audio-controller.cpp:236-296 | no connection, a null sink operation or a sink timeout give an empty list; a null sink-input operation gives the sinks only; otherwise all listed sinks, then all delivered sink inputs |
| PulseAudio.EnumeratedIdsPartition | native-modules/linux-audio-controller.cpp:236-296 | every enumerated id routes back without throwing, and no sink follows a sink input in the result |
| PulseAudio.UniformVolume | native-modules/linux-audio-controller.cpp:323-324 | `pa_cvolume_set` gives the requested number of channels, all at the same value |
| PulseAudio.NativeVolume | native-modules/linux-audio-controller.cpp:313 | the native volume is the truncation of percent / 100 × PA_VOLUME_NORM and lies in [0, PA_VOLUME_NORM] |
| PulseAudio.OnSuccess | native-modules/linux-audio-controller.cpp:228-233 | the success callback marks the operation done and records whether its argument is non-zero |
| PulseAudio.Await | native-modules/linux-audio-controller.cpp:350-377 | a mutation reports true exactly when its operation was returned, a success callback ran before the wait returned, and the last one reported success |
| PulseAudio.SetVolume | native-modules/linux-audio-controller.cpp:299-378 | a volume outside [0, 100] gives false before connecting; an in-range call gives false with no request when the connection fails, throws exactly when the id is unparsable, and otherwise requests the sink or sink input the id routes to; the request writes the truncated native volume to 2 channels equally; true exactly when a request was made and `Await` holds |
| PulseAudio.SetMute | native-modules/linux-audio-controller.cpp:381-445 | no range check; gives false with no request when the connection fails, throws exactly when a connected call gets an unparsable id, and otherwise requests the sink or sink input the id routes to, with 1 for mute and 0 for unmute; true exactly when a request was made and `Await` holds |
| PulseAudio.SessionIdsRouteBack | native-modules/linux-audio-controller.cpp:393-414 | once connected, the id of a listed sink or sink input makes the mute request for exactly that sink or sink input |
| PulseAudio.VolumeSessionIdsRouteBack | native-modules/linux-audio-controller.cpp:313-347 | once connected and in range, the id of a listed sink or sink input makes the volume request for exactly that sink or sink input, with the truncated native volume on 2 channels |
| PulseAudio.SystemSoundsIdThrows | native-modules/linux-audio-controller.cpp:393-395 | the Windows id `"system-sounds"` takes the sink path and makes `std::stoul` throw |
| PulseAudio.OversizedSinkIndexWraps | native-modules/linux-audio-controller.cpp:318-320 | narrowing to `uint32_t` wraps `"system-4294967296"` to sink 0 |
| SessionCache.Updated | main.js:51-60 | `updatedSessions` has exactly the listed ids as keys; each entry is filed under its own id and is one of the listed sessions |
| SessionCache.LaterEntryWins | main.js:55-57 | among listed sessions with the same id, the last one is kept |
| SessionCache.HasChangesIffIdsDiffer | main.js:52-67 | `HasChanges`, the two loops as written (a listed id not cached, or a cached id missing from `updatedSessions`), holds exactly when the set of listed ids differs from the set of cached ids |
| SessionCache.SendAudioSessions | main.js:48-80 | when the id sets differ, the cache becomes `updatedSessions` and an open window gets its values; when they agree, the cache and the renderer are left alone, even if volume, mute or names changed |
| SessionCache.OnSetVolume | main.js:85-90 | `set-volume` calls the controller with the given id and volume and leaves the cache untouched |
| SessionCache.OnToggleMute | main.js:95-107 | an uncached id changes nothing and emits nothing; a cached id gets the negated flag, is sent to `setMute`, is stored whatever the controller reports, and is announced; no other entry or key changes |
| SessionCache.OnRequestSessions | main.js:112-115 | `request-audio-sessions` replies with exactly the cached values and changes nothing |
| SessionCache.Step | main.js:48-115 | a poll whose `getAudioSessions()` throws is caught at main.js:77-79 and leaves the cache and the renderer alone; a poll sends the renderer nothing while the window is closed; only `set-volume` and `toggle-mute` call the controller's `setVolume` or `setMute` |
| SessionCache.StepKeepsWellKeyed | main.js:48-115 | every handler keeps each cached entry filed under its own id |
| SessionCache.OnlyPollChangesIds | main.js:85-115 | no handler except the poll changes which ids are cached |
| SessionCache.ToggleTwiceRestores | main.js:100-103 | two toggles of the same id restore the cache |
| SessionCache.ToggledFlagSurvivesPoll | main.js:55-103 | after a toggle, a poll that lists the same ids keeps the toggled flag, whatever mute state the controller now reports |

## Left out

- COM, PulseAudio and N-API are not modelled as APIs. Each call is an input: a success flag, a null-or-not operation, or the callbacks that ran. The N-API wrappers and module registration (windows-audio-controller.cpp:468-526, linux-audio-controller.cpp:23-81) are left out. They are argument-type checks and object marshalling.
- `COMInitializer`: its `CoInitializeEx` result only decides whether `CoUninitialize` runs, so it is not modelled.
- Threads, the mutex and condition variable, and the 5-second timeouts are concurrency and are not modelled. Each wait is represented by the callbacks that ran before it returned. The model does not claim that any callback runs; the empty sequence gives the source's actual behaviour.
- `pa_mainloop_run` after a completed stage or mutation (linux-audio-controller.cpp:286-290, 368-372, 435-439) is left out. Nothing ever quits that loop. The model returns as if it came back with no further callbacks.
- OS handle lifetime is not modelled. That covers `CleanupPulseState`, `CoTaskMemFree`, `CloseHandle` and the operation references. The leaks are therefore not modelled either: cleanup is skipped when connecting fails and when `std::stoul` throws.
- `pa_context_new` returning null is not checked by the source, and the model does not represent it.
- Floating point: volumes are reals. Rounding of `volume * 100`, of the division by PA_VOLUME_NORM and of `pa_cvolume_avg` is not modelled. A NaN volume passes both range checks in the source; reals have no NaN.
- The conversion from `wstring` to `string` (windows-audio-controller.cpp:146, 169) is not modelled; names are plain character sequences.
- WindowsAudio.SessionOf: the system-sounds session's volume and mute are indeterminate in the source when its volume interface or a read fails. The model reports the probes' contents there too, so its volume and mute clauses cover that case only by this choice.
- SessionCache.OnToggleMute: the store and the `mute-updated` message are modelled as unconditional. In main.js:101-105 they follow `audioController.setMute`, which throws when `std::stoul` rejects the id (on Windows any id other than `"system-sounds"`, on Linux any id); then neither happens. Ids that either backend's enumeration produces never throw (`EnumeratedIdRoutesBack`, `EnumeratedIdsPartition`), but a `Poll` in the model may carry any id.
- Electron window lifecycle, `setInterval` polling, `setImmediate` deferral, IPC transport and logging (main.js:11-43, 118-119) are left out. Each deferred handler body runs as one step.
- SessionCache.SendAudioSessions and SessionCache.OnRequestSessions carry the set of session values. `Object.values` order is not modelled: integer-like keys ascending, then insertion order.
- Ids that name `Object.prototype` properties, such as `"constructor"`, are truthy in the source's cache lookups. The model's map lookups ignore them.
- The Linux file's compile defects are not modelled: the missing `;` at linux-audio-controller.cpp:20, and calls before declaration at lines 26, 53 and 68. The model follows the evident intent.
