/** The Windows backend (native-modules/windows-audio-controller.cpp): session
    enumeration over the default render endpoint's session manager, and
    SetVolume/SetMute routed by id. Every COM call is an input: a flag saying
    whether its HRESULT succeeded, together with what it handed back.
 */
module WindowsAudio {
  import opened Wrappers
  import opened Text
  import opened Sessions

  /** DWORD process ids; `unsigned long` is 32 bits wide under MSVC as well */
  const DwordModulus: nat := 0x1_0000_0000
  type Dword = n: nat | n < DwordModulus

  const SystemSoundsId := "system-sounds"
  const SystemSoundsName := "System Sounds"
  const UnknownName := "Unknown"

  datatype SessionState = Inactive | Active | Expired

  /** An HRESULT-returning getter: whether it succeeded, and the content of its
      out-parameter afterwards (whatever the uninitialised local held when it
      failed) */
  datatype Probe<T> = Probe(ok: bool, value: T)

  /** What the COM calls report about the session at one enumeration index */
  datatype SessionRecord = SessionRecord(
    control: bool,                 // GetSession succeeded
    control2: bool,                // the IAudioSessionControl2 query succeeded
    systemSounds: bool,            // IsSystemSoundsSession returned S_OK
    state: Option<SessionState>,   // GetState, None when it failed
    processId: Option<Dword>,      // GetProcessId, None when it failed
    displayName: Option<string>,   // GetDisplayName, None when it failed or gave null
    imagePath: Option<string>,     // OpenProcess and QueryFullProcessImageNameW, None when either failed
    volumeInterface: bool,         // the ISimpleAudioVolume query succeeded
    masterVolume: Probe<real>,     // GetMasterVolume, a scalar in [0, 1]
    mute: Probe<int>)              // GetMute, a BOOL

  /** The calls that reach the session list of the default render endpoint,
      and the sessions GetCount announces */
  datatype Endpoint = Endpoint(
    enumerator: bool,           // CoCreateInstance of the device enumerator
    defaultDevice: bool,        // GetDefaultAudioEndpoint
    sessionManager: bool,       // Activate of IAudioSessionManager2
    sessionEnumerator: bool,    // GetSessionEnumerator
    count: bool,                // GetCount
    sessions: seq<SessionRecord>)

  predicate ManagerReady(e: Endpoint) {
    e.enumerator && e.defaultDevice && e.sessionManager
  }

  predicate SessionsListed(e: Endpoint) {
    ManagerReady(e) && e.sessionEnumerator && e.count
  }

  /** Both session-control interfaces were obtained */
  predicate Readable(r: SessionRecord) {
    r.control && r.control2
  }

  predicate KnownInactive(r: SessionRecord) {
    r.state.Some? && r.state.value != Active
  }

  /** The conditions under which an application session is listed */
  predicate Admitted(r: SessionRecord) {
    && Readable(r)
    && !r.systemSounds
    && !KnownInactive(r)
    && r.processId.Some?
    && r.volumeInterface
    && r.masterVolume.ok
    && r.mute.ok
  }

  /** The executable's base name: the text after the last backslash of the
      image path, cut at its last dot; None when the path has no backslash */
  function ExecutableName(path: string): (r: Option<string>)
    ensures r.None? <==> '\\' !in path
    ensures r.Some? ==> '\\' !in r.value
  {
    match LastIndexOf(path, '\\')
    case None => None
    case Some(i) =>
      var file := path[i + 1..];
      match LastIndexOf(file, '.')
      case None => Some(file)
      case Some(j) =>
        assert forall k :: 0 <= k < j ==> file[..j][k] == file[k];
        Some(file[..j])
  }

  /** The name of an application session: its display name, and when that is
      missing, empty or "Unknown", the executable's base name if one can be
      derived */
  function SessionName(r: SessionRecord): (n: string)
    ensures r.displayName.Some? && r.displayName.value != "" && r.displayName.value != UnknownName ==>
      n == r.displayName.value
    ensures r.imagePath.None? || ExecutableName(r.imagePath.value).None? ==>
      n == r.displayName.GetOr(UnknownName)
    ensures
      && (r.displayName.None? || r.displayName.value == "" || r.displayName.value == UnknownName)
      && r.imagePath.Some? && ExecutableName(r.imagePath.value).Some?
      ==> n == ExecutableName(r.imagePath.value).value
  {
    var name := if r.displayName.Some? then r.displayName.value else UnknownName;
    if (name == UnknownName || name == "") && r.imagePath.Some? then
      ExecutableName(r.imagePath.value).GetOr(name)
    else name
  }

  /** What one pass of the enumeration loop appends for one index. The
      system-sounds session is appended whatever its volume interface does;
      when that interface or a read is missing, its volume and mute are
      indeterminate and the model reports the probes' contents. */
  function SessionOf(r: SessionRecord): (s: Option<AudioSession>)
    ensures s.Some? <==> Readable(r) && (r.systemSounds || Admitted(r))
    ensures s.Some? ==> (s.value.id == SystemSoundsId <==> r.systemSounds)
    ensures s.Some? && r.systemSounds ==>
      && s.value.name == SystemSoundsName
      && s.value.volume == r.masterVolume.value * 100.0
      && s.value.muted == (r.mute.value == 1)
    ensures s.Some? && !r.systemSounds ==>
      && s.value.id == ToDecimal(r.processId.value)
      && s.value.volume == r.masterVolume.value * 100.0
      && s.value.name == SessionName(r)
      && s.value.muted == (r.mute.value == 1)
  {
    if !Readable(r) then None
    else if r.systemSounds then
      Some(AudioSession(SystemSoundsId, SystemSoundsName, r.masterVolume.value * 100.0, r.mute.value == 1))
    else if KnownInactive(r) || r.processId.None? then None
    else if !r.volumeInterface || !r.masterVolume.ok || !r.mute.ok then None
    else
      assert ToDecimal(r.processId.value)[0] != 's';
      Some(AudioSession(ToDecimal(r.processId.value), SessionName(r), r.masterVolume.value * 100.0, r.mute.value == 1))
  }

  /** The enumeration loop over indices 0 .. count-1 */
  function Collect(rs: seq<SessionRecord>): (r: seq<AudioSession>)
    ensures |r| <= |rs|
    ensures forall s :: s in r ==> s.id == SystemSoundsId || IsDecimal(s.id)
  {
    if |rs| == 0 then []
    else
      var last := match SessionOf(rs[|rs| - 1]) case Some(s) => [s] case None => [];
      Collect(rs[..|rs| - 1]) + last
  }

  /** GetAudioSessions: every session admitted by the loop, or nothing when the
      session list cannot be reached */
  function GetAudioSessions(e: Endpoint): (r: seq<AudioSession>)
    ensures !SessionsListed(e) ==> r == []
    ensures |r| <= |e.sessions|
    ensures forall s :: s in r ==> s.id == SystemSoundsId || IsDecimal(s.id)
    ensures SessionsListed(e) ==> r == Collect(e.sessions)
  {
    if SessionsListed(e) then Collect(e.sessions) else []
  }

  /** The enumeration indices that contribute a session, in increasing order */
  function Contributors(rs: seq<SessionRecord>): seq<nat> {
    if |rs| == 0 then []
    else Contributors(rs[..|rs| - 1]) + (if SessionOf(rs[|rs| - 1]).Some? then [|rs| - 1] else [])
  }

  /** The k-th listed session is the one contributed by the k-th contributing
      index; contributing indices strictly increase, so each index gives at
      most one session and enumeration order is kept; and an index
      contributes exactly when its record yields a session. */
  lemma {:induction false} CollectFollowsEnumerationOrder(rs: seq<SessionRecord>)
    ensures |Collect(rs)| == |Contributors(rs)|
    ensures forall k :: 0 <= k < |Contributors(rs)| ==>
      Contributors(rs)[k] < |rs| && SessionOf(rs[Contributors(rs)[k]]) == Some(Collect(rs)[k])
    ensures forall k, l :: 0 <= k < l < |Contributors(rs)| ==> Contributors(rs)[k] < Contributors(rs)[l]
    ensures forall i :: 0 <= i < |rs| ==> (SessionOf(rs[i]).Some? <==> i in Contributors(rs))
  {
    if |rs| > 0 {
      var init := rs[..|rs| - 1];
      CollectFollowsEnumerationOrder(init);
      assert forall i :: 0 <= i < |init| ==> init[i] == rs[i];
    }
  }

  /** The call a set operation makes: the setter invoked on the session at an
      enumeration index, with its argument */
  datatype Call<T> = Call(session: nat, argument: T)


  predicate SystemSoundsTarget(r: SessionRecord) {
    Readable(r) && r.systemSounds && r.volumeInterface
  }

  predicate CarriesPid(r: SessionRecord, pid: nat) {
    Readable(r) && r.processId == Some(pid)
  }

  /** The routing SetVolume and SetMute share once the session manager is up.
      "system-sounds" acts on the first system-sounds session whose volume
      interface is obtained; any other id is read by `std::stoul` and acts on
      the first session with that pid, failing if that one session's volume
      interface is missing. `succeeded` is the setter's HRESULT. */
  function ApplyToSession<T>(e: Endpoint, id: string, argument: T, succeeded: bool): (r: SetOutcome<Call<T>>)
    ensures r.Threw? <==> ManagerReady(e) && id != SystemSoundsId && Stoul(id, DwordModulus).Err?
    ensures r.Returned? ==> (r.ok <==> r.request.Some? && succeeded)
    ensures r.Returned? && r.request.Some? ==>
      && SessionsListed(e)
      && r.request.value.argument == argument
      && r.request.value.session < |e.sessions|
    ensures r.Returned? && r.request.Some? && id == SystemSoundsId ==>
      && SystemSoundsTarget(e.sessions[r.request.value.session])
      && forall i :: 0 <= i < r.request.value.session ==> !SystemSoundsTarget(e.sessions[i])
    ensures r.Returned? && r.request.Some? && id != SystemSoundsId ==>
      && CarriesPid(e.sessions[r.request.value.session], Stoul(id, DwordModulus).value)
      && e.sessions[r.request.value.session].volumeInterface
      && forall i :: 0 <= i < r.request.value.session ==> !CarriesPid(e.sessions[i], Stoul(id, DwordModulus).value)
    ensures id == SystemSoundsId ==>
      (r.Returned? && r.request.Some? <==> SessionsListed(e) && exists i :: 0 <= i < |e.sessions| && SystemSoundsTarget(e.sessions[i]))
    ensures id != SystemSoundsId && SessionsListed(e) && Stoul(id, DwordModulus).Ok? ==>
      var pid := Stoul(id, DwordModulus).value;
      forall i ::
        && 0 <= i < |e.sessions| && CarriesPid(e.sessions[i], pid)
        && (forall j :: 0 <= j < i ==> !CarriesPid(e.sessions[j], pid))
        ==> r == (if e.sessions[i].volumeInterface then Returned(succeeded, Some(Call(i, argument))) else Returned(false, None))
    ensures
      && id != SystemSoundsId && Stoul(id, DwordModulus).Ok?
      && (forall i :: 0 <= i < |e.sessions| ==> !CarriesPid(e.sessions[i], Stoul(id, DwordModulus).value))
      ==> r == Returned(false, None)
  {
    if !ManagerReady(e) then Returned(false, None)
    else if id == SystemSoundsId then
      if !e.sessionEnumerator || !e.count then Returned(false, None)
      else
        match FirstMatch(e.sessions, SystemSoundsTarget)
        case None => Returned(false, None)
        case Some(i) => Returned(succeeded, Some(Call(i, argument)))
    else
      match Stoul(id, DwordModulus)
      case Err(error) => Threw(error)
      case Ok(pid) =>
        if !e.sessionEnumerator || !e.count then Returned(false, None)
        else
          match FirstMatch(e.sessions, r => CarriesPid(r, pid))
          case None => Returned(false, None)
          case Some(i) =>
            if !e.sessions[i].volumeInterface then Returned(false, None)
            else Returned(succeeded, Some(Call(i, argument)))
  }

  /** SetVolume: a percentage outside [0, 100] is refused before any COM call;
      otherwise the session found by the routing gets volume / 100 */
  function SetVolume(e: Endpoint, id: string, volume: real, succeeded: bool): (r: SetOutcome<Call<real>>)
    ensures volume < 0.0 || volume > 100.0 ==> r == Returned(false, None)
    ensures r.Returned? && r.request.Some? ==>
      0.0 <= r.request.value.argument <= 1.0 && r.request.value.argument * 100.0 == volume
    ensures 0.0 <= volume <= 100.0 ==> r.Threw? == (ManagerReady(e) && id != SystemSoundsId && Stoul(id, DwordModulus).Err?)
    ensures 0.0 <= volume <= 100.0 ==> r == ApplyToSession(e, id, volume / 100.0, succeeded)
  {
    if volume < 0.0 || volume > 100.0 then Returned(false, None)
    else ApplyToSession(e, id, volume / 100.0, succeeded)
  }

  /** SetMute: no range check; the session found by the routing gets `mute` */
  function SetMute(e: Endpoint, id: string, mute: bool, succeeded: bool): (r: SetOutcome<Call<bool>>)
    ensures r.Returned? && r.request.Some? ==> r.request.value.argument == mute
    ensures r.Returned? ==> (r.ok <==> r.request.Some? && succeeded)
    ensures r.Threw? <==> ManagerReady(e) && id != SystemSoundsId && Stoul(id, DwordModulus).Err?
    ensures r == ApplyToSession(e, id, mute, succeeded)
  {
    ApplyToSession(e, id, mute, succeeded)
  }

  /** An id listed for an application session never throws when handed back:
      it reaches the first readable session carrying the same pid, which is
      never later than the listed one, and is the listed one itself when no
      earlier session carries that pid. */
  lemma EnumeratedIdRoutesBack<T>(e: Endpoint, j: nat, argument: T, succeeded: bool)
    requires SessionsListed(e) && j < |e.sessions|
    requires SessionOf(e.sessions[j]).Some? && !e.sessions[j].systemSounds
    ensures var r := ApplyToSession(e, SessionOf(e.sessions[j]).value.id, argument, succeeded);
      && r.Returned?
      && (r.request.Some? ==>
            r.request.value.session <= j && e.sessions[r.request.value.session].processId == e.sessions[j].processId)
      && ((forall i :: 0 <= i < j ==> !CarriesPid(e.sessions[i], e.sessions[j].processId.value)) ==>
            r == Returned(succeeded, Some(Call(j, argument))))
  {
    var pid := e.sessions[j].processId.value;
    StoulOfToDecimal(pid, DwordModulus);
    assert CarriesPid(e.sessions[j], pid);
  }

  /** A numeric id no readable session carries fails without a setter call */
  lemma UnknownPidFails<T>(e: Endpoint, pid: Dword, argument: T, succeeded: bool)
    requires forall i :: 0 <= i < |e.sessions| ==> !CarriesPid(e.sessions[i], pid)
    ensures ApplyToSession(e, ToDecimal(pid), argument, succeeded) == Returned(false, None)
  {
    StoulOfToDecimal(pid, DwordModulus);
    assert ToDecimal(pid)[0] != 's';
  }

  /** An id that is neither "system-sounds" nor starts like a number, such as
      "system-0", makes `std::stoul` throw once the session manager is up */
  lemma WordIdThrows<T>(e: Endpoint, id: string, argument: T, succeeded: bool)
    requires ManagerReady(e) && id != SystemSoundsId && |id| > 0
    requires !IsSpace(id[0]) && !IsDigit(id[0]) && id[0] != '+' && id[0] != '-'
    ensures ApplyToSession(e, id, argument, succeeded) == Threw(InvalidArgument)
  {
    StoulRejectsWord(id, DwordModulus);
  }

  /** Name fallback: a session without a usable display name whose image path
      is `dir\stem.ext` is named `stem` */
  lemma NameFromImagePath(r: SessionRecord, dir: string, stem: string, ext: string)
    requires r.displayName.None? || r.displayName == Some("") || r.displayName == Some(UnknownName)
    requires '\\' !in stem && '\\' !in ext && '.' !in ext
    requires r.imagePath == Some(dir + "\\" + stem + "." + ext)
    ensures SessionName(r) == stem
  {
    var path := dir + "\\" + stem + "." + ext;
    var file := stem + "." + ext;
    assert path == dir + ['\\'] + file;
    assert '\\' !in file;
    LastIndexOfSplit(dir, '\\', file);
    assert path[|dir| + 1..] == file;
    assert file == stem + ['.'] + ext;
    LastIndexOfSplit(stem, '.', ext);
    assert file[..|stem|] == stem;
  }

  /** Name fallback: an image path `dir\stem` whose file part has no dot
      gives the whole file part */
  lemma DotlessExecutableName(dir: string, stem: string)
    requires '\\' !in stem && '.' !in stem
    ensures ExecutableName(dir + "\\" + stem) == Some(stem)
  {
    var path := dir + "\\" + stem;
    assert path == dir + ['\\'] + stem;
    LastIndexOfSplit(dir, '\\', stem);
    assert path[|dir| + 1..] == stem;
  }
}
