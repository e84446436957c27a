/** The Linux backend (native-modules/linux-audio-controller.cpp) over
    PulseAudio: the context-state callback and connection, the sink and
    sink-input list callbacks, the two-stage enumeration, and SetVolume/SetMute
    routed by the "system-" id prefix. Every PulseAudio call is an input; each
    5-second wait is represented by the callbacks that ran before it returned.
 */
module PulseAudio {
  import opened Wrappers
  import opened Text
  import opened Sessions

  /** PA_VOLUME_NORM, the native full-scale volume */
  const VolumeNorm: nat := 0x10000

  /** `unsigned long` on LP64 Linux, which `std::stoul` returns */
  const ULongModulus: nat := 0x1_0000_0000_0000_0000
  const UInt32Modulus: nat := 0x1_0000_0000
  type UInt32 = n: nat | n < UInt32Modulus

  const SystemPrefix := "system-"
  const SystemOutputName := "System Output"
  const UnknownApplicationName := "Unknown Application"

  /** pa_context_state_t */
  datatype ContextState = Unconnected | Connecting | Authorizing | SettingName | Ready | Failed | Terminated

  predicate Ends(s: ContextState) {
    s == Failed || s == Terminated
  }

  /** The per-call state the callbacks write; handles, mutex and condition
      variable are left out */
  datatype PulseState = PulseState(ready: bool, sessions: seq<AudioSession>, operationDone: bool, success: bool)

  /** ContextStateCallback's effect on `ready` */
  function OnContextState(ready: bool, s: ContextState): (ready': bool)
    ensures s == Ready ==> ready'
    ensures Ends(s) ==> !ready'
    ensures s != Ready && !Ends(s) ==> ready' == ready
  {
    match s
    case Ready => true
    case Failed | Terminated => false
    case _ => ready
  }

  /** `ready` after the state callbacks `changes` ran, in order */
  function ReadyAfter(ready: bool, changes: seq<ContextState>): bool {
    if |changes| == 0 then ready
    else OnContextState(ReadyAfter(ready, changes[..|changes| - 1]), changes[|changes| - 1])
  }

  /** `ready` ends up true exactly when some READY is followed by no FAILED or
      TERMINATED, or it started true and none of those came at all */
  lemma {:induction false} ReadyAfterLastDecisive(ready: bool, changes: seq<ContextState>)
    ensures ReadyAfter(ready, changes) <==>
      || (exists i :: 0 <= i < |changes| && changes[i] == Ready && forall j :: i < j < |changes| ==> !Ends(changes[j]))
      || (ready && forall j :: 0 <= j < |changes| ==> !Ends(changes[j]))
  {
    if |changes| > 0 {
      var n := |changes| - 1;
      var init := changes[..n];
      ReadyAfterLastDecisive(ready, init);
      assert forall i :: 0 <= i < n ==> init[i] == changes[i];
      if changes[n] == Ready {
      } else if Ends(changes[n]) {
        assert !ReadyAfter(ready, changes);
      } else {
        if ReadyAfter(ready, changes) {
          if ReadyAfter(ready, init) && !(ready && forall j :: 0 <= j < n ==> !Ends(init[j])) {
            var i :| 0 <= i < n && init[i] == Ready && forall j :: i < j < n ==> !Ends(init[j]);
            assert changes[i] == Ready && forall j :: i < j < |changes| ==> !Ends(changes[j]);
          }
        } else {
          assert !ReadyAfter(ready, init);
          forall i | 0 <= i < |changes| && changes[i] == Ready
            ensures exists j :: i < j < |changes| && Ends(changes[j])
          {
            assert i < n;
            assert init[i] == Ready;
            var j :| i < j < n && Ends(init[j]);
            assert Ends(changes[j]);
          }
          if ready {
            var j :| 0 <= j < n && Ends(init[j]);
            assert Ends(changes[j]);
          }
        }
      }
    }
  }

  /** ConnectToPulseAudio: `refused` is pa_context_connect failing; `changes`
      are the state callbacks that ran before the wait for `ready` returned */
  function ConnectToPulseAudio(refused: bool, changes: seq<ContextState>): (ok: bool)
    ensures ok <==>
      !refused && (exists i :: 0 <= i < |changes| && changes[i] == Ready && forall j :: i < j < |changes| ==> !Ends(changes[j]))
  {
    ReadyAfterLastDecisive(false, changes);
    !refused && ReadyAfter(false, changes)
  }

  /** The inputs of CreatePulseState plus ConnectToPulseAudio: whether
      pa_mainloop_new gave a mainloop, whether pa_context_connect failed, and
      the state callbacks that ran during the wait */
  datatype Connection = Connection(mainloop: bool, refused: bool, changes: seq<ContextState>)

  /** What each operation does first: CreatePulseState gives no state when
      pa_mainloop_new fails, and otherwise the connection must become ready */
  function Acquire(c: Connection): (ok: bool)
    ensures ok <==>
      && c.mainloop
      && !c.refused
      && exists i :: 0 <= i < |c.changes| && c.changes[i] == Ready && forall j :: i < j < |c.changes| ==> !Ends(c.changes[j])
  {
    c.mainloop && ConnectToPulseAudio(c.refused, c.changes)
  }

  /** pa_sink_info: `averageVolume` is pa_cvolume_avg of its channel volumes */
  datatype SinkInfo = SinkInfo(index: UInt32, description: Option<string>, averageVolume: nat, mute: int)

  /** pa_sink_input_info: `applicationName` is present when the property list
      exists and yields a non-null application.name */
  datatype SinkInputInfo = SinkInputInfo(index: UInt32, applicationName: Option<string>, averageVolume: nat, mute: int)

  /** One invocation of a list callback: the info pointer and `eol` */
  datatype ListCallback<T> = ListCallback(info: Option<T>, eol: int)

  /** A native volume as a percentage of PA_VOLUME_NORM */
  function Percent(averageVolume: nat): (p: real)
    ensures p * VolumeNorm as real == averageVolume as real * 100.0
    ensures 0.0 <= p && (averageVolume <= VolumeNorm ==> p <= 100.0)
  {
    assert VolumeNorm as real == 65536.0;
    averageVolume as real * 100.0 / 65536.0
  }

  /** Which command path an id selects, with the index it recovers */
  datatype Target = Sink(index: UInt32) | SinkInput(index: UInt32)

  /** The routing SetVolume and SetMute share: an id starting with "system-" is
      a sink whose index is `std::stoul` of the rest, any other id is a sink
      input; the unsigned long is narrowed to uint32_t */
  function Route(id: string): (r: Result<Target, StoulError>)
    ensures r.Ok? ==> (r.value.Sink? <==> SystemPrefix <= id)
  {
    if SystemPrefix <= id then
      match Stoul(id[|SystemPrefix|..], ULongModulus)
      case Ok(n) => Ok(Sink(n % UInt32Modulus))
      case Err(e) => Err(e)
    else
      match Stoul(id, ULongModulus)
      case Ok(n) => Ok(SinkInput(n % UInt32Modulus))
      case Err(e) => Err(e)
  }

  /** An id with the "system-" prefix whose remainder `std::stoul` reads names
      the sink at that value narrowed to uint32_t */
  lemma RouteSink(id: string)
    requires SystemPrefix <= id && Stoul(id[|SystemPrefix|..], ULongModulus).Ok?
    ensures Route(id) == Ok(Sink(Stoul(id[|SystemPrefix|..], ULongModulus).value % UInt32Modulus))
  {
  }

  /** Narrowing a value that already fits in uint32_t keeps it */
  lemma NarrowingKeeps(n: UInt32)
    ensures n % UInt32Modulus == n
  {
  }

  /** "system-" followed by the decimal text of a sink index routes to that sink */
  lemma SinkIdRoutes(index: UInt32)
    ensures var id := SystemPrefix + ToDecimal(index);
      SystemPrefix <= id && IsDecimal(id[|SystemPrefix|..]) && Route(id) == Ok(Sink(index))
  {
    var digits := ToDecimal(index);
    var id := SystemPrefix + digits;
    assert SystemPrefix <= id;
    assert id[|SystemPrefix|..] == digits;
    StoulOfToDecimal(index, ULongModulus);
    assert Stoul(id[|SystemPrefix|..], ULongModulus) == Ok(index as nat);
    RouteSink(id);
    NarrowingKeeps(index);
  }

  /** The session SinkCallback builds; its id routes back to the same sink */
  function SinkSession(info: SinkInfo): (s: AudioSession)
    ensures s.id == SystemPrefix + ToDecimal(info.index)
    ensures SystemPrefix <= s.id && IsDecimal(s.id[|SystemPrefix|..])
    ensures Route(s.id) == Ok(Sink(info.index))
    ensures s.name == info.description.GetOr(SystemOutputName)
    ensures s.volume == Percent(info.averageVolume)
    ensures s.muted <==> info.mute == 1
  {
    SinkIdRoutes(info.index);
    AudioSession(SystemPrefix + ToDecimal(info.index), info.description.GetOr(SystemOutputName),
                 Percent(info.averageVolume), info.mute == 1)
  }

  /** The session SinkInputCallback builds; its id routes back to the same
      sink input */
  function SinkInputSession(info: SinkInputInfo): (s: AudioSession)
    ensures s.id == ToDecimal(info.index)
    ensures IsDecimal(s.id)
    ensures Route(s.id) == Ok(SinkInput(info.index))
    ensures s.name == info.applicationName.GetOr(UnknownApplicationName)
    ensures s.volume == Percent(info.averageVolume)
    ensures s.muted <==> info.mute == 1
  {
    var id := ToDecimal(info.index);
    assert !(SystemPrefix <= id) by { assert id[0] != 's'; }
    StoulOfToDecimal(info.index, ULongModulus);
    AudioSession(id, info.applicationName.GetOr(UnknownApplicationName), Percent(info.averageVolume), info.mute == 1)
  }

  /** SinkCallback and SinkInputCallback, which differ only in the session
      they build: end of list marks the operation done and appends nothing; an
      info record is appended; anything else changes nothing */
  function OnListItem<T>(st: PulseState, cb: ListCallback<T>, session: T -> AudioSession): (st': PulseState)
    ensures cb.eol > 0 ==> st' == st.(operationDone := true)
    ensures cb.eol <= 0 ==> st'.operationDone == st.operationDone && st'.ready == st.ready && st'.success == st.success
    ensures cb.eol <= 0 && cb.info.Some? ==> st'.sessions == st.sessions + [session(cb.info.value)]
    ensures cb.info.None? ==> st'.sessions == st.sessions
  {
    if cb.eol > 0 then st.(operationDone := true)
    else if cb.info.Some? then st.(sessions := st.sessions + [session(cb.info.value)])
    else st
  }

  function SinkCallback(st: PulseState, cb: ListCallback<SinkInfo>): (st': PulseState)
    ensures cb.eol > 0 ==> st' == st.(operationDone := true)
    ensures cb.eol <= 0 && cb.info.Some? ==> st' == st.(sessions := st.sessions + [SinkSession(cb.info.value)])
    ensures cb.eol <= 0 && cb.info.None? ==> st' == st
  {
    OnListItem(st, cb, SinkSession)
  }

  function SinkInputCallback(st: PulseState, cb: ListCallback<SinkInputInfo>): (st': PulseState)
    ensures cb.eol > 0 ==> st' == st.(operationDone := true)
    ensures cb.eol <= 0 && cb.info.Some? ==> st' == st.(sessions := st.sessions + [SinkInputSession(cb.info.value)])
    ensures cb.eol <= 0 && cb.info.None? ==> st' == st
  {
    OnListItem(st, cb, SinkInputSession)
  }

  /** The state after the callbacks `cbs` ran, in order */
  function Deliver<T>(st: PulseState, cbs: seq<ListCallback<T>>, session: T -> AudioSession): PulseState {
    if |cbs| == 0 then st
    else OnListItem(Deliver(st, cbs[..|cbs| - 1], session), cbs[|cbs| - 1], session)
  }

  /** The sessions a list of callbacks describes: one per non-final callback
      that carries an info record, in delivery order */
  function Listed<T>(cbs: seq<ListCallback<T>>, session: T -> AudioSession): seq<AudioSession> {
    if |cbs| == 0 then []
    else (if cbs[0].eol <= 0 && cbs[0].info.Some? then [session(cbs[0].info.value)] else []) + Listed(cbs[1..], session)
  }

  predicate EndOfList<T>(cbs: seq<ListCallback<T>>) {
    exists k :: 0 <= k < |cbs| && cbs[k].eol > 0
  }

  lemma {:induction false} ListedSnoc<T>(cbs: seq<ListCallback<T>>, cb: ListCallback<T>, session: T -> AudioSession)
    ensures Listed(cbs + [cb], session) ==
      Listed(cbs, session) + (if cb.eol <= 0 && cb.info.Some? then [session(cb.info.value)] else [])
  {
    if |cbs| > 0 {
      assert (cbs + [cb])[1..] == cbs[1..] + [cb];
      ListedSnoc(cbs[1..], cb, session);
    }
  }

  /** Delivering callbacks appends exactly the sessions they describe and marks
      the operation done exactly when one of them is end of list */
  lemma {:induction false} DeliverAppendsListed<T>(st: PulseState, cbs: seq<ListCallback<T>>, session: T -> AudioSession)
    ensures Deliver(st, cbs, session) ==
      st.(sessions := st.sessions + Listed(cbs, session), operationDone := st.operationDone || EndOfList(cbs))
  {
    if |cbs| == 0 {
      assert st.sessions + [] == st.sessions;
    } else {
      var n := |cbs| - 1;
      DeliverAppendsListed(st, cbs[..n], session);
      assert cbs == cbs[..n] + [cbs[n]];
      ListedSnoc(cbs[..n], cbs[n], session);
      assert EndOfList(cbs) <==> EndOfList(cbs[..n]) || cbs[n].eol > 0 by {
        assert forall k :: 0 <= k < n ==> cbs[..n][k] == cbs[k];
      }
    }
  }

  /** A list request: pa_context_get_*_info_list either returned null, or
      returned an operation during whose wait `delivered` ran */
  datatype Stage<T> = NullOperation | Issued(delivered: seq<ListCallback<T>>)

  /** The state right after a successful connection, once the session list is
      cleared and the completion flag armed */
  const Connected := PulseState(true, [], false, false)

  /** The sink stage: the state after its wait, or None when the request
      gave no operation or the wait timed out */
  function SinkStage(sinks: Stage<SinkInfo>): (r: Option<PulseState>)
    ensures r.Some? <==> sinks.Issued? && EndOfList(sinks.delivered)
    ensures r.Some? ==> r.value.sessions == Listed(sinks.delivered, SinkSession)
  {
    match sinks
    case NullOperation => None
    case Issued(cbs) =>
      DeliverAppendsListed(Connected, cbs, SinkSession);
      var st := Deliver(Connected, cbs, SinkSession);
      if st.operationDone then Some(st) else None
  }

  /** The sink-input stage after the completion flag is re-armed: the sessions
      collected so far, whether the request gave no operation, timed out or
      completed */
  function SinkInputStage(st: PulseState, inputs: Stage<SinkInputInfo>): (r: seq<AudioSession>)
    ensures inputs.NullOperation? ==> r == st.sessions
    ensures inputs.Issued? ==> r == st.sessions + Listed(inputs.delivered, SinkInputSession)
  {
    match inputs
    case NullOperation => st.sessions
    case Issued(cbs) =>
      DeliverAppendsListed(st.(operationDone := false), cbs, SinkInputSession);
      Deliver(st.(operationDone := false), cbs, SinkInputSession).sessions
  }

  /** GetAudioSessions: no connection, no sink operation or a sink wait that
      times out give nothing; after the sink stage, the sessions collected so
      far are returned whether or not the sink-input stage is issued or
      completes */
  function GetAudioSessions(c: Connection, sinks: Stage<SinkInfo>, inputs: Stage<SinkInputInfo>): (r: seq<AudioSession>)
    ensures !Acquire(c) || sinks.NullOperation? ==> r == []
    ensures sinks.Issued? && !EndOfList(sinks.delivered) ==> r == []
    ensures Acquire(c) && sinks.Issued? && EndOfList(sinks.delivered) && inputs.NullOperation? ==>
      r == Listed(sinks.delivered, SinkSession)
    ensures Acquire(c) && sinks.Issued? && EndOfList(sinks.delivered) && inputs.Issued? ==>
      r == Listed(sinks.delivered, SinkSession) + Listed(inputs.delivered, SinkInputSession)
  {
    if !Acquire(c) then []
    else
      match SinkStage(sinks)
      case None => []
      case Some(st) => SinkInputStage(st, inputs)
  }

  lemma {:induction false} ListedSinkIds(cbs: seq<ListCallback<SinkInfo>>)
    ensures forall s :: s in Listed(cbs, SinkSession) ==> SystemPrefix <= s.id && Route(s.id).Ok? && Route(s.id).value.Sink?
  {
    if |cbs| > 0 {
      ListedSinkIds(cbs[1..]);
    }
  }

  lemma {:induction false} ListedSinkInputIds(cbs: seq<ListCallback<SinkInputInfo>>)
    ensures forall s :: s in Listed(cbs, SinkInputSession) ==> IsDecimal(s.id) && Route(s.id).Ok? && Route(s.id).value.SinkInput?
  {
    if |cbs| > 0 {
      ListedSinkInputIds(cbs[1..]);
    }
  }

  /** No sink session comes after a sink-input session */
  predicate SinksFirst(r: seq<AudioSession>) {
    forall i, j :: 0 <= i < j < |r| && !(SystemPrefix <= r[i].id) ==> !(SystemPrefix <= r[j].id)
  }

  lemma SinksThenInputs(a: seq<AudioSession>, b: seq<AudioSession>)
    requires forall s :: s in a ==> SystemPrefix <= s.id
    requires forall s :: s in b ==> IsDecimal(s.id)
    ensures SinksFirst(a + b)
  {
    var r := a + b;
    forall i, j | 0 <= i < j < |r| && !(SystemPrefix <= r[i].id)
      ensures !(SystemPrefix <= r[j].id)
    {
      assert r[j] == b[j - |a|];
      assert r[j].id[0] != 's';
    }
  }

  /** Every enumerated id routes back without throwing (to a sink exactly when
      it carries the prefix), and sinks all come before sink inputs */
  lemma EnumeratedIdsPartition(c: Connection, sinks: Stage<SinkInfo>, inputs: Stage<SinkInputInfo>)
    ensures forall s :: s in GetAudioSessions(c, sinks, inputs) ==> Route(s.id).Ok?
    ensures SinksFirst(GetAudioSessions(c, sinks, inputs))
  {
    if Acquire(c) && sinks.Issued? && EndOfList(sinks.delivered) {
      var a := Listed(sinks.delivered, SinkSession);
      ListedSinkIds(sinks.delivered);
      if inputs.Issued? {
        var b := Listed(inputs.delivered, SinkInputSession);
        ListedSinkInputIds(inputs.delivered);
        SinksThenInputs(a, b);
      } else {
        SinksThenInputs(a, []);
        assert a + [] == a;
      }
    }
  }

  /** PA_CVOLUME with `channels` channels all at `v`, as pa_cvolume_set builds it */
  datatype CVolume = CVolume(channels: nat, values: seq<nat>)

  function UniformVolume(channels: nat, v: nat): (cv: CVolume)
    ensures cv.channels == channels && |cv.values| == channels
    ensures forall c :: 0 <= c < channels ==> cv.values[c] == v
  {
    CVolume(channels, seq(channels, _ => v))
  }

  /** A percentage converted to native volume by truncating the product */
  function NativeVolume(volume: real): (n: nat)
    requires 0.0 <= volume <= 100.0
    ensures n <= VolumeNorm
    ensures n as real <= volume / 100.0 * VolumeNorm as real < n as real + 1.0
  {
    (volume / 100.0 * VolumeNorm as real).Floor
  }

  /** The mutation request a set operation makes */
  datatype Command =
    | SetSinkVolume(sink: UInt32, volume: CVolume)
    | SetSinkInputVolume(input: UInt32, volume: CVolume)
    | SetSinkMute(sink: UInt32, mute: int)
    | SetSinkInputMute(input: UInt32, mute: int)

  /** The sink or sink input a request is addressed to */
  function Addressed(command: Command): Target {
    match command
    case SetSinkVolume(i, _) => Sink(i)
    case SetSinkInputVolume(i, _) => SinkInput(i)
    case SetSinkMute(i, _) => Sink(i)
    case SetSinkInputMute(i, _) => SinkInput(i)
  }

  /** How PulseAudio answers the request: whether it returned an operation, and
      the SuccessCallback arguments delivered before the wait returned */
  datatype Reply = Reply(operation: bool, delivered: seq<int>)

  /** SuccessCallback */
  function OnSuccess(st: PulseState, success: int): (st': PulseState)
    ensures st'.operationDone && (st'.success <==> success != 0)
    ensures st'.sessions == st.sessions && st'.ready == st.ready
  {
    st.(success := success != 0, operationDone := true)
  }

  function Settle(st: PulseState, delivered: seq<int>): PulseState {
    if |delivered| == 0 then st
    else OnSuccess(Settle(st, delivered[..|delivered| - 1]), delivered[|delivered| - 1])
  }

  /** The result of one mutation after its request: false for a null operation
      or a wait that times out, otherwise the flag SuccessCallback recorded */
  function Await(reply: Reply): (ok: bool)
    ensures ok <==> reply.operation && |reply.delivered| > 0 && reply.delivered[|reply.delivered| - 1] != 0
  {
    if !reply.operation then false
    else
      var st := Settle(Connected, reply.delivered);
      st.operationDone && st.success
  }

  /** SetVolume: a percentage outside [0, 100] is refused before connecting;
      otherwise the truncated native volume is written to two channels of the
      routed sink or sink input */
  function SetVolume(c: Connection, id: string, volume: real, reply: Reply): (r: SetOutcome<Command>)
    ensures volume < 0.0 || volume > 100.0 ==> r == Returned(false, None)
    ensures r.Returned? ==> (r.ok <==> r.request.Some? && Await(reply))
    ensures r.Returned? && r.request.Some? ==>
      (r.request.value.SetSinkVolume? || r.request.value.SetSinkInputVolume?) &&
      var cv := r.request.value.volume;
      && cv.channels == 2 && |cv.values| == 2 && cv.values[0] == cv.values[1]
      && cv.values[0] <= VolumeNorm
      && cv.values[0] as real <= volume / 100.0 * VolumeNorm as real < cv.values[0] as real + 1.0
    ensures r.Threw? <==> 0.0 <= volume <= 100.0 && Acquire(c) && Route(id).Err?
    ensures 0.0 <= volume <= 100.0 && !Acquire(c) ==> r == Returned(false, None)
    ensures 0.0 <= volume <= 100.0 && Acquire(c) && Route(id).Ok? ==>
      r.Returned? && r.request.Some? && Addressed(r.request.value) == Route(id).value
  {
    if volume < 0.0 || volume > 100.0 then Returned(false, None)
    else if !Acquire(c) then Returned(false, None)
    else
      var cv := UniformVolume(2, NativeVolume(volume));
      match Route(id)
      case Err(e) => Threw(e)
      case Ok(Sink(i)) => Returned(Await(reply), Some(SetSinkVolume(i, cv)))
      case Ok(SinkInput(i)) => Returned(Await(reply), Some(SetSinkInputVolume(i, cv)))
  }

  /** SetMute: no range check; the routed sink or sink input gets 1 or 0 */
  function SetMute(c: Connection, id: string, mute: bool, reply: Reply): (r: SetOutcome<Command>)
    ensures r.Returned? ==> (r.ok <==> r.request.Some? && Await(reply))
    ensures r.Returned? && r.request.Some? ==>
      (r.request.value.SetSinkMute? || r.request.value.SetSinkInputMute?) &&
      (r.request.value.mute == 1 <==> mute) && (r.request.value.mute == 0 <==> !mute)
    ensures r.Threw? <==> Acquire(c) && Route(id).Err?
    ensures !Acquire(c) ==> r == Returned(false, None)
    ensures Acquire(c) && Route(id).Ok? ==>
      r.Returned? && r.request.Some? && Addressed(r.request.value) == Route(id).value
  {
    if !Acquire(c) then Returned(false, None)
    else
      match Route(id)
      case Err(e) => Threw(e)
      case Ok(Sink(i)) => Returned(Await(reply), Some(SetSinkMute(i, if mute then 1 else 0)))
      case Ok(SinkInput(i)) => Returned(Await(reply), Some(SetSinkInputMute(i, if mute then 1 else 0)))
  }

  /** Handing back the id of a listed sink or sink input, once connected,
      makes the mute request for exactly that sink or sink input */
  lemma SessionIdsRouteBack(c: Connection, sink: SinkInfo, input: SinkInputInfo, mute: bool, reply: Reply)
    requires Acquire(c)
    ensures SetMute(c, SinkSession(sink).id, mute, reply) ==
      Returned(Await(reply), Some(SetSinkMute(sink.index, if mute then 1 else 0)))
    ensures SetMute(c, SinkInputSession(input).id, mute, reply) ==
      Returned(Await(reply), Some(SetSinkInputMute(input.index, if mute then 1 else 0)))
  {
  }

  /** Handing back the id of a listed sink or sink input, once connected, with
      a percentage in range, writes the truncated native volume to two
      channels of exactly that sink or sink input */
  lemma VolumeSessionIdsRouteBack(c: Connection, sink: SinkInfo, input: SinkInputInfo, volume: real, reply: Reply)
    requires Acquire(c) && 0.0 <= volume <= 100.0
    ensures SetVolume(c, SinkSession(sink).id, volume, reply) ==
      Returned(Await(reply), Some(SetSinkVolume(sink.index, UniformVolume(2, NativeVolume(volume)))))
    ensures SetVolume(c, SinkInputSession(input).id, volume, reply) ==
      Returned(Await(reply), Some(SetSinkInputVolume(input.index, UniformVolume(2, NativeVolume(volume)))))
  {
  }

  /** The Windows system-sounds id has the sink prefix but no index after it */
  lemma SystemSoundsIdThrows(c: Connection, mute: bool, reply: Reply)
    requires Acquire(c)
    ensures SetMute(c, "system-sounds", mute, reply) == Threw(InvalidArgument)
  {
    assert SystemPrefix <= "system-sounds";
    assert "system-sounds"[|SystemPrefix|..] == "sounds";
    StoulRejectsWord("sounds", ULongModulus);
  }

  /** An index that does not fit in uint32_t wraps: "system-4294967296" names
      sink 0 */
  lemma OversizedSinkIndexWraps()
    ensures Route("system-4294967296") == Ok(Sink(0))
  {
    var digits := "4294967296";
    assert "system-4294967296"[|SystemPrefix|..] == digits;
    assert DigitsValue(digits) == UInt32Modulus by {
      assert DigitsValue(digits[..1]) == 4 by { assert digits[..1][..0] == digits[..0]; }
      assert DigitsValue(digits[..2]) == 42 by { assert digits[..2][..1] == digits[..1]; }
      assert DigitsValue(digits[..3]) == 429 by { assert digits[..3][..2] == digits[..2]; }
      assert DigitsValue(digits[..4]) == 4294 by { assert digits[..4][..3] == digits[..3]; }
      assert DigitsValue(digits[..5]) == 42949 by { assert digits[..5][..4] == digits[..4]; }
      assert DigitsValue(digits[..6]) == 429496 by { assert digits[..6][..5] == digits[..5]; }
      assert DigitsValue(digits[..7]) == 4294967 by { assert digits[..7][..6] == digits[..6]; }
      assert DigitsValue(digits[..8]) == 42949672 by { assert digits[..8][..7] == digits[..7]; }
      assert DigitsValue(digits[..9]) == 429496729 by { assert digits[..9][..8] == digits[..8]; }
      assert DigitsValue(digits[..10]) == 4294967296 by { assert digits[..10][..9] == digits[..9]; }
      assert digits[..10] == digits;
    }
    StoulOfDecimal(digits, ULongModulus);
    RouteSink("system-4294967296");
  }
}
