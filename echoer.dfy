/**
 * The Echo unit (class Echoer): one MIDI input handle and a map from output
 * device id to target state.  Each operation is defined once as a transition
 * on an `EchoerState` value; the class `Echoer` performs the same operations
 * in place on its fields, and the MIDI callback and the destructor walk the
 * target map in ascending id order, as a range-for over `std::map` does.
 */
module Echo {
  import opened Winmm
  import opened MidiErrors
  import opened Ordering

  /** Echoer::MIDIOutDevice, with the focus fields that the newer revision adds. */
  datatype Target = Target(handle: DeviceId, muted: bool, focusMuted: bool, focusMutePath: string)

  /** The entry `m_midi_targets[id]` creates before midiOutOpen stores a handle in it. */
  function NewTarget(): Target
  {
    Target(INVALID_MIDI_ID, false, false, "")
  }

  /** What a transition produces: the new state, and the exception it raised if any. */
  datatype Step = Step(state: EchoerState, err: Option<MidiError>)

  /**
   * The fields of an Echoer: m_midi_id, whether m_midi_source is open,
   * m_is_echoing, and m_midi_targets.
   */
  datatype EchoerState = EchoerState(source: DeviceId, open: bool, echoing: bool, targets: map<DeviceId, Target>)
  {
    /** open(id) / the opening constructor: midiInOpen, then handleInputErr. */
    function OpenInput(id: DeviceId, res: MMResult): (s: Step)
      ensures s.err == HandleInputErr(res, id)
      ensures s.state == this.(source := id, open := open || s.err.None?)
    {
      Step(this.(source := id, open := open || res == MMSYSERR_NOERROR), HandleInputErr(res, id))
    }

    /** close(): midiInClose, then handleInputErr; the handle stays open when the close fails. */
    function CloseInput(res: MMResult): (s: Step)
      ensures s.err == HandleInputErr(res, source)
      ensures s.state == this.(open := open && s.err.Some?)
    {
      Step(this.(open := open && res != MMSYSERR_NOERROR), HandleInputErr(res, source))
    }

    /**
     * start(): m_is_echoing is set BEFORE midiInStart runs, so the flag is set
     * even when the call fails; the result goes through handleOutputErr.
     */
    function Start(res: MMResult): (s: Step)
      ensures s.state == this.(echoing := true)
      ensures s.err == HandleOutputErr(res, source)
    {
      Step(this.(echoing := true), HandleOutputErr(res, source))
    }

    /** stop(): m_is_echoing is cleared before midiInStop runs. */
    function Stop(res: MMResult): (s: Step)
      ensures s.state == this.(echoing := false)
      ensures s.err == HandleOutputErr(res, source)
    {
      Step(this.(echoing := false), HandleOutputErr(res, source))
    }

    /**
     * add(id): `m_midi_targets[id]` inserts a value-initialised entry (or
     * reuses an existing one), midiOutOpen writes its handle, and the entry is
     * erased again when the open failed.
     */
    function Add(id: DeviceId, res: MMResult): (s: Step)
      ensures s.err == HandleOutputErr(res, id)
      ensures s.state.(targets := targets) == this
      ensures id in s.state.targets <==> s.err.None?
      ensures forall k | k != id :: (k in s.state.targets <==> k in targets)
      ensures forall k | k != id && k in targets :: s.state.targets[k] == targets[k]
      ensures id in s.state.targets ==> s.state.targets[id].handle == id
      ensures id in s.state.targets && id !in targets ==>
        !s.state.targets[id].muted && !s.state.targets[id].focusMuted && s.state.targets[id].focusMutePath == ""
      ensures id in s.state.targets && id in targets ==>
        s.state.targets[id] == targets[id].(handle := id)
    {
      if res == MMSYSERR_NOERROR then
        var entry := if id in targets then targets[id] else NewTarget();
        Step(this.(targets := targets[id := entry.(handle := id)]), None)
      else
        Step(this.(targets := targets - {id}), HandleOutputErr(res, id))
    }

    /**
     * remove(id): nothing for an absent id; otherwise midiOutClose, whose
     * failure raises (through handleInputErr) before the erase, keeping the entry.
     */
    function Remove(id: DeviceId, res: MMResult): (s: Step)
      ensures id !in targets ==> s == Step(this, None)
      ensures id in targets ==> s.err == HandleInputErr(res, id)
      ensures s.state.(targets := targets) == this
      ensures s.state.targets == if id in targets && s.err.None? then targets - {id} else targets
    {
      if id in targets then
        if res == MMSYSERR_NOERROR then Step(this.(targets := targets - {id}), None)
        else Step(this, HandleInputErr(res, id))
      else Step(this, None)
    }

    /** setMute(id, state): asserts that id is a target, then writes its muted flag. */
    function SetMute(id: DeviceId, state: bool): (e: EchoerState)
      requires id in targets
      ensures e.(targets := targets) == this
      ensures e.targets.Keys == targets.Keys
      ensures e.targets[id] == targets[id].(muted := state)
      ensures forall k | k in targets && k != id :: e.targets[k] == targets[k]
    {
      this.(targets := targets[id := targets[id].(muted := state)])
    }

    /** focusSend(id, path): sets the focus-mute rule of an existing target. */
    function FocusSend(id: DeviceId, path: string): (e: EchoerState)
      requires id in targets
      ensures e.(targets := targets) == this
      ensures e.targets.Keys == targets.Keys
      ensures e.targets[id] == targets[id].(focusMutePath := path)
      ensures forall k | k in targets && k != id :: e.targets[k] == targets[k]
    {
      this.(targets := targets[id := targets[id].(focusMutePath := path)])
    }

    /** isMuted(id), with the `return` that line 89 of the header misses. */
    function IsMuted(id: DeviceId): bool
      requires id in targets
    {
      targets[id].muted
    }
  }

  /** The state of an Echoer built by the default constructor: nothing open. */
  function Unopened(): EchoerState
  {
    EchoerState(INVALID_MIDI_ID, false, false, map[])
  }

  lemma SetMuteThenIsMuted(e: EchoerState, id: DeviceId, state: bool, other: DeviceId)
    requires id in e.targets && other in e.targets && other != id
    ensures e.SetMute(id, state).IsMuted(id) == state
    ensures e.SetMute(id, state).IsMuted(other) == e.IsMuted(other)
  {
  }

  /** add on a fresh id followed by remove of the same id restores the target map. */
  lemma AddThenRemove(e: EchoerState, id: DeviceId, closeRes: MMResult)
    requires id !in e.targets && closeRes == MMSYSERR_NOERROR
    ensures e.Add(id, MMSYSERR_NOERROR).state.Remove(id, closeRes) == Step(e, None)
  {
    var a := e.Add(id, MMSYSERR_NOERROR).state;
    assert a.targets - {id} == e.targets;
  }

  /** A failed add never leaves the id behind, even when the id was a target before. */
  lemma FailedAddDropsEntry(e: EchoerState, id: DeviceId, res: MMResult)
    requires res != MMSYSERR_NOERROR
    ensures id !in e.Add(id, res).state.targets
    ensures e.Add(id, res).err.Some?
  {
  }

  // ---------------------------------------------------------------- visiting targets in id order

  /** The outcome of a loop that calls the subsystem once per visited id. */
  datatype Delivery = Delivery(attempted: seq<DeviceId>, err: Option<MidiError>)

  /** The ids of `ids`, in order, that lie in `pick`. */
  function Filter(ids: seq<DeviceId>, pick: set<DeviceId>): (r: seq<DeviceId>)
    decreases |ids|
  {
    if ids == [] then []
    else
      var r0 := Filter(ids[..|ids| - 1], pick);
      if ids[|ids| - 1] in pick then r0 + [ids[|ids| - 1]] else r0
  }

  /**
   * A loop over `ids` that calls the subsystem for each id in `pick` and
   * raises (through handleOutputErr) on the first failing call, ending the loop.
   */
  function Visit(ids: seq<DeviceId>, pick: set<DeviceId>, res: DeviceId -> MMResult): Delivery
    decreases |ids|
  {
    if ids == [] then Delivery([], None)
    else
      var d0 := Visit(ids[..|ids| - 1], pick, res);
      var id := ids[|ids| - 1];
      if d0.err.Some? || id !in pick then d0
      else Delivery(d0.attempted + [id], HandleOutputErr(res(id), id))
  }

  lemma {:induction false} FilterMembers(ids: seq<DeviceId>, pick: set<DeviceId>)
    ensures forall x :: x in Filter(ids, pick) <==> x in ids && x in pick
    decreases |ids|
  {
    if ids != [] {
      var init := ids[..|ids| - 1];
      FilterMembers(init, pick);
      assert ids == init + [ids[|ids| - 1]];
    }
  }

  lemma {:induction false} FilterAscending(ids: seq<DeviceId>, pick: set<DeviceId>)
    requires forall i, j | 0 <= i < j < |ids| :: ids[i] < ids[j]
    ensures forall i, j | 0 <= i < j < |Filter(ids, pick)| :: Filter(ids, pick)[i] < Filter(ids, pick)[j]
    decreases |ids|
  {
    if ids != [] {
      var init := ids[..|ids| - 1];
      FilterAscending(init, pick);
      FilterMembers(init, pick);
      var r0 := Filter(init, pick);
      forall k | 0 <= k < |r0| ensures r0[k] < ids[|ids| - 1] {
        assert r0[k] in init;
      }
    }
  }

  /** A pass that raised did so on its last attempt: the error is that call's classified result. */
  predicate RaisedByLast(d: Delivery, res: DeviceId -> MMResult)
  {
    d.err.Some? ==>
      |d.attempted| > 0 &&
      d.err == HandleOutputErr(res(d.attempted[|d.attempted| - 1]), d.attempted[|d.attempted| - 1])
  }

  /**
   * Characterisation of Visit: the attempted ids are a prefix of the picked
   * ids; without an error every picked id was attempted and every call
   * succeeded; with an error, every call but the last succeeded and the error
   * is the classified result of the last one.
   */
  lemma {:induction false} VisitOutcome(ids: seq<DeviceId>, pick: set<DeviceId>, res: DeviceId -> MMResult)
    ensures var d := Visit(ids, pick, res);
      && |d.attempted| <= |Filter(ids, pick)|
      && d.attempted == Filter(ids, pick)[..|d.attempted|]
      && (d.err.None? ==> d.attempted == Filter(ids, pick))
      && (forall k | 0 <= k < |d.attempted| && (d.err.None? || k < |d.attempted| - 1) ::
            res(d.attempted[k]) == MMSYSERR_NOERROR)
      && RaisedByLast(d, res)
    decreases |ids|
  {
    if ids != [] {
      var init := ids[..|ids| - 1];
      VisitOutcome(init, pick, res);
      var d0 := Visit(init, pick, res);
      var f0 := Filter(init, pick);
      if d0.err.None? && ids[|ids| - 1] in pick {
        assert Filter(ids, pick) == f0 + [ids[|ids| - 1]];
        assert Visit(ids, pick, res).attempted == f0 + [ids[|ids| - 1]];
      } else if d0.err.Some? {
        var f := Filter(ids, pick);
        assert f[..|f0|] == f0 by {
          if ids[|ids| - 1] in pick { assert f == f0 + [ids[|ids| - 1]]; }
        }
        assert f[..|d0.attempted|] == f0[..|d0.attempted|];
      }
    }
  }

  /** One more loop iteration: Visit over a prefix extended by one id. */
  lemma VisitSnoc(ids: seq<DeviceId>, i: nat, pick: set<DeviceId>, res: DeviceId -> MMResult)
    requires i < |ids|
    ensures Visit(ids[..i + 1], pick, res) ==
      var d0 := Visit(ids[..i], pick, res);
      if d0.err.Some? || ids[i] !in pick then d0
      else Delivery(d0.attempted + [ids[i]], HandleOutputErr(res(ids[i]), ids[i]))
  {
    assert ids[..i + 1][..i] == ids[..i];
  }

  /** Once the loop has raised, the ids after that point change nothing. */
  lemma {:induction false} VisitStopsAtError(ids: seq<DeviceId>, i: nat, pick: set<DeviceId>, res: DeviceId -> MMResult)
    requires i <= |ids| && Visit(ids[..i], pick, res).err.Some?
    ensures Visit(ids, pick, res) == Visit(ids[..i], pick, res)
    decreases |ids| - i
  {
    if i < |ids| {
      VisitSnoc(ids, i, pick, res);
      VisitStopsAtError(ids, i + 1, pick, res);
    } else {
      assert ids[..i] == ids;
    }
  }

  /** The ids of the targets the callback sends to: those not muted. */
  function Unmuted(targets: map<DeviceId, Target>): (s: set<DeviceId>)
    ensures forall id :: id in s <==> id in targets && !targets[id].muted
  {
    set id | id in targets && !targets[id].muted
  }

  /**
   * The destructor as a transition: stop when echoing, close the input, then
   * close every target handle in id order; the first error raised ends it.
   */
  datatype Teardown = Teardown(state: EchoerState, closed: seq<DeviceId>, err: Option<MidiError>)

  function Destroyed(e: EchoerState, stopRes: MMResult, closeInRes: MMResult, closeOutRes: DeviceId -> MMResult): Teardown
  {
    var s := if e.echoing then e.Stop(stopRes) else Step(e, None);
    if s.err.Some? then Teardown(s.state, [], s.err)
    else
      var c := s.state.CloseInput(closeInRes);
      if c.err.Some? then Teardown(c.state, [], c.err)
      else
        var d := Visit(SortedIds(e.targets.Keys), e.targets.Keys, closeOutRes);
        Teardown(c.state, d.attempted, d.err)
  }

  /**
   * Teardown order: a failing stop or input close releases no target;
   * otherwise the targets are closed in ascending id order, each at most once,
   * and all of them when no close fails; the unit ends neither echoing nor open
   * when the input was closed.
   */
  lemma DestroyedOrder(e: EchoerState, stopRes: MMResult, closeInRes: MMResult, closeOutRes: DeviceId -> MMResult)
    ensures var t := Destroyed(e, stopRes, closeInRes, closeOutRes);
      && !t.state.echoing
      && t.state.targets == e.targets
      && (e.echoing && stopRes != MMSYSERR_NOERROR ==> t.closed == [] && t.err.Some?)
      && ((!e.echoing || stopRes == MMSYSERR_NOERROR) && closeInRes != MMSYSERR_NOERROR ==> t.closed == [] && t.err.Some?)
      && ((!e.echoing || stopRes == MMSYSERR_NOERROR) && closeInRes == MMSYSERR_NOERROR ==> !t.state.open)
      && (forall i, j | 0 <= i < j < |t.closed| :: t.closed[i] < t.closed[j])
      && (forall k | 0 <= k < |t.closed| :: t.closed[k] in e.targets)
      && (t.err.None? ==> forall id | id in e.targets :: id in t.closed)
  {
    var ids := SortedIds(e.targets.Keys);
    VisitFacts(ids, e.targets.Keys, closeOutRes);
  }

  // ---------------------------------------------------------------- the Echoer object

  /** Echoer: the same state held in fields that its methods update in place. */
  class Echoer {
    var source: DeviceId
    var isOpen: bool
    var isEchoing: bool
    var targets: map<DeviceId, Target>

    function State(): EchoerState
      reads this
    {
      EchoerState(source, isOpen, isEchoing, targets)
    }

    /**
     * Echoer(UINT source): opens the input at construction.  When `res` is an
     * error the C++ constructor throws HandleInputErr(res, source) and the
     * object is never used; here it is left unopened.
     */
    constructor (source: DeviceId, res: MMResult)
      ensures State() == Unopened().OpenInput(source, res).state
    {
      this.source := source;
      isOpen := res == MMSYSERR_NOERROR;
      isEchoing := false;
      targets := map[];
    }

    /** The default constructor of the newer revision: nothing is open yet. */
    constructor Closed()
      ensures State() == Unopened()
    {
      source := INVALID_MIDI_ID;
      isOpen := false;
      isEchoing := false;
      targets := map[];
    }

    method Open(id: DeviceId, res: MMResult) returns (err: Option<MidiError>)
      modifies this
      ensures Step(State(), err) == old(State()).OpenInput(id, res)
    {
      source := id;
      isOpen := isOpen || res == MMSYSERR_NOERROR;
      err := HandleInputErr(res, id);
    }

    method Close(res: MMResult) returns (err: Option<MidiError>)
      modifies this
      ensures Step(State(), err) == old(State()).CloseInput(res)
    {
      err := HandleInputErr(res, source);
      if err.None? {
        isOpen := false;
      }
    }

    method Start(res: MMResult) returns (err: Option<MidiError>)
      modifies this
      ensures Step(State(), err) == old(State()).Start(res)
    {
      isEchoing := true;
      err := HandleOutputErr(res, source);
    }

    method Stop(res: MMResult) returns (err: Option<MidiError>)
      modifies this
      ensures Step(State(), err) == old(State()).Stop(res)
    {
      isEchoing := false;
      err := HandleOutputErr(res, source);
    }

    /**
     * reset(): midiInReset on the input handle; no field changes, and the
     * result goes through handleOutputErr with the input's id.
     */
    method Reset(res: MMResult) returns (err: Option<MidiError>)
      ensures err.None? <==> res == MMSYSERR_NOERROR
      ensures err.Some? ==> err.value.deviceId == source && err.value.errCode == res
    {
      err := HandleOutputErr(res, source);
    }

    /**
     * add(id) returns `res == MMSYSERR_NOERROR`, but only after handleOutputErr
     * has thrown for every other code, so whenever it returns it returns true.
     */
    method Add(id: DeviceId, res: MMResult) returns (added: bool, err: Option<MidiError>)
      modifies this
      ensures Step(State(), err) == old(State()).Add(id, res)
      ensures err.None? ==> added
      ensures added <==> id in targets
    {
      var entry := if id in targets then targets[id] else NewTarget();
      targets := targets[id := entry.(handle := id)];
      if res != MMSYSERR_NOERROR {
        targets := targets - {id};
      }
      err := HandleOutputErr(res, id);
      added := res == MMSYSERR_NOERROR;
    }

    method Remove(id: DeviceId, res: MMResult) returns (err: Option<MidiError>)
      modifies this
      ensures Step(State(), err) == old(State()).Remove(id, res)
    {
      err := None;
      if id in targets {
        err := HandleInputErr(res, id);
        if err.None? {
          targets := targets - {id};
        }
      }
    }

    method SetMute(id: DeviceId, state: bool)
      requires id in targets
      modifies this
      ensures State() == old(State()).SetMute(id, state)
    {
      targets := targets[id := targets[id].(muted := state)];
    }

    method FocusSend(id: DeviceId, path: string)
      requires id in targets
      modifies this
      ensures State() == old(State()).FocusSend(id, path)
    {
      targets := targets[id := targets[id].(focusMutePath := path)];
    }

    /** isMuted(id). */
    function IsMuted(id: DeviceId): bool
      reads this
      requires id in targets
    {
      State().IsMuted(id)
    }

    /**
     * midiCallback: for each target in ascending id order, midiOutShortMsg to
     * every target that is not muted; the first failing send raises and ends
     * the pass.  It reads the targets and changes nothing.
     */
    method Callback(sendRes: DeviceId -> MMResult) returns (sent: seq<DeviceId>, err: Option<MidiError>)
      ensures Delivery(sent, err) == Visit(SortedIds(targets.Keys), Unmuted(targets), sendRes)
    {
      var ids := SortedIds(targets.Keys);
      ghost var pick := Unmuted(targets);
      sent, err := [], None;
      var i := 0;
      while i < |ids| && err.None?
        invariant 0 <= i <= |ids|
        invariant Delivery(sent, err) == Visit(ids[..i], pick, sendRes)
      {
        var id := ids[i];
        VisitSnoc(ids, i, pick, sendRes);
        assert id in pick <==> !targets[id].muted;
        if !targets[id].muted {
          sent := sent + [id];
          err := HandleOutputErr(sendRes(id), id);
        }
        i := i + 1;
      }
      if i < |ids| {
        VisitStopsAtError(ids, i, pick, sendRes);
      } else {
        assert ids[..i] == ids;
      }
    }

    /** The loop of the destructor that closes each target handle in id order. */
    method CloseTargets(closeRes: DeviceId -> MMResult) returns (closed: seq<DeviceId>, err: Option<MidiError>)
      ensures Delivery(closed, err) == Visit(SortedIds(targets.Keys), targets.Keys, closeRes)
      ensures forall i, j | 0 <= i < j < |closed| :: closed[i] < closed[j]
      ensures forall k | 0 <= k < |closed| :: closed[k] in targets
      ensures err.None? ==> forall id | id in targets :: id in closed
    {
      var ids := SortedIds(targets.Keys);
      closed, err := [], None;
      var i := 0;
      while i < |ids| && err.None?
        invariant 0 <= i <= |ids|
        invariant Delivery(closed, err) == Visit(ids[..i], targets.Keys, closeRes)
      {
        var id := ids[i];
        VisitSnoc(ids, i, targets.Keys, closeRes);
        closed := closed + [id];
        err := HandleOutputErr(closeRes(id), id);
        i := i + 1;
      }
      if i < |ids| {
        VisitStopsAtError(ids, i, targets.Keys, closeRes);
      } else {
        assert ids[..i] == ids;
      }
      VisitFacts(ids, targets.Keys, closeRes);
    }

    /** ~Echoer(): stop if echoing, close the input, close every target. */
    method Destroy(stopRes: MMResult, closeInRes: MMResult, closeOutRes: DeviceId -> MMResult)
      returns (closed: seq<DeviceId>, err: Option<MidiError>)
      modifies this
      ensures Teardown(State(), closed, err) == Destroyed(old(State()), stopRes, closeInRes, closeOutRes)
    {
      closed := [];
      if isEchoing {
        err := Stop(stopRes);
        if err.Some? {
          return;
        }
      }
      err := Close(closeInRes);
      if err.Some? {
        return;
      }
      closed, err := CloseTargets(closeOutRes);
    }
  }

  /**
   * What one callback pass delivers: only unmuted targets, in ascending id
   * order; every unmuted target when no send fails; and a failure is the
   * classified result of the last send attempted.
   */
  lemma FanOutFacts(targets: map<DeviceId, Target>, sendRes: DeviceId -> MMResult)
    ensures var d := Visit(SortedIds(targets.Keys), Unmuted(targets), sendRes);
      && (forall k | 0 <= k < |d.attempted| :: d.attempted[k] in targets && !targets[d.attempted[k]].muted)
      && (forall i, j | 0 <= i < j < |d.attempted| :: d.attempted[i] < d.attempted[j])
      && (d.err.None? ==> forall id | id in targets && !targets[id].muted :: id in d.attempted)
      && RaisedByLast(d, sendRes)
  {
    var ids := SortedIds(targets.Keys);
    var pick := Unmuted(targets);
    var d := Visit(ids, pick, sendRes);
    VisitFacts(ids, pick, sendRes);
    VisitCovers(ids, pick, sendRes);
    forall k | 0 <= k < |d.attempted| ensures d.attempted[k] in targets && !targets[d.attempted[k]].muted {
      assert d.attempted[k] in pick;
    }
    if d.err.None? {
      forall id | id in targets && !targets[id].muted ensures id in d.attempted {
        assert id in pick;
      }
    }
  }

  /** A pass that raises nothing reaches every picked id, when every picked id is listed. */
  lemma VisitCovers(ids: seq<DeviceId>, pick: set<DeviceId>, res: DeviceId -> MMResult)
    requires forall i, j | 0 <= i < j < |ids| :: ids[i] < ids[j]
    requires forall id | id in pick :: id in ids
    ensures var d := Visit(ids, pick, res);
      d.err.None? ==> forall id | id in pick :: id in d.attempted
  {
    VisitFacts(ids, pick, res);
  }

  /** The facts of VisitOutcome, restated element-wise for sorted ids. */
  lemma VisitFacts(ids: seq<DeviceId>, pick: set<DeviceId>, res: DeviceId -> MMResult)
    requires forall i, j | 0 <= i < j < |ids| :: ids[i] < ids[j]
    ensures var d := Visit(ids, pick, res);
      && (forall k | 0 <= k < |d.attempted| :: d.attempted[k] in ids && d.attempted[k] in pick)
      && (forall i, j | 0 <= i < j < |d.attempted| :: d.attempted[i] < d.attempted[j])
      && (d.err.None? ==> forall id | id in ids && id in pick :: id in d.attempted)
      && RaisedByLast(d, res)
  {
    VisitOutcome(ids, pick, res);
    FilterMembers(ids, pick);
    FilterAscending(ids, pick);
    var f := Filter(ids, pick);
    var d := Visit(ids, pick, res);
    forall k | 0 <= k < |d.attempted| ensures d.attempted[k] in ids && d.attempted[k] in pick {
      assert d.attempted[k] == f[k];
    }
    forall i, j | 0 <= i < j < |d.attempted| ensures d.attempted[i] < d.attempted[j] {
      assert d.attempted[i] == f[i] && d.attempted[j] == f[j];
    }
  }
}
