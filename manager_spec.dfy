/**
 * The device registry of the EchoMIDI application (class EchoManager) as a
 * value: the input and output records keyed by device name, and every
 * registry operation as a function from one registry to the next.  The live
 * devices are a `Devices` snapshot; an exception raised part-way through an
 * operation ends it, keeping the changes made so far, as the C++ does.
 */
module ManagerSpec {
  import opened Winmm
  import opened MidiErrors
  import opened Ordering
  import opened Echo

  /**
   * The two revisions of EchoManager.cpp.  They differ in the mute value an
   * output that reconnects applies to an input it has no record for.
   */
  datatype Revision = Current | Legacy

  /** MidiInProps: availability, the requested echo state and the Echo unit (held by value). */
  datatype InProps = InProps(available: bool, echo: bool, echoer: EchoerState)

  /** MidiOutProps: availability and, per input name, the mute flag and the focus rule. */
  datatype OutProps = OutProps(available: bool, mute: map<string, bool>, focusSend: map<string, string>)

  /** The record `operator[]` value-initialises for an unknown input name. */
  function DefaultIn(): InProps
  {
    InProps(false, false, Unopened())
  }

  /** The record `operator[]` value-initialises for an unknown output name. */
  function DefaultOut(): OutProps
  {
    OutProps(false, map[], map[])
  }

  /** The result of a registry operation: the new registry and the exception it raised, if any. */
  datatype Outcome = Outcome(reg: Registry, err: Option<MidiError>)

  /** open(id) followed by start(); the first to raise ends it. */
  function OpenAndStart(e: EchoerState, dev: Devices, id: DeviceId): Step
  {
    var o := e.OpenInput(id, dev.InOpenResult(id));
    if o.err.Some? then o else o.state.Start(dev.oracle(InStart(id)))
  }

  /** stop() followed by close(); the first to raise ends it. */
  function StopAndClose(e: EchoerState, dev: Devices): Step
  {
    var s := e.Stop(dev.oracle(InStop(e.source)));
    if s.err.Some? then s else s.state.CloseInput(dev.oracle(InClose(e.source)))
  }

  /** The vanished-input branch of syncMidiDevices: stop when echoing, then close when open. */
  function Release(e: EchoerState, dev: Devices): Step
  {
    var s := if e.echoing then e.Stop(dev.oracle(InStop(e.source))) else Step(e, None);
    if s.err.Some? || !s.state.open then s else s.state.CloseInput(dev.oracle(InClose(e.source)))
  }

  /** EchoManager's two name-keyed maps, m_midi_inputs and m_midi_outputs. */
  datatype Registry = Registry(inputs: map<string, InProps>, outputs: map<string, OutProps>)
  {
    /** The input record `m_midi_inputs[name]` refers to. */
    function In(name: string): InProps
    {
      if name in inputs then inputs[name] else DefaultIn()
    }

    /** The output record `m_midi_outputs[name]` refers to. */
    function Out(name: string): OutProps
    {
      if name in outputs then outputs[name] else DefaultOut()
    }

    /** `m_midi_inputs[name]` used for its side effect: an unknown name gets a default record. */
    function TouchIn(name: string): Registry
    {
      this.(inputs := inputs[name := In(name)])
    }

    function TouchOut(name: string): Registry
    {
      this.(outputs := outputs[name := Out(name)])
    }

    function WithIn(name: string, p: InProps): Registry
    {
      this.(inputs := inputs[name := p])
    }

    function WithOut(name: string, p: OutProps): Registry
    {
      this.(outputs := outputs[name := p])
    }

    /**
     * setInEcho(name, val): when the request changes and the input is
     * available, open and start (val) or stop and close (!val) its unit; the
     * request is recorded unless one of those calls raised.
     */
    function SetInEcho(dev: Devices, name: string, val: bool): Outcome
    {
      var p := In(name);
      var s :=
        if p.echo != val && p.available then
          if val then OpenAndStart(p.echoer, dev, IdByName(dev.inputs, name)) else StopAndClose(p.echoer, dev)
        else Step(p.echoer, None);
      Outcome(WithIn(name, p.(echoer := s.state, echo := if s.err.None? then val else p.echo)), s.err)
    }

    /**
     * The condition under which tryAddTarget attaches `target` to the unit of
     * `source`: the input is available, a mute record for the pair exists and
     * is false, and the target id is not yet attached.
     */
    predicate AttachGate(dev: Devices, target: string, source: string)
    {
      && In(source).available
      && source in Out(target).mute
      && !Out(target).mute[source]
      && IdByName(dev.outputs, target) !in In(source).echoer.targets
    }

    /**
     * tryAddTarget(target, source): behind the gate, add the output to the
     * unit, give it the stored focus rule (inserting "" when there is none)
     * and unmute it.
     */
    function TryAddTarget(dev: Devices, target: string, source: string): Outcome
    {
      var r := TouchIn(source).TouchOut(target);
      if AttachGate(dev, target, source) then
        var p := In(source);
        var op := Out(target);
        var tid := IdByName(dev.outputs, target);
        var a := p.echoer.Add(tid, dev.OutOpenResult(tid));
        if a.err.Some? then Outcome(r.WithIn(source, p.(echoer := a.state)), a.err)
        else
          var rule := if source in op.focusSend then op.focusSend[source] else "";
          var e := a.state.FocusSend(tid, rule).SetMute(tid, false);
          Outcome(r.WithIn(source, p.(echoer := e)).WithOut(target, op.(focusSend := op.focusSend[source := rule])), None)
      else Outcome(r, None)
    }

    /**
     * setTargetMute(target, source, val): record the flag, run tryAddTarget,
     * then copy the flag to the live target when the input is available,
     * echoing and holding it.
     */
    function SetTargetMute(dev: Devices, target: string, source: string, val: bool): Outcome
    {
      var op := Out(target);
      var t := WithOut(target, op.(mute := op.mute[source := val])).TryAddTarget(dev, target, source);
      if t.err.Some? then t else Outcome(t.reg.LiveMute(dev, target, source, val), None)
    }

    /** The last step of setTargetMute: the live target of an available, echoing unit takes the flag. */
    function LiveMute(dev: Devices, target: string, source: string, val: bool): Registry
    {
      var p := In(source);
      var oid := IdByName(dev.outputs, target);
      if p.available && p.echo && oid in p.echoer.targets then WithIn(source, p.(echoer := p.echoer.SetMute(oid, val)))
      else this
    }

    /** setTargetFocusSend(target, source, rule): setTargetMute's shape, for the focus rule. */
    function SetTargetFocusSend(dev: Devices, target: string, source: string, rule: string): Outcome
    {
      var op := Out(target);
      var t := WithOut(target, op.(focusSend := op.focusSend[source := rule])).TryAddTarget(dev, target, source);
      if t.err.Some? then t else Outcome(t.reg.LiveFocusSend(dev, target, source, rule), None)
    }

    /** The last step of setTargetFocusSend: the live target of an available, echoing unit takes the rule. */
    function LiveFocusSend(dev: Devices, target: string, source: string, rule: string): Registry
    {
      var p := In(source);
      var oid := IdByName(dev.outputs, target);
      if p.available && p.echo && oid in p.echoer.targets then WithIn(source, p.(echoer := p.echoer.FocusSend(oid, rule)))
      else this
    }

    /** syncMidiDevices: the five phases in order; an exception in one skips the rest. */
    function Sync(rev: Revision, dev: Devices): Outcome
    {
      var a := ScanFold(Scan(this, Unseen(inputs.Keys), [], None), dev.inputs, ScanInputStep(dev));
      if a.err.Some? then Outcome(a.reg, a.err)
      else
        var b := Fold(a.reg, SortedNames(a.reg.inputs.Keys), UpdateInputStep(dev, a.avail));
        if b.err.Some? then b
        else
          var c := ScanFold(Scan(b.reg, Unseen(b.reg.outputs.Keys), [], None), dev.outputs, ScanOutputStep(rev, dev));
          if c.err.Some? then Outcome(c.reg, c.err)
          else
            var d := Fold(c.reg, SortedNames(c.reg.outputs.Keys), UpdateOutputStep(dev, c.avail));
            if d.err.Some? then d
            else Fold(d.reg, a.queued, AttachAllStep(dev))
    }
  }

  // ---------------------------------------------------------------- loops that stop at the first exception

  /** A range-for over `xs` whose body is `step`; an exception from the body ends the loop. */
  function Fold<T>(r: Registry, xs: seq<T>, step: (Registry, T) -> Outcome): Outcome
    decreases |xs|
  {
    if xs == [] then Outcome(r, None)
    else
      var o := Fold(r, xs[..|xs| - 1], step);
      if o.err.Some? then o else step(o.reg, xs[|xs| - 1])
  }

  /** One more iteration of a Fold loop. */
  lemma FoldSnoc<T>(r: Registry, xs: seq<T>, i: nat, step: (Registry, T) -> Outcome)
    requires i < |xs|
    ensures Fold(r, xs[..i + 1], step) ==
      var o := Fold(r, xs[..i], step);
      if o.err.Some? then o else step(o.reg, xs[i])
  {
    assert xs[..i + 1][..i] == xs[..i];
  }

  /** A Fold loop that has not raised takes its next state from one more step. */
  lemma FoldNext<T>(r: Registry, xs: seq<T>, i: nat, step: (Registry, T) -> Outcome, next: Outcome)
    requires i < |xs| && Fold(r, xs[..i], step).err.None?
    requires next == step(Fold(r, xs[..i], step).reg, xs[i])
    ensures Fold(r, xs[..i + 1], step) == next
  {
    FoldSnoc(r, xs, i, step);
  }

  /** Once a Fold loop has raised, the rest of the sequence changes nothing. */
  lemma {:induction false} FoldStopsAtError<T>(r: Registry, xs: seq<T>, i: nat, step: (Registry, T) -> Outcome)
    requires i <= |xs| && Fold(r, xs[..i], step).err.Some?
    ensures Fold(r, xs, step) == Fold(r, xs[..i], step)
    decreases |xs| - i
  {
    if i < |xs| {
      FoldSnoc(r, xs, i, step);
      FoldStopsAtError(r, xs, i + 1, step);
    } else {
      assert xs[..i] == xs;
    }
  }

  /** A prefix one longer is the shorter prefix and one more element. */
  lemma PrefixSnoc<T>(xs: seq<T>, k: nat)
    requires 0 < k <= |xs|
    ensures xs[..k] == xs[..k - 1] + [xs[k - 1]]
  {
  }

  /** A Fold loop over a concatenation continues from where the loop over the first part stopped. */
  lemma {:induction false} FoldAppend<T>(r: Registry, xs: seq<T>, ys: seq<T>, step: (Registry, T) -> Outcome)
    ensures var o := Fold(r, xs, step);
      Fold(r, xs + ys, step) == if o.err.Some? then o else Fold(o.reg, ys, step)
    decreases |ys|
  {
    if ys == [] {
      assert xs + ys == xs;
    } else {
      var init := ys[..|ys| - 1];
      FoldAppend(r, xs, init, step);
      assert (xs + ys)[..|xs + ys| - 1] == xs + init;
    }
  }

  /** A property that every loop body keeps is kept by the loop, whether or not it raises. */
  lemma {:induction false} FoldPreserves<T>(r: Registry, xs: seq<T>, step: (Registry, T) -> Outcome, inv: Registry -> bool)
    requires inv(r)
    requires forall r1, x | x in xs && inv(r1) :: inv(step(r1, x).reg)
    ensures inv(Fold(r, xs, step).reg)
    decreases |xs|
  {
    if xs != [] {
      var init := xs[..|xs| - 1];
      assert forall x | x in init :: x in xs;
      FoldPreserves(r, init, step, inv);
      assert xs[|xs| - 1] in xs;
    }
  }

  /**
   * The state of a device-scan loop of syncMidiDevices: the registry, the
   * `avaliable_devices` map, the `new_devices` vector and the exception.
   */
  datatype Scan = Scan(reg: Registry, avail: map<string, bool>, queued: seq<string>, err: Option<MidiError>)

  /** The scan over the live ids 0 .. n-1, with `names[id]` the name of id. */
  function ScanFold(s: Scan, names: seq<string>, step: (Scan, string) -> Scan): Scan
    decreases |names|
  {
    if names == [] then s
    else
      var s0 := ScanFold(s, names[..|names| - 1], step);
      if s0.err.Some? then s0 else step(s0, names[|names| - 1])
  }

  lemma ScanFoldSnoc(s: Scan, names: seq<string>, i: nat, step: (Scan, string) -> Scan)
    requires i < |names|
    ensures ScanFold(s, names[..i + 1], step) ==
      var s0 := ScanFold(s, names[..i], step);
      if s0.err.Some? then s0 else step(s0, names[i])
  {
    assert names[..i + 1][..i] == names[..i];
  }

  /** One more id scanned after a prefix that raised nothing. */
  lemma ScanFoldNext(s: Scan, names: seq<string>, i: nat, step: (Scan, string) -> Scan, next: Scan)
    requires i < |names| && ScanFold(s, names[..i], step).err.None?
    requires next == step(ScanFold(s, names[..i], step), names[i])
    ensures ScanFold(s, names[..i + 1], step) == next
  {
    ScanFoldSnoc(s, names, i, step);
  }

  lemma {:induction false} ScanFoldStopsAtError(s: Scan, names: seq<string>, i: nat, step: (Scan, string) -> Scan)
    requires i <= |names| && ScanFold(s, names[..i], step).err.Some?
    ensures ScanFold(s, names, step) == ScanFold(s, names[..i], step)
    decreases |names| - i
  {
    if i < |names| {
      ScanFoldSnoc(s, names, i, step);
      ScanFoldStopsAtError(s, names, i + 1, step);
    } else {
      assert names[..i] == names;
    }
  }

  /** `avaliable_devices[name] = false` for every known name. */
  function Unseen(names: set<string>): (m: map<string, bool>)
    ensures m.Keys == names
  {
    map n | n in names :: false
  }

  /**
   * One live input: a known name is marked seen and, when it was unavailable
   * but should echo, its unit is opened and started and it is queued; an
   * unknown name gets the record {available, not echoing} and is queued.
   */
  function ScanInput(dev: Devices, s: Scan, name: string): Scan
  {
    if name in s.avail then
      var p := s.reg.In(name);
      if !p.available && p.echo then
        var st := OpenAndStart(p.echoer, dev, IdByName(dev.inputs, name));
        Scan(s.reg.WithIn(name, p.(echoer := st.state)), s.avail[name := true],
          if st.err.None? then s.queued + [name] else s.queued, st.err)
      else Scan(s.reg.TouchIn(name), s.avail[name := true], s.queued, None)
    else Scan(s.reg.WithIn(name, InProps(true, false, Unopened())), s.avail, s.queued + [name], None)
  }

  /** One known input after the scan: its availability is set; a vanished one is released. */
  function UpdateInput(dev: Devices, avail: map<string, bool>, r: Registry, name: string): Outcome
  {
    if name in avail then
      var p := r.In(name).(available := avail[name]);
      if !avail[name] then
        var st := Release(p.echoer, dev);
        Outcome(r.WithIn(name, p.(echoer := st.state)), st.err)
      else Outcome(r.WithIn(name, p), None)
    else Outcome(r, None)
  }

  /**
   * The mute value a reconnecting output re-applies to `input`: the stored
   * one, else true in the current revision and false (operator[]) in the older.
   */
  function ReapplyMute(rev: Revision, op: OutProps, input: string): bool
  {
    if input in op.mute then op.mute[input] else rev == Current
  }

  /** One input of the re-apply loop: setTargetMute, then setTargetFocusSend with the stored rule. */
  function ReapplyOne(rev: Revision, dev: Devices, output: string, r: Registry, input: string): Outcome
  {
    var m := r.SetTargetMute(dev, output, input, ReapplyMute(rev, r.Out(output), input));
    if m.err.Some? then m
    else
      var op := m.reg.Out(output);
      m.reg.SetTargetFocusSend(dev, output, input, if input in op.focusSend then op.focusSend[input] else "")
  }

  /**
   * One live output: a known one is marked seen and, when it was
   * unavailable, re-applied for every known input; an unknown one gets the
   * record {available, no mute records, no focus rules}.
   */
  function ScanOutput(rev: Revision, dev: Devices, s: Scan, name: string): Scan
  {
    if name in s.avail then
      if !s.reg.Out(name).available then
        var o := Fold(s.reg.TouchOut(name), SortedNames(s.reg.inputs.Keys), ReapplyStep(rev, dev, name));
        Scan(o.reg, s.avail[name := true], s.queued, o.err)
      else Scan(s.reg.TouchOut(name), s.avail[name := true], s.queued, None)
    else Scan(s.reg.WithOut(name, OutProps(true, map[], map[])), s.avail, s.queued, None)
  }

  /** One input of the detach loop: remove(id) from an available unit that holds id. */
  function DetachOne(dev: Devices, id: DeviceId, r: Registry, input: string): Outcome
  {
    var p := r.In(input);
    if p.available && id in p.echoer.targets then
      var st := p.echoer.Remove(id, dev.oracle(OutClose(id)));
      Outcome(r.WithIn(input, p.(echoer := st.state)), st.err)
    else Outcome(r, None)
  }

  /**
   * One known output after the scan: its availability is set; for a vanished
   * one, the id its name has now is removed from every available unit.
   */
  function UpdateOutput(dev: Devices, avail: map<string, bool>, r: Registry, name: string): Outcome
  {
    if name in avail then
      var r1 := r.WithOut(name, r.Out(name).(available := avail[name]));
      if !avail[name] then
        var id := IdByName(dev.outputs, name);
        Fold(r1, SortedNames(r1.inputs.Keys), DetachStep(dev, id))
      else Outcome(r1, None)
    else Outcome(r, None)
  }

  /** tryAddTarget(output, input) for every known output, in name order. */
  function AttachAll(dev: Devices, r: Registry, input: string): Outcome
  {
    Fold(r, SortedNames(r.outputs.Keys), AttachStep(dev, input))
  }

  // ---------------------------------------------------------------- loop bodies as values

  function ScanInputStep(dev: Devices): (Scan, string) -> Scan
  {
    (s: Scan, n: string) => ScanInput(dev, s, n)
  }

  function UpdateInputStep(dev: Devices, avail: map<string, bool>): (Registry, string) -> Outcome
  {
    (r: Registry, n: string) => UpdateInput(dev, avail, r, n)
  }

  function ScanOutputStep(rev: Revision, dev: Devices): (Scan, string) -> Scan
  {
    (s: Scan, n: string) => ScanOutput(rev, dev, s, n)
  }

  function ReapplyStep(rev: Revision, dev: Devices, output: string): (Registry, string) -> Outcome
  {
    (r: Registry, n: string) => ReapplyOne(rev, dev, output, r, n)
  }

  function UpdateOutputStep(dev: Devices, avail: map<string, bool>): (Registry, string) -> Outcome
  {
    (r: Registry, n: string) => UpdateOutput(dev, avail, r, n)
  }

  function DetachStep(dev: Devices, id: DeviceId): (Registry, string) -> Outcome
  {
    (r: Registry, n: string) => DetachOne(dev, id, r, n)
  }

  function AttachStep(dev: Devices, input: string): (Registry, string) -> Outcome
  {
    (r: Registry, n: string) => r.TryAddTarget(dev, n, input)
  }

  function AttachAllStep(dev: Devices): (Registry, string) -> Outcome
  {
    (r: Registry, n: string) => AttachAll(dev, r, n)
  }
}
