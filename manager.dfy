/**
 * EchoManager as the class the application holds: the two name-keyed maps
 * are fields that every operation updates in place, loop by loop, as the
 * C++ does.  Each method is proved to leave the registry, and to raise the
 * exception, that the corresponding function of ManagerSpec describes, so
 * everything proved about those functions holds of the class.
 */
module Manager {
  import opened Winmm
  import opened MidiErrors
  import opened Ordering
  import opened Echo
  import opened ManagerSpec
  import opened Persistence

  class EchoManager {
    /** Which revision of EchoManager.cpp this manager runs. */
    const revision: Revision
    /** m_midi_inputs. */
    var inputs: map<string, InProps>
    /** m_midi_outputs. */
    var outputs: map<string, OutProps>

    /** The registry value the two maps hold. */
    function Snapshot(): Registry
      reads this
    {
      Registry(inputs, outputs)
    }

    constructor (rev: Revision)
      ensures revision == rev
      ensures Snapshot() == Registry(map[], map[])
    {
      revision := rev;
      inputs := map[];
      outputs := map[];
    }

    /** inIsAvaliable: `m_midi_inputs[name].avaliable`, inserting a default record for an unknown name. */
    method InIsAvailable(name: string) returns (b: bool)
      modifies this
      ensures b == old(Snapshot()).In(name).available
      ensures Snapshot() == old(Snapshot()).TouchIn(name)
    {
      if name !in inputs {
        inputs := inputs[name := DefaultIn()];
      }
      b := inputs[name].available;
    }

    /** outIsAvaliable: `m_midi_outputs[name].avaliable`, inserting a default record for an unknown name. */
    method OutIsAvailable(name: string) returns (b: bool)
      modifies this
      ensures b == old(Snapshot()).Out(name).available
      ensures Snapshot() == old(Snapshot()).TouchOut(name)
    {
      if name !in outputs {
        outputs := outputs[name := DefaultOut()];
      }
      b := outputs[name].available;
    }

    // ---------------------------------------------------------------- the setters

    /** setInEcho. */
    method SetInEcho(dev: Devices, name: string, val: bool) returns (err: Option<MidiError>)
      modifies this
      ensures Outcome(Snapshot(), err) == old(Snapshot()).SetInEcho(dev, name, val)
    {
      var p := if name in inputs then inputs[name] else DefaultIn();
      var e := p.echoer;
      err := None;
      if p.echo != val && p.available {
        if val {
          var id := IdByName(dev.inputs, name);
          var s := e.OpenInput(id, dev.InOpenResult(id));
          e, err := s.state, s.err;
          if err.None? {
            s := e.Start(dev.oracle(InStart(id)));
            e, err := s.state, s.err;
          }
        } else {
          var s := e.Stop(dev.oracle(InStop(e.source)));
          e, err := s.state, s.err;
          if err.None? {
            s := e.CloseInput(dev.oracle(InClose(e.source)));
            e, err := s.state, s.err;
          }
        }
      }
      inputs := inputs[name := p.(echoer := e, echo := if err.None? then val else p.echo)];
    }

    /** tryAddTarget (private in the C++). */
    method TryAddTarget(dev: Devices, target: string, source: string) returns (err: Option<MidiError>)
      modifies this
      ensures Outcome(Snapshot(), err) == old(Snapshot()).TryAddTarget(dev, target, source)
    {
      if source !in inputs {
        inputs := inputs[source := DefaultIn()];
      }
      if target !in outputs {
        outputs := outputs[target := DefaultOut()];
      }
      ghost var r := Snapshot();
      assert r == old(Snapshot()).TouchIn(source).TouchOut(target);
      var p, op := inputs[source], outputs[target];
      assert p == old(Snapshot()).In(source) && op == old(Snapshot()).Out(target);
      var tid := IdByName(dev.outputs, target);
      err := None;
      if p.available && source in op.mute && !op.mute[source] && tid !in p.echoer.targets {
        assert old(Snapshot()).AttachGate(dev, target, source);
        var a := p.echoer.Add(tid, dev.OutOpenResult(tid));
        if a.err.Some? {
          inputs := inputs[source := p.(echoer := a.state)];
          err := a.err;
          return;
        }
        var rule := if source in op.focusSend then op.focusSend[source] else "";
        var e := a.state.FocusSend(tid, rule).SetMute(tid, false);
        inputs := inputs[source := p.(echoer := e)];
        outputs := outputs[target := op.(focusSend := op.focusSend[source := rule])];
        assert Snapshot() == r.WithIn(source, p.(echoer := e)).WithOut(target, op.(focusSend := op.focusSend[source := rule]));
      }
    }

    /** setTargetMute. */
    method SetTargetMute(dev: Devices, target: string, source: string, val: bool) returns (err: Option<MidiError>)
      modifies this
      ensures Outcome(Snapshot(), err) == old(Snapshot()).SetTargetMute(dev, target, source, val)
    {
      var op := if target in outputs then outputs[target] else DefaultOut();
      outputs := outputs[target := op.(mute := op.mute[source := val])];
      err := TryAddTarget(dev, target, source);
      if err.Some? {
        return;
      }
      var oid := IdByName(dev.outputs, target);
      var p := if source in inputs then inputs[source] else DefaultIn();
      if p.available && p.echo && oid in p.echoer.targets {
        inputs := inputs[source := p.(echoer := p.echoer.SetMute(oid, val))];
      }
    }

    /** setTargetFocusSend. */
    method SetTargetFocusSend(dev: Devices, target: string, source: string, rule: string) returns (err: Option<MidiError>)
      modifies this
      ensures Outcome(Snapshot(), err) == old(Snapshot()).SetTargetFocusSend(dev, target, source, rule)
    {
      var op := if target in outputs then outputs[target] else DefaultOut();
      outputs := outputs[target := op.(focusSend := op.focusSend[source := rule])];
      err := TryAddTarget(dev, target, source);
      if err.Some? {
        return;
      }
      var oid := IdByName(dev.outputs, target);
      var p := if source in inputs then inputs[source] else DefaultIn();
      if p.available && p.echo && oid in p.echoer.targets {
        inputs := inputs[source := p.(echoer := p.echoer.FocusSend(oid, rule))];
      }
    }

    // ---------------------------------------------------------------- syncMidiDevices, phase by phase

    /** `avaliable_devices[name] = false` for every name of a map being iterated. */
    static method UnseenMap(names: set<string>) returns (m: map<string, bool>)
      ensures m == Unseen(names)
    {
      m := map[];
      var todo := names;
      while todo != {}
        invariant todo <= names
        invariant m == Unseen(names - todo)
        decreases |todo|
      {
        var n :| n in todo;
        m := m[n := false];
        todo := todo - {n};
        assert m == Unseen(names - todo);
      }
    }

    /** One iteration of the input scan. */
    method ScanInputOne(dev: Devices, avail: map<string, bool>, queued: seq<string>, name: string)
      returns (avail': map<string, bool>, queued': seq<string>, err: Option<MidiError>)
      modifies this
      ensures Scan(Snapshot(), avail', queued', err) == ScanInput(dev, Scan(old(Snapshot()), avail, queued, None), name)
    {
      avail', queued', err := avail, queued, None;
      if name in avail {
        avail' := avail[name := true];
        var p := if name in inputs then inputs[name] else DefaultIn();
        if !p.available && p.echo {
          var id := IdByName(dev.inputs, name);
          var st := OpenAndStart(p.echoer, dev, id);
          inputs := inputs[name := p.(echoer := st.state)];
          err := st.err;
          if err.None? {
            queued' := queued + [name];
          }
        } else {
          inputs := inputs[name := p];
        }
      } else {
        inputs := inputs[name := InProps(true, false, Unopened())];
        queued' := queued + [name];
      }
    }

    /** Phase a: the scan of the live inputs, id by id. */
    method ScanInputs(dev: Devices) returns (avail: map<string, bool>, queued: seq<string>, err: Option<MidiError>)
      modifies this
      ensures Scan(Snapshot(), avail, queued, err) ==
        ScanFold(Scan(old(Snapshot()), Unseen(old(inputs).Keys), [], None), dev.inputs, ScanInputStep(dev))
    {
      avail := UnseenMap(inputs.Keys);
      ghost var s0 := Scan(Snapshot(), avail, [], None);
      queued, err := [], None;
      var id := 0;
      while id < |dev.inputs|
        invariant id <= |dev.inputs|
        invariant err.None?
        invariant Scan(Snapshot(), avail, queued, None) == ScanFold(s0, dev.inputs[..id], ScanInputStep(dev))
      {
        ghost var prev := Scan(Snapshot(), avail, queued, None);
        var name := dev.inputs[id];
        avail, queued, err := ScanInputOne(dev, avail, queued, name);
        assert ScanInputStep(dev)(prev, name) == Scan(Snapshot(), avail, queued, err);
        ScanFoldNext(s0, dev.inputs, id, ScanInputStep(dev), Scan(Snapshot(), avail, queued, err));
        if err.Some? {
          ScanFoldStopsAtError(s0, dev.inputs, id + 1, ScanInputStep(dev));
          return;
        }
        id := id + 1;
      }
      assert dev.inputs[..id] == dev.inputs;
    }

    /** One iteration of the availability update of the known inputs. */
    method UpdateInputOne(dev: Devices, avail: map<string, bool>, name: string) returns (err: Option<MidiError>)
      modifies this
      ensures Outcome(Snapshot(), err) == UpdateInput(dev, avail, old(Snapshot()), name)
    {
      err := None;
      if name in avail {
        var p := (if name in inputs then inputs[name] else DefaultIn()).(available := avail[name]);
        if !avail[name] {
          var e := p.echoer;
          if e.echoing {
            var s := e.Stop(dev.oracle(InStop(e.source)));
            e, err := s.state, s.err;
          }
          if err.None? && e.open {
            var s := e.CloseInput(dev.oracle(InClose(e.source)));
            e, err := s.state, s.err;
          }
          p := p.(echoer := e);
        }
        inputs := inputs[name := p];
      }
    }

    /** Phase b: the availability update of the known inputs, in name order. */
    method UpdateInputs(dev: Devices, avail: map<string, bool>) returns (err: Option<MidiError>)
      modifies this
      ensures Outcome(Snapshot(), err) == Fold(old(Snapshot()), SortedNames(old(inputs).Keys), UpdateInputStep(dev, avail))
    {
      err := UpdateInputsOver(dev, avail, SortedNames(inputs.Keys));
    }

    /** The loop of UpdateInputs over the names `names`, in that order. */
    method UpdateInputsOver(dev: Devices, avail: map<string, bool>, names: seq<string>) returns (err: Option<MidiError>)
      modifies this
      ensures Outcome(Snapshot(), err) == Fold(old(Snapshot()), names, UpdateInputStep(dev, avail))
    {
      ghost var r0 := Snapshot();
      err := None;
      var k := 0;
      while k < |names|
        invariant k <= |names|
        invariant err.None?
        invariant Outcome(Snapshot(), None) == Fold(r0, names[..k], UpdateInputStep(dev, avail))
      {
        FoldSnoc(r0, names, k, UpdateInputStep(dev, avail));
        err := UpdateInputOne(dev, avail, names[k]);
        if err.Some? {
          FoldStopsAtError(r0, names, k + 1, UpdateInputStep(dev, avail));
          return;
        }
        k := k + 1;
      }
      assert names[..k] == names;
    }

    /** One input of the re-apply loop. */
    method ReapplyOne(dev: Devices, output: string, input: string) returns (err: Option<MidiError>)
      modifies this
      ensures Outcome(Snapshot(), err) == ManagerSpec.ReapplyOne(revision, dev, output, old(Snapshot()), input)
    {
      var op := if output in outputs then outputs[output] else DefaultOut();
      var mute := if input in op.mute then op.mute[input] else revision == Current;
      err := SetTargetMute(dev, output, input, mute);
      if err.None? {
        op := if output in outputs then outputs[output] else DefaultOut();
        err := SetTargetFocusSend(dev, output, input, if input in op.focusSend then op.focusSend[input] else "");
      }
    }

    /**
     * The re-apply loop of a reconnecting output: for every known input, in
     * name order, setTargetMute with the stored mute value (or the
     * revision's default), then setTargetFocusSend with the stored rule.
     */
    method Reapply(dev: Devices, output: string) returns (err: Option<MidiError>)
      modifies this
      ensures Outcome(Snapshot(), err) == Fold(old(Snapshot()), SortedNames(old(inputs).Keys), ReapplyStep(revision, dev, output))
    {
      err := ReapplyOver(dev, output, SortedNames(inputs.Keys));
    }

    /** The loop of Reapply over the names `names`, in that order. */
    method ReapplyOver(dev: Devices, output: string, names: seq<string>) returns (err: Option<MidiError>)
      modifies this
      ensures Outcome(Snapshot(), err) == Fold(old(Snapshot()), names, ReapplyStep(revision, dev, output))
    {
      ghost var r0 := Snapshot();
      err := None;
      var k := 0;
      while k < |names|
        invariant k <= |names|
        invariant err.None?
        invariant Outcome(Snapshot(), None) == Fold(r0, names[..k], ReapplyStep(revision, dev, output))
      {
        FoldSnoc(r0, names, k, ReapplyStep(revision, dev, output));
        err := ReapplyOne(dev, output, names[k]);
        if err.Some? {
          FoldStopsAtError(r0, names, k + 1, ReapplyStep(revision, dev, output));
          return;
        }
        k := k + 1;
      }
      assert names[..k] == names;
    }

    /** One iteration of the output scan. */
    method ScanOutputOne(dev: Devices, avail: map<string, bool>, queued: seq<string>, name: string)
      returns (avail': map<string, bool>, err: Option<MidiError>)
      modifies this
      ensures Scan(Snapshot(), avail', queued, err) == ScanOutput(revision, dev, Scan(old(Snapshot()), avail, queued, None), name)
    {
      avail', err := avail, None;
      if name in avail {
        avail' := avail[name := true];
        var op := if name in outputs then outputs[name] else DefaultOut();
        outputs := outputs[name := op];
        if !op.available {
          err := Reapply(dev, name);
        }
      } else {
        outputs := outputs[name := OutProps(true, map[], map[])];
      }
    }

    /** Phase c: the scan of the live outputs, id by id. */
    method ScanOutputs(dev: Devices) returns (avail: map<string, bool>, err: Option<MidiError>)
      modifies this
      ensures Scan(Snapshot(), avail, [], err) ==
        ScanFold(Scan(old(Snapshot()), Unseen(old(outputs).Keys), [], None), dev.outputs, ScanOutputStep(revision, dev))
    {
      avail := UnseenMap(outputs.Keys);
      ghost var s0 := Scan(Snapshot(), avail, [], None);
      err := None;
      var id := 0;
      while id < |dev.outputs|
        invariant id <= |dev.outputs|
        invariant err.None?
        invariant Scan(Snapshot(), avail, [], None) == ScanFold(s0, dev.outputs[..id], ScanOutputStep(revision, dev))
      {
        ScanFoldSnoc(s0, dev.outputs, id, ScanOutputStep(revision, dev));
        var name := dev.outputs[id];
        avail, err := ScanOutputOne(dev, avail, [], name);
        if err.Some? {
          ScanFoldStopsAtError(s0, dev.outputs, id + 1, ScanOutputStep(revision, dev));
          return;
        }
        id := id + 1;
      }
      assert dev.outputs[..id] == dev.outputs;
    }

    /** The detach loop of a vanished output: remove `id` from every available unit that holds it. */
    method Detach(dev: Devices, id: DeviceId) returns (err: Option<MidiError>)
      modifies this
      ensures Outcome(Snapshot(), err) == Fold(old(Snapshot()), SortedNames(old(inputs).Keys), DetachStep(dev, id))
    {
      err := DetachOver(dev, id, SortedNames(inputs.Keys));
    }

    /** The loop of Detach over the names `names`, in that order. */
    method DetachOver(dev: Devices, id: DeviceId, names: seq<string>) returns (err: Option<MidiError>)
      modifies this
      ensures Outcome(Snapshot(), err) == Fold(old(Snapshot()), names, DetachStep(dev, id))
    {
      ghost var r0 := Snapshot();
      err := None;
      var k := 0;
      while k < |names|
        invariant k <= |names|
        invariant err.None?
        invariant Outcome(Snapshot(), None) == Fold(r0, names[..k], DetachStep(dev, id))
      {
        FoldSnoc(r0, names, k, DetachStep(dev, id));
        var p := if names[k] in inputs then inputs[names[k]] else DefaultIn();
        if p.available && id in p.echoer.targets {
          var st := p.echoer.Remove(id, dev.oracle(OutClose(id)));
          inputs := inputs[names[k] := p.(echoer := st.state)];
          err := st.err;
          if err.Some? {
            FoldStopsAtError(r0, names, k + 1, DetachStep(dev, id));
            return;
          }
        }
        k := k + 1;
      }
      assert names[..k] == names;
    }

    /** One iteration of the availability update of the known outputs. */
    method UpdateOutputOne(dev: Devices, avail: map<string, bool>, name: string) returns (err: Option<MidiError>)
      modifies this
      ensures Outcome(Snapshot(), err) == UpdateOutput(dev, avail, old(Snapshot()), name)
    {
      err := None;
      if name in avail {
        var op := if name in outputs then outputs[name] else DefaultOut();
        outputs := outputs[name := op.(available := avail[name])];
        if !avail[name] {
          err := Detach(dev, IdByName(dev.outputs, name));
        }
      }
    }

    /** Phase d: the availability update of the known outputs, in name order. */
    method UpdateOutputs(dev: Devices, avail: map<string, bool>) returns (err: Option<MidiError>)
      modifies this
      ensures Outcome(Snapshot(), err) == Fold(old(Snapshot()), SortedNames(old(outputs).Keys), UpdateOutputStep(dev, avail))
    {
      err := UpdateOutputsOver(dev, avail, SortedNames(outputs.Keys));
    }

    /** The loop of UpdateOutputs over the names `names`, in that order. */
    method UpdateOutputsOver(dev: Devices, avail: map<string, bool>, names: seq<string>) returns (err: Option<MidiError>)
      modifies this
      ensures Outcome(Snapshot(), err) == Fold(old(Snapshot()), names, UpdateOutputStep(dev, avail))
    {
      ghost var r0 := Snapshot();
      err := None;
      var k := 0;
      while k < |names|
        invariant k <= |names|
        invariant err.None?
        invariant Outcome(Snapshot(), None) == Fold(r0, names[..k], UpdateOutputStep(dev, avail))
      {
        FoldSnoc(r0, names, k, UpdateOutputStep(dev, avail));
        err := UpdateOutputOne(dev, avail, names[k]);
        if err.Some? {
          FoldStopsAtError(r0, names, k + 1, UpdateOutputStep(dev, avail));
          return;
        }
        k := k + 1;
      }
      assert names[..k] == names;
    }

    /** tryAddTarget(output, input) for every known output, in name order. */
    method AttachAll(dev: Devices, input: string) returns (err: Option<MidiError>)
      modifies this
      ensures Outcome(Snapshot(), err) == ManagerSpec.AttachAll(dev, old(Snapshot()), input)
    {
      err := AttachAllOver(dev, input, SortedNames(outputs.Keys));
    }

    /** The loop of AttachAll over the names `names`, in that order. */
    method AttachAllOver(dev: Devices, input: string, names: seq<string>) returns (err: Option<MidiError>)
      modifies this
      ensures Outcome(Snapshot(), err) == Fold(old(Snapshot()), names, AttachStep(dev, input))
    {
      ghost var r0 := Snapshot();
      err := None;
      var k := 0;
      while k < |names|
        invariant k <= |names|
        invariant err.None?
        invariant Outcome(Snapshot(), None) == Fold(r0, names[..k], AttachStep(dev, input))
      {
        FoldSnoc(r0, names, k, AttachStep(dev, input));
        err := TryAddTarget(dev, names[k], input);
        if err.Some? {
          FoldStopsAtError(r0, names, k + 1, AttachStep(dev, input));
          return;
        }
        k := k + 1;
      }
      assert names[..k] == names;
    }

    /** Phase e: every queued input against every known output. */
    method AttachQueued(dev: Devices, queued: seq<string>) returns (err: Option<MidiError>)
      modifies this
      ensures Outcome(Snapshot(), err) == Fold(old(Snapshot()), queued, AttachAllStep(dev))
    {
      ghost var r0 := Snapshot();
      err := None;
      var k := 0;
      while k < |queued|
        invariant k <= |queued|
        invariant err.None?
        invariant Outcome(Snapshot(), None) == Fold(r0, queued[..k], AttachAllStep(dev))
      {
        FoldSnoc(r0, queued, k, AttachAllStep(dev));
        err := AttachAll(dev, queued[k]);
        if err.Some? {
          FoldStopsAtError(r0, queued, k + 1, AttachAllStep(dev));
          return;
        }
        k := k + 1;
      }
      assert queued[..k] == queued;
    }

    /** syncMidiDevices: the five phases; an exception from one leaves the rest undone. */
    method SyncMidiDevices(dev: Devices) returns (err: Option<MidiError>)
      modifies this
      ensures Outcome(Snapshot(), err) == old(Snapshot()).Sync(revision, dev)
    {
      var avail, queued;
      avail, queued, err := ScanInputs(dev);
      if err.Some? {
        return;
      }
      err := UpdateInputs(dev, avail);
      if err.Some? {
        return;
      }
      avail, err := ScanOutputs(dev);
      if err.Some? {
        return;
      }
      err := UpdateOutputs(dev, avail);
      if err.Some? {
        return;
      }
      err := AttachQueued(dev, queued);
    }

    /**
     * saveToFile: the document of every input in name order, each with the
     * outputs that hold a mute record for it; reading `focus_send` through
     * operator[] inserts "" where a saved pair has no rule.  The legacy
     * revision's saveToFile has an empty body: it writes no document.
     */
    method SaveToFile() returns (doc: Option<seq<InputEntry>>)
      modifies this
      ensures revision == Legacy ==> doc == None && Snapshot() == old(Snapshot())
      ensures revision == Current ==> doc == Some(SaveDoc(old(Snapshot()))) && Snapshot() == SaveTouched(old(Snapshot()))
    {
      if revision == Legacy {
        return None;
      }
      SaveOrder(Snapshot());
      var d := SaveInputs(SortedNames(inputs.Keys), SortedNames(outputs.Keys));
      doc := Some(d);
    }

    /** The loop of saveToFile over the inputs `ins`, each saved against the outputs `outs`. */
    method SaveInputs(ins: seq<string>, outs: seq<string>) returns (doc: seq<InputEntry>)
      requires forall i | i in ins :: i in inputs
      requires Names(outs) == outputs.Keys && forall a, b | 0 <= a < b < |outs| :: outs[a] != outs[b]
      modifies this
      ensures doc == SavedInputs(old(Snapshot()), ins, outs)
      ensures Snapshot() == TouchedBy(old(Snapshot()), Names(ins))
    {
      ghost var r0 := Snapshot();
      doc := [];
      var k := 0;
      assert Names(ins[..0]) == {};
      TouchedByNone(r0);
      while k < |ins|
        invariant k <= |ins|
        invariant doc == SavedInputs(r0, ins[..k], outs)
        invariant Snapshot() == TouchedBy(r0, Names(ins[..k]))
      {
        var name := ins[k];
        var echo := inputs[name].echo;
        SavedOutputsTouched(r0, Names(ins[..k]), name, outs);
        var es := SaveOutputs(name, outs);
        TouchedByStep(r0, Names(ins[..k]), name);
        doc := doc + [InputEntry(name, echo, es)];
        assert ins[..k + 1][..k] == ins[..k];
        NamesSnoc(ins, k + 1);
        k := k + 1;
      }
      assert ins[..k] == ins;
    }

    /** The inner loop of saveToFile: `input` against the outputs `outs`. */
    method SaveOutputs(input: string, outs: seq<string>) returns (es: seq<OutputEntry>)
      requires forall o | o in outs :: o in outputs
      requires forall a, b | 0 <= a < b < |outs| :: outs[a] != outs[b]
      modifies this
      ensures es == SavedOutputs(old(Snapshot()), input, outs)
      ensures Snapshot() == TouchInput(old(Snapshot()), input, Names(outs))
    {
      ghost var r0 := Snapshot();
      es := [];
      var k := 0;
      assert outs[..0] == [];
      while k < |outs|
        invariant k <= |outs|
        invariant es == SavedOutputs(r0, input, outs[..k])
        invariant Snapshot() == TouchInput(r0, input, Names(outs[..k]))
      {
        var o := outs[k];
        assert o !in Names(outs[..k]);
        TouchInputSnoc(r0, input, Names(outs[..k]), o);
        var op := outputs[o];
        if input in op.mute {
          var rule := if input in op.focusSend then op.focusSend[input] else "";
          outputs := outputs[o := op.(focusSend := op.focusSend[input := rule])];
          es := es + [OutputEntry(o, op.mute[input], rule)];
        }
        assert outs[..k + 1][..k] == outs[..k];
        NamesSnoc(outs, k + 1);
        k := k + 1;
      }
      assert outs[..k] == outs;
    }

    /**
     * loadFromFile: setInEcho for every input object, then setTargetMute and
     * setTargetFocusSend for each of its output objects; the first exception
     * ends the load.  `keepUnsaved` is not read, as in the C++.  The legacy
     * revision declares loadFromFile without defining it.
     */
    method LoadFromFile(dev: Devices, doc: seq<InputEntry>, keepUnsaved: bool) returns (err: Option<MidiError>)
      requires revision == Current
      modifies this
      ensures Outcome(Snapshot(), err) == Load(dev, old(Snapshot()), doc)
    {
      ghost var r0 := Snapshot();
      err := None;
      var k := 0;
      while k < |doc|
        invariant k <= |doc|
        invariant err.None?
        invariant Outcome(Snapshot(), None) == Fold(r0, doc[..k], LoadInputStep(dev))
      {
        FoldSnoc(r0, doc, k, LoadInputStep(dev));
        err := LoadInputEntry(dev, doc[k]);
        if err.Some? {
          FoldStopsAtError(r0, doc, k + 1, LoadInputStep(dev));
          return;
        }
        k := k + 1;
      }
      assert doc[..k] == doc;
    }

    /** One input object of loadFromFile. */
    method LoadInputEntry(dev: Devices, e: InputEntry) returns (err: Option<MidiError>)
      modifies this
      ensures Outcome(Snapshot(), err) == LoadInput(dev, old(Snapshot()), e)
    {
      err := SetInEcho(dev, e.name, e.echo);
      if err.Some? {
        return;
      }
      ghost var r0 := Snapshot();
      var k := 0;
      while k < |e.outputs|
        invariant k <= |e.outputs|
        invariant err.None?
        invariant Outcome(Snapshot(), None) == Fold(r0, e.outputs[..k], LoadOutputStep(dev, e.name))
      {
        ghost var prev := Snapshot();
        var oe := e.outputs[k];
        err := SetTargetMute(dev, oe.name, e.name, oe.mute);
        if err.None? {
          err := SetTargetFocusSend(dev, oe.name, e.name, oe.focusSend);
        }
        assert LoadOutput(dev, e.name, prev, oe) == Outcome(Snapshot(), err);
        FoldNext(r0, e.outputs, k, LoadOutputStep(dev, e.name), Outcome(Snapshot(), err));
        if err.Some? {
          FoldStopsAtError(r0, e.outputs, k + 1, LoadOutputStep(dev, e.name));
          return;
        }
        k := k + 1;
      }
      assert e.outputs[..k] == e.outputs;
    }
  }
}
