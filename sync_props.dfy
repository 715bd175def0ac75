/**
 * What syncMidiDevices establishes, phase by phase: the scan of the live
 * inputs (a), the availability update of the known inputs (b), the scan of
 * the live outputs with the re-apply of a reconnecting output (c), the
 * availability update of the known outputs (d) and the attach of every
 * queued input (e); and then, for the whole synchronisation, what holds of
 * the registry it leaves.
 */
module SyncProps {
  import opened Winmm
  import opened MidiErrors
  import opened Ordering
  import opened Echo
  import opened ManagerSpec
  import opened ManagerProps

  // ---------------------------------------------------------------- loop lemmas for scans

  /** A property of the scan state that every step keeps is kept by the scan. */
  lemma {:induction false} ScanFoldPreserves(s: Scan, names: seq<string>, step: (Scan, string) -> Scan, inv: Scan -> bool)
    requires inv(s)
    requires forall s1, x | x in names && inv(s1) && s1.err.None? :: inv(step(s1, x))
    ensures inv(ScanFold(s, names, step))
    decreases |names|
  {
    if names != [] {
      var init := names[..|names| - 1];
      assert forall x | x in init :: x in names;
      ScanFoldPreserves(s, init, step, inv);
      assert names[|names| - 1] in names;
    }
  }

  // ---------------------------------------------------------------- phase a: the input scan

  /** open + start as the scan does it: the targets stay, and on success the handle is open on `id` and echoing. */
  lemma OpenAndStartFacts(e: EchoerState, dev: Devices, id: DeviceId)
    ensures OpenAndStart(e, dev, id).state.targets == e.targets
    ensures OpenAndStart(e, dev, id).err.None? ==>
      var e1 := OpenAndStart(e, dev, id).state;
      e1.open && e1.echoing && e1.source == id
  {
  }

  /** Whether the scan must wake the unit of a known input it saw: unavailable until now, and asked to echo. */
  predicate Wakes(p: InProps)
  {
    !p.available && p.echo
  }

  /** The unit of a known input after the scan: woken when it was seen and should wake, else as it was. */
  predicate ScannedUnit(p0: InProps, dev: Devices, name: string, seen: bool, e: EchoerState)
  {
    && e.targets == p0.echoer.targets
    && if seen && Wakes(p0) then e.open && e.echoing && e.source == IdByName(dev.inputs, name)
       else e == p0.echoer
  }

  /**
   * The bookkeeping of the input scan after the live inputs `seen`, started
   * from the registry `r0`: the outputs untouched, `avaliable_devices` keyed
   * by the known names and true exactly for the seen ones, and the records
   * those of `r0` and of the seen names.
   */
  ghost predicate InputScanKeys(r0: Registry, seen: seq<string>, s: Scan)
  {
    && s.reg.outputs == r0.outputs
    && s.avail.Keys == r0.inputs.Keys
    && (forall n :: n in s.reg.inputs <==> n in r0.inputs || n in seen)
    && (forall n | n in r0.inputs :: s.avail[n] == (n in seen))
  }

  /** Every unknown seen name holds a fresh available record; every known record keeps its availability and request. */
  ghost predicate InputScanRecords(r0: Registry, s: Scan)
  {
    && (forall n | n in s.reg.inputs && n !in r0.inputs :: s.reg.inputs[n] == InProps(true, false, Unopened()))
    && (forall n | n in r0.inputs && n in s.reg.inputs ::
          s.reg.inputs[n].available == r0.inputs[n].available && s.reg.inputs[n].echo == r0.inputs[n].echo)
  }

  /** `new_devices` holds exactly the seen names that are unknown or wake. */
  ghost predicate InputScanQueue(r0: Registry, seen: seq<string>, s: Scan)
  {
    && (forall n | n in s.queued :: n in seen && (n !in r0.inputs || Wakes(r0.inputs[n])))
    && (forall n | n in seen && (n !in r0.inputs || Wakes(r0.inputs[n])) :: n in s.queued)
  }

  /** Every known unit is woken when seen and due, and otherwise as it was. */
  ghost predicate InputScanUnits(r0: Registry, dev: Devices, seen: seq<string>, s: Scan)
  {
    forall n | n in r0.inputs && n in s.reg.inputs :: ScannedUnit(r0.inputs[n], dev, n, n in seen, s.reg.inputs[n].echoer)
  }

  /** The state of an input scan that has not raised, after the live inputs `seen`. */
  ghost predicate InputScanned(r0: Registry, dev: Devices, seen: seq<string>, s: Scan)
  {
    InputScanKeys(r0, seen, s) && InputScanRecords(r0, s) && InputScanQueue(r0, seen, s) && InputScanUnits(r0, dev, seen, s)
  }

  /** The scan state after one more live input, when that step does not raise. */
  lemma InputScanStepShape(dev: Devices, s: Scan, name: string)
    requires ScanInput(dev, s, name).err.None?
    ensures var s1 := ScanInput(dev, s, name);
      && s1.avail == (if name in s.avail then s.avail[name := true] else s.avail)
      && s1.reg.outputs == s.reg.outputs
      && s1.reg.inputs.Keys == s.reg.inputs.Keys + {name}
      && (forall n | n in s.reg.inputs && n != name :: s1.reg.inputs[n] == s.reg.inputs[n])
      && s1.queued == (if name !in s.avail || Wakes(s.reg.In(name)) then s.queued + [name] else s.queued)
      && (name !in s.avail ==> s1.reg.inputs[name] == InProps(true, false, Unopened()))
      && (name in s.avail ==>
            var p, p1 := s.reg.In(name), s1.reg.inputs[name];
            && p1.available == p.available && p1.echo == p.echo
            && (Wakes(p) ==> ScannedUnit(p, dev, name, true, p1.echoer))
            && (!Wakes(p) ==> p1.echoer == p.echoer))
  {
    if name in s.avail && Wakes(s.reg.In(name)) {
      var p := s.reg.In(name);
      OpenAndStartFacts(p.echoer, dev, IdByName(dev.inputs, name));
    }
  }

  lemma InputScanKeysStep(r0: Registry, seen: seq<string>, s: Scan, s1: Scan, name: string)
    requires InputScanKeys(r0, seen, s)
    requires s1.avail == (if name in s.avail then s.avail[name := true] else s.avail)
    requires s1.reg.outputs == s.reg.outputs && s1.reg.inputs.Keys == s.reg.inputs.Keys + {name}
    ensures InputScanKeys(r0, seen + [name], s1)
  {
    assert forall n :: n in seen + [name] <==> n in seen || n == name;
  }

  lemma InputScanQueueStep(r0: Registry, seen: seq<string>, s: Scan, s1: Scan, name: string)
    requires InputScanKeys(r0, seen, s) && InputScanRecords(r0, s) && InputScanQueue(r0, seen, s)
    requires s1.queued == (if name !in s.avail || Wakes(s.reg.In(name)) then s.queued + [name] else s.queued)
    ensures InputScanQueue(r0, seen + [name], s1)
  {
    assert forall n :: n in seen + [name] <==> n in seen || n == name;
    assert forall n :: n in s.queued + [name] <==> n in s.queued || n == name;
    if name in s.avail {
      assert Wakes(s.reg.In(name)) == Wakes(r0.inputs[name]);
    }
  }

  lemma InputScanUnitsStep(r0: Registry, dev: Devices, seen: seq<string>, s: Scan, s1: Scan, name: string)
    requires InputScanKeys(r0, seen, s) && InputScanRecords(r0, s) && InputScanUnits(r0, dev, seen, s)
    requires s1.reg.inputs.Keys == s.reg.inputs.Keys + {name}
    requires forall n | n in s.reg.inputs && n != name :: s1.reg.inputs[n] == s.reg.inputs[n]
    requires name in s.avail ==>
      var p, p1 := s.reg.In(name), s1.reg.inputs[name];
      && (Wakes(p) ==> ScannedUnit(p, dev, name, true, p1.echoer))
      && (!Wakes(p) ==> p1.echoer == p.echoer)
    ensures InputScanUnits(r0, dev, seen + [name], s1)
  {
    forall n | n in r0.inputs && n in s1.reg.inputs
      ensures ScannedUnit(r0.inputs[n], dev, n, n in seen + [name], s1.reg.inputs[n].echoer)
    {
      assert n in seen + [name] <==> n in seen || n == name;
      assert n in s.reg.inputs;
      if n == name {
        var p0, p := r0.inputs[n], s.reg.inputs[n];
        assert Wakes(p) == Wakes(p0);
        assert ScannedUnit(p0, dev, n, n in seen, p.echoer);
        if Wakes(p0) && n in seen {
          assert s.avail[n];
        }
      }
    }
  }

  lemma InputScanRecordsStep(r0: Registry, seen: seq<string>, s: Scan, s1: Scan, name: string)
    requires InputScanKeys(r0, seen, s) && InputScanRecords(r0, s)
    requires s1.reg.inputs.Keys == s.reg.inputs.Keys + {name}
    requires forall n | n in s.reg.inputs && n != name :: s1.reg.inputs[n] == s.reg.inputs[n]
    requires name !in s.avail ==> s1.reg.inputs[name] == InProps(true, false, Unopened())
    requires name in s.avail ==>
      s1.reg.inputs[name].available == s.reg.In(name).available && s1.reg.inputs[name].echo == s.reg.In(name).echo
    ensures InputScanRecords(r0, s1)
  {
    forall n | n in s1.reg.inputs && n !in r0.inputs
      ensures s1.reg.inputs[n] == InProps(true, false, Unopened())
    {
      if n != name { assert n in s.reg.inputs; }
    }
  }

  /** One live input keeps InputScanned. */
  lemma InputScanStep(r0: Registry, dev: Devices, seen: seq<string>, s: Scan, name: string)
    requires InputScanned(r0, dev, seen, s)
    ensures ScanInput(dev, s, name).err.None? ==> InputScanned(r0, dev, seen + [name], ScanInput(dev, s, name))
  {
    var s1 := ScanInput(dev, s, name);
    if s1.err.None? {
      InputScanStepShape(dev, s, name);
      InputScanKeysStep(r0, seen, s, s1, name);
      InputScanQueueStep(r0, seen, s, s1, name);
      InputScanUnitsStep(r0, dev, seen, s, s1, name);
      InputScanRecordsStep(r0, seen, s, s1, name);
    }
  }

  /** The input scan over the first `k` live inputs establishes InputScanned. */
  lemma {:induction false} InputScanPrefix(r0: Registry, dev: Devices, k: nat)
    requires k <= |dev.inputs|
    ensures var s := ScanFold(Scan(r0, Unseen(r0.inputs.Keys), [], None), dev.inputs[..k], ScanInputStep(dev));
      s.err.None? ==> InputScanned(r0, dev, dev.inputs[..k], s)
  {
    var init := Scan(r0, Unseen(r0.inputs.Keys), [], None);
    if k > 0 {
      var seen, name := dev.inputs[..k - 1], dev.inputs[k - 1];
      PrefixSnoc(dev.inputs, k);
      InputScanPrefix(r0, dev, k - 1);
      var s := ScanFold(init, seen, ScanInputStep(dev));
      if s.err.None? {
        ScanFoldNext(init, dev.inputs, k - 1, ScanInputStep(dev), ScanInput(dev, s, name));
        InputScanStep(r0, dev, seen, s, name);
      } else {
        ScanFoldSnoc(init, dev.inputs, k - 1, ScanInputStep(dev));
      }
    }
  }

  // ---------------------------------------------------------------- phase b: the availability of the known inputs

  /** The vanished-input release keeps the targets and, when it does not raise, leaves the unit closed and stopped. */
  lemma ReleaseFacts(e: EchoerState, dev: Devices)
    ensures Release(e, dev).state.targets == e.targets
    ensures Release(e, dev).err.None? ==> !Release(e, dev).state.open && !Release(e, dev).state.echoing
  {
  }

  /** The update of one known input touches that record only. */
  lemma UpdateInputFrame(dev: Devices, avail: map<string, bool>, r: Registry, name: string)
    requires name in r.inputs
    ensures var o := UpdateInput(dev, avail, r, name);
      && o.reg.outputs == r.outputs
      && o.reg.inputs == r.inputs[name := o.reg.inputs[name]]
  {
  }

  /**
   * The record `p1` of the known input `name` after the update of the
   * record `p`: its availability is the scan's verdict, its request and
   * targets stay, a vanished unit is released, and a present one is left as
   * it was.
   */
  predicate InputRecordUpdated(avail: map<string, bool>, name: string, p: InProps, p1: InProps)
  {
    && p1.echo == p.echo
    && p1.echoer.targets == p.echoer.targets
    && p1.available == (if name in avail then avail[name] else p.available)
    && (name in avail && !avail[name] ==> !p1.echoer.open && !p1.echoer.echoing)
    && (name !in avail || avail[name] ==> p1.echoer == p.echoer)
  }

  /** The update of one known input, when it does not raise, is InputRecordUpdated. */
  lemma UpdateInputEffect(dev: Devices, avail: map<string, bool>, r: Registry, name: string)
    requires name in r.inputs
    ensures var o := UpdateInput(dev, avail, r, name);
      o.err.None? ==> InputRecordUpdated(avail, name, r.inputs[name], o.reg.inputs[name])
  {
    if name in avail && !avail[name] {
      ReleaseFacts(r.inputs[name].echoer, dev);
    }
  }

  /** After updating the names `done` (and no others) of the registry `a`, with no exception raised. */
  ghost predicate InputsUpdated(avail: map<string, bool>, a: Registry, done: seq<string>, r: Registry)
  {
    && r.outputs == a.outputs
    && r.inputs.Keys == a.inputs.Keys
    && (forall n | n in a.inputs && n in done :: InputRecordUpdated(avail, n, a.inputs[n], r.inputs[n]))
    && (forall n | n in a.inputs && n !in done :: r.inputs[n] == a.inputs[n])
  }

  /** One more name of the input update loop. */
  lemma InputUpdateStep(dev: Devices, avail: map<string, bool>, a: Registry, done: seq<string>, r: Registry, name: string)
    requires InputsUpdated(avail, a, done, r)
    requires name in a.inputs && name !in done
    ensures var o := UpdateInput(dev, avail, r, name);
      o.err.None? ==> InputsUpdated(avail, a, done + [name], o.reg)
  {
    UpdateInputEffect(dev, avail, r, name);
    UpdateInputFrame(dev, avail, r, name);
    assert forall n :: n in done + [name] <==> n in done || n == name;
  }

  /** A sequence of distinct names. */
  predicate Distinct(ns: seq<string>)
  {
    forall i, j | 0 <= i < j < |ns| :: ns[i] != ns[j]
  }

  /** The input update loop, over distinct known names, updates each record once. */
  lemma {:induction false} InputUpdatePrefix(dev: Devices, avail: map<string, bool>, a: Registry, ns: seq<string>, k: nat)
    requires k <= |ns| && Distinct(ns) && forall n | n in ns :: n in a.inputs
    ensures var o := Fold(a, ns[..k], UpdateInputStep(dev, avail));
      o.err.None? ==> InputsUpdated(avail, a, ns[..k], o.reg)
  {
    if k > 0 {
      var step := UpdateInputStep(dev, avail);
      InputUpdatePrefix(dev, avail, a, ns, k - 1);
      FoldSnoc(a, ns, k - 1, step);
      var o := Fold(a, ns[..k - 1], step);
      if o.err.None? {
        var name := ns[k - 1];
        assert Fold(a, ns[..k], step) == UpdateInput(dev, avail, o.reg, name);
        assert name !in ns[..k - 1];
        PrefixSnoc(ns, k);
        InputUpdateStep(dev, avail, a, ns[..k - 1], o.reg, name);
      }
    } else {
      assert ns[..0] == [];
    }
  }

  /** Phase b as syncMidiDevices runs it, over the known inputs in name order. */
  lemma InputUpdate(dev: Devices, avail: map<string, bool>, a: Registry)
    ensures var o := Fold(a, SortedNames(a.inputs.Keys), UpdateInputStep(dev, avail));
      o.err.None? ==> InputsUpdated(avail, a, SortedNames(a.inputs.Keys), o.reg)
  {
    var ns := SortedNames(a.inputs.Keys);
    InputUpdatePrefix(dev, avail, a, ns, |ns|);
    assert ns[..|ns|] == ns;
  }

  // ---------------------------------------------------------------- phase c: the output scan and the re-apply loop

  /**
   * One input of the re-apply loop of a reconnecting output: the units keep
   * their life cycle, the outputs their availability, every other output
   * its record, and the output's mute record for the input becomes the
   * re-applied value.
   */
  lemma ReapplyOneFrame(rev: Revision, dev: Devices, output: string, r: Registry, input: string)
    requires input in r.inputs && output in r.outputs
    ensures var o := ReapplyOne(rev, dev, output, r, input);
      o.err.None? ==>
        && KeepsUnits(r, o.reg)
        && KeepsOutFlags(r, o.reg)
        && o.reg.outputs[output].mute == r.outputs[output].mute[input := ReapplyMute(rev, r.outputs[output], input)]
        && (forall n | n in r.outputs && n != output :: o.reg.outputs[n] == r.outputs[n])
        && (!dev.MapperOpens() && NoInvalidTarget(r) ==> NoInvalidTarget(o.reg))
  {
    var m := r.SetTargetMute(dev, output, input, ReapplyMute(rev, r.Out(output), input));
    SetTargetMuteFrame(r, dev, output, input, ReapplyMute(rev, r.Out(output), input));
    if m.err.None? {
      var op := m.reg.Out(output);
      var rule := if input in op.focusSend then op.focusSend[input] else "";
      SetTargetFocusSendFrame(m.reg, dev, output, input, rule);
      KeepsTrans(r, m.reg, m.reg.SetTargetFocusSend(dev, output, input, rule).reg);
    }
  }

  /**
   * The re-apply loop of `output` after the inputs `done`, started from
   * `r0`: frames as in ReapplyOneFrame, and the mute record of the output
   * holds the re-applied value for every input done and the old value for
   * every other it had.
   */
  ghost predicate Reapplied(rev: Revision, dev: Devices, r0: Registry, output: string, done: seq<string>, r: Registry)
    requires output in r0.outputs
  {
    && KeepsUnits(r0, r)
    && KeepsOutFlags(r0, r)
    && (!dev.MapperOpens() && NoInvalidTarget(r0) ==> NoInvalidTarget(r))
    && (forall n | n in r0.outputs && n != output :: r.outputs[n] == r0.outputs[n])
    && (forall i :: i in r.outputs[output].mute <==> i in r0.outputs[output].mute || i in done)
    && (forall i | i in r.outputs[output].mute :: r.outputs[output].mute[i] == ReapplyMute(rev, r0.outputs[output], i))
  }

  /** One more input of the re-apply loop. */
  lemma ReapplyStepKeeps(rev: Revision, dev: Devices, output: string, r0: Registry, done: seq<string>, r: Registry, input: string)
    requires output in r0.outputs && input in r0.inputs && input !in done
    requires Reapplied(rev, dev, r0, output, done, r)
    ensures var o := ReapplyOne(rev, dev, output, r, input);
      o.err.None? ==> Reapplied(rev, dev, r0, output, done + [input], o.reg)
  {
    ReapplyOneFrame(rev, dev, output, r, input);
    var o := ReapplyOne(rev, dev, output, r, input);
    if o.err.None? {
      KeepsTrans(r0, r, o.reg);
      assert ReapplyMute(rev, r.outputs[output], input) == ReapplyMute(rev, r0.outputs[output], input);
      assert forall i :: i in done + [input] <==> i in done || i == input;
    }
  }

  /** The re-apply loop over distinct known inputs. */
  lemma {:induction false} ReapplyPrefix(rev: Revision, dev: Devices, output: string, r0: Registry, ns: seq<string>, k: nat)
    requires output in r0.outputs
    requires k <= |ns| && Distinct(ns) && forall n | n in ns :: n in r0.inputs
    ensures var o := Fold(r0, ns[..k], ReapplyStep(rev, dev, output));
      o.err.None? ==> Reapplied(rev, dev, r0, output, ns[..k], o.reg)
  {
    if k > 0 {
      var step := ReapplyStep(rev, dev, output);
      ReapplyPrefix(rev, dev, output, r0, ns, k - 1);
      FoldSnoc(r0, ns, k - 1, step);
      var o := Fold(r0, ns[..k - 1], step);
      if o.err.None? {
        var input := ns[k - 1];
        var o2 := ReapplyOne(rev, dev, output, o.reg, input);
        assert Fold(r0, ns[..k], step) == o2;
        assert input !in ns[..k - 1];
        PrefixSnoc(ns, k);
        ReapplyStepKeeps(rev, dev, output, r0, ns[..k - 1], o.reg, input);
      }
    } else {
      assert ns[..0] == [];
      assert (Fold(r0, ns[..0], ReapplyStep(rev, dev, output))).reg == r0;
    }
  }

  /**
   * The mute record `mute` of an output whose old record was `op0`, after
   * the re-apply loop over the inputs `inputs`: every input has a value,
   * the stored one when there was one and the revision's default otherwise.
   */
  ghost predicate ReappliedMute(rev: Revision, op0: OutProps, inputs: set<string>, mute: map<string, bool>)
  {
    && (forall i :: i in mute <==> i in op0.mute || i in inputs)
    && (forall i | i in mute :: mute[i] == ReapplyMute(rev, op0, i))
  }

  /** The whole re-apply loop of a reconnecting output, over the known inputs in name order. */
  lemma ReapplyAll(rev: Revision, dev: Devices, output: string, r: Registry)
    requires output in r.outputs
    ensures var o := Fold(r, SortedNames(r.inputs.Keys), ReapplyStep(rev, dev, output));
      o.err.None? ==>
        && KeepsUnits(r, o.reg)
        && KeepsOutFlags(r, o.reg)
        && (!dev.MapperOpens() && NoInvalidTarget(r) ==> NoInvalidTarget(o.reg))
        && (forall n | n in r.outputs && n != output :: o.reg.outputs[n] == r.outputs[n])
        && ReappliedMute(rev, r.outputs[output], r.inputs.Keys, o.reg.outputs[output].mute)
  {
    var ns := SortedNames(r.inputs.Keys);
    ReapplyPrefix(rev, dev, output, r, ns, |ns|);
    assert ns[..|ns|] == ns;
  }

  /** Re-applying an already re-applied record changes none of its values. */
  lemma ReappliedMuteAgain(rev: Revision, op0: OutProps, op1: OutProps, inputs: set<string>, mute: map<string, bool>)
    requires ReappliedMute(rev, op0, inputs, op1.mute)
    requires ReappliedMute(rev, op1, inputs, mute)
    ensures ReappliedMute(rev, op0, inputs, mute)
  {
  }

  /** The keys and `avaliable_devices` of the output scan after the live outputs `seen`, started from `c0`. */
  ghost predicate OutputScanKeys(c0: Registry, seen: seq<string>, s: Scan)
  {
    && s.avail.Keys == c0.outputs.Keys
    && (forall n :: n in s.reg.outputs <==> n in c0.outputs || n in seen)
    && (forall n | n in c0.outputs :: s.avail[n] == (n in seen))
  }

  /**
   * The output records during the scan: an unknown seen name has an empty
   * available record, an unseen or available known one is as it was, and a
   * seen unavailable one keeps its availability and holds the re-applied
   * mute record.
   */
  ghost predicate OutputScanRecords(rev: Revision, c0: Registry, seen: seq<string>, s: Scan)
  {
    && (forall n | n in s.reg.outputs && n !in c0.outputs :: s.reg.outputs[n] == OutProps(true, map[], map[]))
    && (forall n | n in c0.outputs && n in s.reg.outputs && (n !in seen || c0.outputs[n].available) ::
          s.reg.outputs[n] == c0.outputs[n])
    && (forall n | n in c0.outputs && n in s.reg.outputs && n in seen && !c0.outputs[n].available ::
          && s.reg.outputs[n].available == c0.outputs[n].available
          && ReappliedMute(rev, c0.outputs[n], c0.inputs.Keys, s.reg.outputs[n].mute))
  }

  /** The units during the output scan keep their life cycle and gain no invalid target. */
  ghost predicate OutputScanUnits(dev: Devices, c0: Registry, s: Scan)
  {
    KeepsUnits(c0, s.reg) && (!dev.MapperOpens() && NoInvalidTarget(c0) ==> NoInvalidTarget(s.reg))
  }

  ghost predicate OutputScanned(rev: Revision, dev: Devices, c0: Registry, seen: seq<string>, s: Scan)
  {
    OutputScanKeys(c0, seen, s) && OutputScanRecords(rev, c0, seen, s) && OutputScanUnits(dev, c0, s)
  }

  /** The scan state after a reconnecting known output whose re-apply loop did not raise. */
  lemma OutputScanReconnectShape(rev: Revision, dev: Devices, s: Scan, name: string)
    requires name in s.avail && name in s.reg.outputs && !s.reg.outputs[name].available
    ensures var s1 := ScanOutput(rev, dev, s, name);
      s1.err.None? ==>
        && s1.avail == s.avail[name := true]
        && KeepsUnits(s.reg, s1.reg)
        && KeepsOutFlags(s.reg, s1.reg)
        && (!dev.MapperOpens() && NoInvalidTarget(s.reg) ==> NoInvalidTarget(s1.reg))
        && (forall n | n in s.reg.outputs && n != name :: s1.reg.outputs[n] == s.reg.outputs[n])
        && ReappliedMute(rev, s.reg.outputs[name], s.reg.inputs.Keys, s1.reg.outputs[name].mute)
  {
    assert s.reg.TouchOut(name) == s.reg;
    ReapplyAll(rev, dev, name, s.reg);
  }

  /** The records after a reconnecting known output. */
  lemma OutputScanReconnectRecords(rev: Revision, dev: Devices, c0: Registry, seen: seq<string>, s: Scan, s1: Scan, name: string)
    requires OutputScanKeys(c0, seen, s) && OutputScanRecords(rev, c0, seen, s) && OutputScanUnits(dev, c0, s)
    requires name in s.avail && !s.reg.outputs[name].available
    requires KeepsOutFlags(s.reg, s1.reg)
    requires forall n | n in s.reg.outputs && n != name :: s1.reg.outputs[n] == s.reg.outputs[n]
    requires ReappliedMute(rev, s.reg.outputs[name], s.reg.inputs.Keys, s1.reg.outputs[name].mute)
    ensures OutputScanRecords(rev, c0, seen + [name], s1)
  {
    assert forall n :: n in seen + [name] <==> n in seen || n == name;
    assert s.reg.inputs.Keys == c0.inputs.Keys;
    var op0, op, op1 := c0.outputs[name], s.reg.outputs[name], s1.reg.outputs[name];
    if name in seen {
      ReappliedMuteAgain(rev, op0, op, c0.inputs.Keys, op1.mute);
    }
  }

  lemma OutputScanKeysStep(c0: Registry, seen: seq<string>, s: Scan, s1: Scan, name: string)
    requires OutputScanKeys(c0, seen, s)
    requires s1.avail == (if name in s.avail then s.avail[name := true] else s.avail)
    requires s1.reg.outputs.Keys == s.reg.outputs.Keys + {name}
    ensures OutputScanKeys(c0, seen + [name], s1)
  {
    assert forall n :: n in seen + [name] <==> n in seen || n == name;
  }

  /** A reconnecting known output: every known input is re-applied to it. */
  lemma OutputScanReconnect(rev: Revision, dev: Devices, c0: Registry, seen: seq<string>, s: Scan, name: string)
    requires OutputScanned(rev, dev, c0, seen, s)
    requires name in s.avail && !s.reg.Out(name).available
    ensures var s1 := ScanOutput(rev, dev, s, name);
      s1.err.None? ==> OutputScanned(rev, dev, c0, seen + [name], s1)
  {
    OutputScanReconnectShape(rev, dev, s, name);
    var s1 := ScanOutput(rev, dev, s, name);
    if s1.err.None? {
      OutputScanReconnectFrom(rev, dev, c0, seen, s, s1, name);
    }
  }

  /** OutputScanReconnect once the re-apply loop's effect is known. */
  lemma OutputScanReconnectFrom(rev: Revision, dev: Devices, c0: Registry, seen: seq<string>, s: Scan, s1: Scan, name: string)
    requires OutputScanned(rev, dev, c0, seen, s)
    requires name in s.avail && name in s.reg.outputs && !s.reg.outputs[name].available
    requires s1.avail == s.avail[name := true]
    requires KeepsUnits(s.reg, s1.reg) && KeepsOutFlags(s.reg, s1.reg)
    requires !dev.MapperOpens() && NoInvalidTarget(s.reg) ==> NoInvalidTarget(s1.reg)
    requires forall n | n in s.reg.outputs && n != name :: s1.reg.outputs[n] == s.reg.outputs[n]
    requires ReappliedMute(rev, s.reg.outputs[name], s.reg.inputs.Keys, s1.reg.outputs[name].mute)
    ensures OutputScanned(rev, dev, c0, seen + [name], s1)
  {
    OutputScanReconnectRecords(rev, dev, c0, seen, s, s1, name);
    KeepsUnitsTrans(c0, s.reg, s1.reg);
    OutputScanKeysStep(c0, seen, s, s1, name);
  }

  /** An available known output is only marked seen. */
  lemma OutputScanPresent(rev: Revision, dev: Devices, c0: Registry, seen: seq<string>, s: Scan, name: string)
    requires OutputScanned(rev, dev, c0, seen, s)
    requires name in s.avail && s.reg.Out(name).available
    ensures OutputScanned(rev, dev, c0, seen + [name], ScanOutput(rev, dev, s, name))
  {
    assert s.reg.TouchOut(name) == s.reg;
    assert ScanOutput(rev, dev, s, name) == Scan(s.reg, s.avail[name := true], s.queued, None);
    assert forall n :: n in seen + [name] <==> n in seen || n == name;
  }

  /** An unknown output gets an available record with no mute records and no focus rules. */
  lemma OutputScanNew(rev: Revision, dev: Devices, c0: Registry, seen: seq<string>, s: Scan, name: string)
    requires OutputScanned(rev, dev, c0, seen, s)
    requires name !in s.avail
    ensures OutputScanned(rev, dev, c0, seen + [name], ScanOutput(rev, dev, s, name))
  {
    var s1 := ScanOutput(rev, dev, s, name);
    assert s1 == Scan(s.reg.WithOut(name, OutProps(true, map[], map[])), s.avail, s.queued, None);
    assert forall n :: n in seen + [name] <==> n in seen || n == name;
    assert s1.reg.inputs == s.reg.inputs;
  }

  lemma OutputScanStep(rev: Revision, dev: Devices, c0: Registry, seen: seq<string>, s: Scan, name: string)
    requires OutputScanned(rev, dev, c0, seen, s)
    ensures var s1 := ScanOutput(rev, dev, s, name);
      s1.err.None? ==> OutputScanned(rev, dev, c0, seen + [name], s1)
  {
    if name !in s.avail {
      OutputScanNew(rev, dev, c0, seen, s, name);
    } else if s.reg.Out(name).available {
      OutputScanPresent(rev, dev, c0, seen, s, name);
    } else {
      OutputScanReconnect(rev, dev, c0, seen, s, name);
    }
  }

  /** The output scan over the first `k` live outputs establishes OutputScanned. */
  lemma {:induction false} OutputScanPrefix(rev: Revision, dev: Devices, c0: Registry, k: nat)
    requires k <= |dev.outputs|
    ensures var s := ScanFold(Scan(c0, Unseen(c0.outputs.Keys), [], None), dev.outputs[..k], ScanOutputStep(rev, dev));
      s.err.None? ==> OutputScanned(rev, dev, c0, dev.outputs[..k], s)
  {
    var init := Scan(c0, Unseen(c0.outputs.Keys), [], None);
    if k > 0 {
      var seen, name := dev.outputs[..k - 1], dev.outputs[k - 1];
      PrefixSnoc(dev.outputs, k);
      OutputScanPrefix(rev, dev, c0, k - 1);
      var s := ScanFold(init, seen, ScanOutputStep(rev, dev));
      if s.err.None? {
        ScanFoldNext(init, dev.outputs, k - 1, ScanOutputStep(rev, dev), ScanOutput(rev, dev, s, name));
        OutputScanStep(rev, dev, c0, seen, s, name);
      } else {
        ScanFoldSnoc(init, dev.outputs, k - 1, ScanOutputStep(rev, dev));
      }
    }
  }

  // ---------------------------------------------------------------- phase d: the availability of the known outputs

  /** The detach loop changes units only, each by removing the id, keeping its life cycle. */
  ghost predicate Detached(r0: Registry, r: Registry)
  {
    && r.outputs == r0.outputs
    && KeepsUnits(r0, r)
    && (NoInvalidTarget(r0) ==> NoInvalidTarget(r))
  }

  /** One input of the detach loop keeps Detached. */
  lemma DetachOneKeeps(dev: Devices, id: DeviceId, r0: Registry, r: Registry, input: string)
    requires Detached(r0, r)
    ensures Detached(r0, DetachOne(dev, id, r, input).reg)
  {
    var p := r.In(input);
    if p.available && id in p.echoer.targets {
      var st := p.echoer.Remove(id, dev.oracle(OutClose(id)));
      var r1 := r.WithIn(input, p.(echoer := st.state));
      assert input in r.inputs;
      RetargetFrame(r, input, p.(echoer := st.state));
      KeepsUnitsTrans(r0, r, r1);
    }
  }

  /** An id that no unit holds is removed from none: the detach loop changes nothing. */
  lemma DetachOneAbsent(dev: Devices, id: DeviceId, r: Registry, input: string)
    requires forall n | n in r.inputs :: id !in r.inputs[n].echoer.targets
    ensures DetachOne(dev, id, r, input) == Outcome(r, None)
  {
  }

  /** The whole detach loop of a vanished output. */
  lemma DetachLoop(dev: Devices, id: DeviceId, r: Registry, ns: seq<string>)
    ensures Detached(r, Fold(r, ns, DetachStep(dev, id)).reg)
    ensures (forall n | n in r.inputs :: id !in r.inputs[n].echoer.targets) ==> Fold(r, ns, DetachStep(dev, id)).reg == r
  {
    var step := DetachStep(dev, id);
    forall r1, x | x in ns && Detached(r, r1) ensures Detached(r, step(r1, x).reg) {
      DetachOneKeeps(dev, id, r, r1, x);
    }
    FoldPreserves(r, ns, step, (x: Registry) => Detached(r, x));
    if forall n | n in r.inputs :: id !in r.inputs[n].echoer.targets {
      forall r1, x | x in ns && r1 == r ensures step(r1, x).reg == r {
        DetachOneAbsent(dev, id, r, x);
      }
      FoldPreserves(r, ns, step, (x: Registry) => x == r);
    }
  }

  /** After the detach loop has visited `done`: no available unit among them holds `id`. */
  ghost predicate DetachedFrom(id: DeviceId, done: seq<string>, r: Registry)
  {
    forall n | n in done && n in r.inputs && r.inputs[n].available :: id !in r.inputs[n].echoer.targets
  }

  /** One input of the detach loop that raises nothing leaves it without the id. */
  lemma DetachOneRemoves(dev: Devices, id: DeviceId, r: Registry, done: seq<string>, input: string)
    requires DetachedFrom(id, done, r) && input in r.inputs
    ensures var o := DetachOne(dev, id, r, input);
      o.err.None? ==> DetachedFrom(id, done + [input], o.reg)
  {
    assert forall n :: n in done + [input] <==> n in done || n == input;
  }

  /** The detach loop, when it raises nothing, leaves no available unit it visited holding the id. */
  lemma {:induction false} DetachLoopRemoves(dev: Devices, id: DeviceId, r: Registry, ns: seq<string>, k: nat)
    requires k <= |ns| && forall n | n in ns :: n in r.inputs
    ensures var o := Fold(r, ns[..k], DetachStep(dev, id));
      o.err.None? ==> DetachedFrom(id, ns[..k], o.reg)
  {
    if k > 0 {
      var step := DetachStep(dev, id);
      DetachLoopRemoves(dev, id, r, ns, k - 1);
      FoldSnoc(r, ns, k - 1, step);
      var o := Fold(r, ns[..k - 1], step);
      if o.err.None? {
        DetachLoop(dev, id, r, ns[..k - 1]);
        assert ns[k - 1] in o.reg.inputs;
        assert Fold(r, ns[..k], step) == DetachOne(dev, id, o.reg, ns[k - 1]);
        PrefixSnoc(ns, k);
        DetachOneRemoves(dev, id, o.reg, ns[..k - 1], ns[k - 1]);
      }
    }
  }

  /** Every name the output scan did not see is not live. */
  predicate UnseenGone(dev: Devices, avail: map<string, bool>)
  {
    forall n | n in avail && !avail[n] :: n !in dev.outputs
  }

  /**
   * The update of one known output: only its availability changes among
   * the outputs; the units keep their life cycle; since the id a vanished
   * output's name looks up to is the invalid one (MIDI_MAPPER), no unit
   * changes at all when no unit held the mapper.
   */
  lemma UpdateOutputEffect(dev: Devices, avail: map<string, bool>, r: Registry, name: string)
    requires name in r.outputs
    ensures var o := UpdateOutput(dev, avail, r, name);
      && o.reg.outputs == r.outputs[name := if name in avail then r.outputs[name].(available := avail[name]) else r.outputs[name]]
      && KeepsUnits(r, o.reg)
      && (NoInvalidTarget(r) ==> NoInvalidTarget(o.reg))
      && (NoInvalidTarget(r) && UnseenGone(dev, avail) ==> o.reg.inputs == r.inputs)
  {
    if name in avail {
      if !avail[name] {
        var r1 := r.WithOut(name, r.Out(name).(available := avail[name]));
        DetachLoop(dev, IdByName(dev.outputs, name), r1, SortedNames(r1.inputs.Keys));
      }
    } else {
      assert r.outputs[name := r.outputs[name]] == r.outputs;
    }
  }

  /**
   * The update of a vanished output that raised nothing leaves no available
   * unit holding the id its name looks up to.
   */
  lemma UpdateOutputDetaches(dev: Devices, avail: map<string, bool>, r: Registry, name: string)
    requires name in avail && !avail[name]
    ensures var o := UpdateOutput(dev, avail, r, name);
      o.err.None? ==>
        forall n | n in o.reg.inputs && o.reg.inputs[n].available ::
          IdByName(dev.outputs, name) !in o.reg.inputs[n].echoer.targets
  {
    var r1 := r.WithOut(name, r.Out(name).(available := avail[name]));
    var ns := SortedNames(r1.inputs.Keys);
    var id := IdByName(dev.outputs, name);
    assert UpdateOutput(dev, avail, r, name) == Fold(r1, ns, DetachStep(dev, id));
    assert ns[..|ns|] == ns;
    DetachLoop(dev, id, r1, ns);
    DetachLoopRemoves(dev, id, r1, ns, |ns|);
  }

  /** After updating the known outputs `done` of the registry `d0`, with no exception raised. */
  ghost predicate OutputsUpdated(dev: Devices, avail: map<string, bool>, d0: Registry, done: seq<string>, r: Registry)
  {
    && r.outputs.Keys == d0.outputs.Keys
    && (forall n | n in d0.outputs ::
          r.outputs[n] == if n in done && n in avail then d0.outputs[n].(available := avail[n]) else d0.outputs[n])
    && KeepsUnits(d0, r)
    && (NoInvalidTarget(d0) ==> NoInvalidTarget(r))
    && (NoInvalidTarget(d0) && UnseenGone(dev, avail) ==> r.inputs == d0.inputs)
  }

  lemma OutputUpdateStep(dev: Devices, avail: map<string, bool>, d0: Registry, done: seq<string>, r: Registry, name: string)
    requires OutputsUpdated(dev, avail, d0, done, r)
    requires name in d0.outputs && name !in done
    ensures var o := UpdateOutput(dev, avail, r, name);
      o.err.None? ==> OutputsUpdated(dev, avail, d0, done + [name], o.reg)
  {
    UpdateOutputEffect(dev, avail, r, name);
    var o := UpdateOutput(dev, avail, r, name);
    KeepsUnitsTrans(d0, r, o.reg);
    assert forall n :: n in done + [name] <==> n in done || n == name;
  }

  /** The output update loop, over distinct known names, updates each record once. */
  lemma {:induction false} OutputUpdatePrefix(dev: Devices, avail: map<string, bool>, d0: Registry, ns: seq<string>, k: nat)
    requires k <= |ns| && Distinct(ns) && forall n | n in ns :: n in d0.outputs
    ensures var o := Fold(d0, ns[..k], UpdateOutputStep(dev, avail));
      o.err.None? ==> OutputsUpdated(dev, avail, d0, ns[..k], o.reg)
  {
    if k > 0 {
      OutputUpdatePrefix(dev, avail, d0, ns, k - 1);
      FoldSnoc(d0, ns, k - 1, UpdateOutputStep(dev, avail));
      var o := Fold(d0, ns[..k - 1], UpdateOutputStep(dev, avail));
      if o.err.None? {
        assert ns[..k] == ns[..k - 1] + [ns[k - 1]];
        assert ns[k - 1] !in ns[..k - 1];
        OutputUpdateStep(dev, avail, d0, ns[..k - 1], o.reg, ns[k - 1]);
      }
    } else {
      assert ns[..0] == [];
    }
  }

  /** Phase d as syncMidiDevices runs it, over the known outputs in name order. */
  lemma OutputUpdate(dev: Devices, avail: map<string, bool>, d0: Registry)
    ensures var o := Fold(d0, SortedNames(d0.outputs.Keys), UpdateOutputStep(dev, avail));
      o.err.None? ==> OutputsUpdated(dev, avail, d0, SortedNames(d0.outputs.Keys), o.reg)
  {
    var ns := SortedNames(d0.outputs.Keys);
    OutputUpdatePrefix(dev, avail, d0, ns, |ns|);
    assert ns[..|ns|] == ns;
  }

  // ---------------------------------------------------------------- phase e: the attach of the queued inputs

  /**
   * The attach phase's frame: units keep their life cycle, outputs their
   * availability and mute records, an output without mute records its whole
   * record, and, unless the MIDI mapper opens, no unit gains the invalid id.
   */
  ghost predicate AttachFrame(dev: Devices, r0: Registry, r: Registry)
  {
    && KeepsUnits(r0, r)
    && KeepsOutFlags(r0, r)
    && (forall n | n in r0.outputs :: r.outputs[n].mute == r0.outputs[n].mute)
    && (forall n | n in r0.outputs && r0.outputs[n].mute == map[] :: r.outputs[n] == r0.outputs[n])
    && (!dev.MapperOpens() && NoInvalidTarget(r0) ==> NoInvalidTarget(r))
  }

  lemma AttachFrameTrans(dev: Devices, r1: Registry, r2: Registry, r3: Registry)
    requires AttachFrame(dev, r1, r2) && AttachFrame(dev, r2, r3)
    ensures AttachFrame(dev, r1, r3)
  {
    KeepsTrans(r1, r2, r3);
  }

  /** One tryAddTarget of the attach phase, on a known pair. */
  lemma AttachOneFrame(dev: Devices, r: Registry, target: string, source: string)
    requires source in r.inputs && target in r.outputs
    ensures AttachFrame(dev, r, r.TryAddTarget(dev, target, source).reg)
  {
    TryAddTargetFrame(r, dev, target, source);
    if r.outputs[target].mute == map[] {
      assert r.TouchIn(source).TouchOut(target) == r;
    }
  }

  /** tryAddTarget of one queued input against every known output. */
  lemma AttachAllFrame(dev: Devices, e0: Registry, r: Registry, input: string)
    requires input in e0.inputs && AttachFrame(dev, e0, r)
    ensures AttachFrame(dev, e0, AttachAll(dev, r, input).reg)
  {
    var step := AttachStep(dev, input);
    var ns := SortedNames(r.outputs.Keys);
    forall r1, x | x in ns && AttachFrame(dev, e0, r1) ensures AttachFrame(dev, e0, step(r1, x).reg) {
      AttachOneFrame(dev, r1, x, input);
      AttachFrameTrans(dev, e0, r1, step(r1, x).reg);
    }
    FoldPreserves(r, ns, step, (x: Registry) => AttachFrame(dev, e0, x));
  }

  /** The whole attach phase keeps AttachFrame, whether or not it raises. */
  lemma AttachPhase(dev: Devices, e0: Registry, queued: seq<string>)
    requires forall n | n in queued :: n in e0.inputs
    ensures AttachFrame(dev, e0, Fold(e0, queued, AttachAllStep(dev)).reg)
  {
    var step := AttachAllStep(dev);
    forall r1, x | x in queued && AttachFrame(dev, e0, r1) ensures AttachFrame(dev, e0, step(r1, x).reg) {
      AttachAllFrame(dev, e0, r1, x);
    }
    FoldPreserves(e0, queued, step, (x: Registry) => AttachFrame(dev, e0, x));
  }

  // ---------------------------------------------------------------- the whole synchronisation

  /**
   * The inputs of `r1` after a synchronisation of `r` with the live inputs
   * of `dev`: every known and every live name has a record; a record is
   * available exactly when its name is live and keeps its request (a new
   * one does not echo); a unit that vanished, and a new one, is closed and
   * stopped; a unit that reconnects and should echo is open on the live id
   * of its name and echoing; any other live unit is as it was.
   */
  ghost predicate InputSynced(dev: Devices, r: Registry, r1: Registry)
  {
    && (forall n :: n in r1.inputs <==> n in r.inputs || n in dev.inputs)
    && (forall n | n in r1.inputs ::
          r1.inputs[n].available == (n in dev.inputs) && r1.inputs[n].echo == (n in r.inputs && r.inputs[n].echo))
    && (forall n | n in r1.inputs && (n !in r.inputs || n !in dev.inputs) ::
          !r1.inputs[n].echoer.open && !r1.inputs[n].echoer.echoing)
    && (forall n | n in r.inputs && n in dev.inputs && Wakes(r.inputs[n]) ::
          r1.inputs[n].echoer.open && r1.inputs[n].echoer.echoing && r1.inputs[n].echoer.source == IdByName(dev.inputs, n))
    && (forall n | n in r.inputs && n in dev.inputs && !Wakes(r.inputs[n]) ::
          r1.inputs[n].echoer.open == r.inputs[n].echoer.open && r1.inputs[n].echoer.echoing == r.inputs[n].echoer.echoing)
  }

  /** InputSynced speaks only of what KeepsUnits keeps. */
  lemma InputSyncedKeeps(dev: Devices, r: Registry, r1: Registry, r2: Registry)
    requires InputSynced(dev, r, r1) && KeepsUnits(r1, r2)
    ensures InputSynced(dev, r, r2)
  {
  }

  /** Phases a and b, once their loop invariants are known. */
  lemma InputSyncedFrom(dev: Devices, r: Registry, a: Scan, ns: seq<string>, b: Registry)
    requires InputScanned(r, dev, dev.inputs, a)
    requires InputsUpdated(a.avail, a.reg, ns, b)
    requires forall n | n in a.reg.inputs :: n in ns
    ensures InputSynced(dev, r, b)
    ensures b.outputs == r.outputs
    ensures forall n | n in r.inputs :: b.inputs[n].echoer.targets == r.inputs[n].echoer.targets
    ensures forall n | n in b.inputs && n !in r.inputs :: b.inputs[n].echoer.targets == map[]
  {
    forall n | n in b.inputs
      ensures InputRecordUpdated(a.avail, n, a.reg.inputs[n], b.inputs[n])
    {
    }
  }

  /** Phases a and b of syncMidiDevices, when neither raises. */
  lemma InputPhases(dev: Devices, r: Registry)
    ensures var a := ScanFold(Scan(r, Unseen(r.inputs.Keys), [], None), dev.inputs, ScanInputStep(dev));
      var b := Fold(a.reg, SortedNames(a.reg.inputs.Keys), UpdateInputStep(dev, a.avail));
      a.err.None? && b.err.None? ==>
        && InputSynced(dev, r, b.reg)
        && b.reg.outputs == r.outputs
        && (forall n | n in r.inputs :: b.reg.inputs[n].echoer.targets == r.inputs[n].echoer.targets)
        && (forall n | n in b.reg.inputs && n !in r.inputs :: b.reg.inputs[n].echoer.targets == map[])
        && (forall n | n in a.queued :: n in b.reg.inputs)
  {
    var a := ScanFold(Scan(r, Unseen(r.inputs.Keys), [], None), dev.inputs, ScanInputStep(dev));
    InputScanPrefix(r, dev, |dev.inputs|);
    assert dev.inputs[..|dev.inputs|] == dev.inputs;
    if a.err.None? {
      var ns := SortedNames(a.reg.inputs.Keys);
      InputUpdate(dev, a.avail, a.reg);
      var b := Fold(a.reg, ns, UpdateInputStep(dev, a.avail));
      if b.err.None? {
        InputSyncedFrom(dev, r, a, ns, b.reg);
      }
    }
  }

  /**
   * The outputs of `r1` after a synchronisation of the outputs `outs0` with
   * the live outputs of `dev`, the known inputs being `ins`: every known and every live
   * name has a record, available exactly when the name is live; every
   * stored mute value is kept; an output that reconnects holds a mute value
   * for every input, the stored one or else the revision's default; a new
   * output has no mute records and no focus rules.
   */
  ghost predicate OutputSynced(rev: Revision, dev: Devices, outs0: map<string, OutProps>, ins: set<string>, r1: Registry)
  {
    && (forall n :: n in r1.outputs <==> n in outs0 || n in dev.outputs)
    && (forall n | n in r1.outputs :: r1.outputs[n].available == (n in dev.outputs))
    && (forall n | n in outs0 ::
          forall i | i in outs0[n].mute :: i in r1.outputs[n].mute && r1.outputs[n].mute[i] == outs0[n].mute[i])
    && (forall n | n in outs0 && n in dev.outputs && !outs0[n].available ::
          ReappliedMute(rev, outs0[n], ins, r1.outputs[n].mute))
    && (forall n | n in r1.outputs && n !in outs0 :: r1.outputs[n] == OutProps(true, map[], map[]))
  }

  /** OutputSynced survives the attach phase. */
  lemma OutputSyncedKeeps(rev: Revision, dev: Devices, outs0: map<string, OutProps>, ins: set<string>, r1: Registry, r2: Registry)
    requires OutputSynced(rev, dev, outs0, ins, r1) && AttachFrame(dev, r1, r2)
    ensures OutputSynced(rev, dev, outs0, ins, r2)
  {
  }

  /** Phases c and d, once their loop invariants are known. */
  lemma OutputSyncedFrom(rev: Revision, dev: Devices, c0: Registry, c: Scan, ns: seq<string>, d: Registry)
    requires OutputScanned(rev, dev, c0, dev.outputs, c)
    requires OutputsUpdated(dev, c.avail, c.reg, ns, d)
    requires forall n | n in c.reg.outputs :: n in ns
    ensures OutputSynced(rev, dev, c0.outputs, c0.inputs.Keys, d)
    ensures KeepsUnits(c0, d)
    ensures !dev.MapperOpens() && NoInvalidTarget(c0) ==> NoInvalidTarget(d) && d.inputs == c.reg.inputs
  {
    assert UnseenGone(dev, c.avail);
    KeepsUnitsTrans(c0, c.reg, d);
    forall n | n in c0.outputs
      ensures forall i | i in c0.outputs[n].mute :: i in d.outputs[n].mute && d.outputs[n].mute[i] == c0.outputs[n].mute[i]
    {
      assert d.outputs[n].mute == c.reg.outputs[n].mute;
    }
  }

  /** Phases c and d of syncMidiDevices, started from `c0`, when neither raises. */
  lemma OutputPhases(rev: Revision, dev: Devices, c0: Registry)
    ensures var c := ScanFold(Scan(c0, Unseen(c0.outputs.Keys), [], None), dev.outputs, ScanOutputStep(rev, dev));
      var d := Fold(c.reg, SortedNames(c.reg.outputs.Keys), UpdateOutputStep(dev, c.avail));
      c.err.None? && d.err.None? ==>
        && OutputSynced(rev, dev, c0.outputs, c0.inputs.Keys, d.reg)
        && KeepsUnits(c0, d.reg)
        && (!dev.MapperOpens() && NoInvalidTarget(c0) ==> NoInvalidTarget(d.reg) && d.reg.inputs == c.reg.inputs)
  {
    var c := ScanFold(Scan(c0, Unseen(c0.outputs.Keys), [], None), dev.outputs, ScanOutputStep(rev, dev));
    OutputScanPrefix(rev, dev, c0, |dev.outputs|);
    assert dev.outputs[..|dev.outputs|] == dev.outputs;
    if c.err.None? {
      var ns := SortedNames(c.reg.outputs.Keys);
      OutputUpdate(dev, c.avail, c.reg);
      var d := Fold(c.reg, ns, UpdateOutputStep(dev, c.avail));
      if d.err.None? {
        OutputSyncedFrom(rev, dev, c0, c, ns, d.reg);
      }
    }
  }

  /** syncMidiDevices that raises nothing runs all five phases, none of which raises. */
  lemma SyncUnfold(r: Registry, rev: Revision, dev: Devices)
    ensures var a := ScanFold(Scan(r, Unseen(r.inputs.Keys), [], None), dev.inputs, ScanInputStep(dev));
      var b := Fold(a.reg, SortedNames(a.reg.inputs.Keys), UpdateInputStep(dev, a.avail));
      var c := ScanFold(Scan(b.reg, Unseen(b.reg.outputs.Keys), [], None), dev.outputs, ScanOutputStep(rev, dev));
      var d := Fold(c.reg, SortedNames(c.reg.outputs.Keys), UpdateOutputStep(dev, c.avail));
      r.Sync(rev, dev).err.None? ==>
        && a.err.None? && b.err.None? && c.err.None? && d.err.None?
        && r.Sync(rev, dev) == Fold(d.reg, a.queued, AttachAllStep(dev))
  {
  }

  /** The three frames of the synchronisation put together. */
  lemma SyncCombine(rev: Revision, dev: Devices, r: Registry, b: Registry, c: Registry, d: Registry, e: Registry)
    requires InputSynced(dev, r, b) && b.outputs == r.outputs
    requires forall n | n in r.inputs :: b.inputs[n].echoer.targets == r.inputs[n].echoer.targets
    requires forall n | n in b.inputs && n !in r.inputs :: b.inputs[n].echoer.targets == map[]
    requires OutputSynced(rev, dev, b.outputs, b.inputs.Keys, d) && KeepsUnits(b, d)
    requires !dev.MapperOpens() && NoInvalidTarget(b) ==> NoInvalidTarget(d) && d.inputs == c.inputs
    requires AttachFrame(dev, d, e)
    ensures InputSynced(dev, r, e)
    ensures OutputSynced(rev, dev, r.outputs, e.inputs.Keys, e)
    ensures !dev.MapperOpens() && NoInvalidTarget(r) ==> NoInvalidTarget(e)
  {
    KeepsUnitsTrans(b, d, e);
    InputSyncedKeeps(dev, r, b, e);
    OutputSyncedKeeps(rev, dev, b.outputs, b.inputs.Keys, d, e);
    assert e.inputs.Keys == b.inputs.Keys;
    if !dev.MapperOpens() && NoInvalidTarget(r) {
      assert NoInvalidTarget(b);
    }
  }

  /**
   * syncMidiDevices, when it raises nothing: the inputs are InputSynced and
   * the outputs OutputSynced with the old records, and a registry in which
   * no unit holds the invalid id stays so unless the MIDI mapper opens.
   */
  lemma SyncEffect(r: Registry, rev: Revision, dev: Devices)
    requires r.Sync(rev, dev).err.None?
    ensures var o := r.Sync(rev, dev).reg;
      && InputSynced(dev, r, o)
      && OutputSynced(rev, dev, r.outputs, o.inputs.Keys, o)
      && (!dev.MapperOpens() && NoInvalidTarget(r) ==> NoInvalidTarget(o))
  {
    var a := ScanFold(Scan(r, Unseen(r.inputs.Keys), [], None), dev.inputs, ScanInputStep(dev));
    var b := Fold(a.reg, SortedNames(a.reg.inputs.Keys), UpdateInputStep(dev, a.avail));
    var c := ScanFold(Scan(b.reg, Unseen(b.reg.outputs.Keys), [], None), dev.outputs, ScanOutputStep(rev, dev));
    var d := Fold(c.reg, SortedNames(c.reg.outputs.Keys), UpdateOutputStep(dev, c.avail));
    SyncUnfold(r, rev, dev);
    InputPhases(dev, r);
    OutputPhases(rev, dev, b.reg);
    AttachPhase(dev, d.reg, a.queued);
    SyncCombine(rev, dev, r, b.reg, c.reg, d.reg, Fold(d.reg, a.queued, AttachAllStep(dev)).reg);
  }

  /**
   * A synchronisation that raises nothing keeps the life cycle of every unit
   * consistent with its record: open exactly when available and asked to
   * echo, and echoing exactly when open.
   */
  lemma SyncConsistent(r: Registry, rev: Revision, dev: Devices)
    requires Consistent(r) && r.Sync(rev, dev).err.None?
    ensures Consistent(r.Sync(rev, dev).reg)
  {
    SyncEffect(r, rev, dev);
    var o := r.Sync(rev, dev).reg;
    forall n | n in o.inputs
      ensures o.inputs[n].echoer.open == (o.inputs[n].available && o.inputs[n].echo)
      ensures o.inputs[n].echoer.echoing == o.inputs[n].echoer.open
    {
      if n in r.inputs && n in dev.inputs && !Wakes(r.inputs[n]) {
        assert r.inputs[n].echoer.open == (r.inputs[n].available && r.inputs[n].echo);
      }
    }
  }

  /**
   * The mute value an output that reconnects gives an input it has no
   * record for: true (the pair stays silent) in the current revision and
   * false (the pair sends) in the older one.
   */
  lemma SyncReconnectDefault(r: Registry, rev: Revision, dev: Devices, o: Registry, output: string, input: string)
    requires r.Sync(rev, dev) == Outcome(o, None)
    requires output in r.outputs && output in dev.outputs && !r.outputs[output].available
    requires input in o.inputs && input !in r.outputs[output].mute
    ensures output in o.outputs && input in o.outputs[output].mute
    ensures o.outputs[output].mute[input] == (rev == Current)
  {
    SyncEffect(r, rev, dev);
    assert ReappliedMute(rev, r.outputs[output], o.inputs.Keys, o.outputs[output].mute);
  }

  /**
   * A reconnecting output keeps every mute value it had stored, and a live
   * output seen for the first time starts available, with neither mute
   * records nor focus rules.
   */
  lemma SyncOutputRecords(r: Registry, rev: Revision, dev: Devices, o: Registry, output: string)
    requires r.Sync(rev, dev) == Outcome(o, None)
    requires output in r.outputs || output in dev.outputs
    ensures output in o.outputs
    ensures output in r.outputs ==> forall i | i in r.outputs[output].mute ::
      i in o.outputs[output].mute && o.outputs[output].mute[i] == r.outputs[output].mute[i]
    ensures output !in r.outputs ==> o.outputs[output] == OutProps(true, map[], map[])
  {
    SyncEffect(r, rev, dev);
  }

  // ---------------------------------------------------------------- records persist, even when a phase raises

  lemma {:induction false} FoldGrows(r: Registry, xs: seq<string>, step: (Registry, string) -> Outcome)
    requires forall r1, x | x in xs :: Grows(r1, step(r1, x).reg)
    ensures Grows(r, Fold(r, xs, step).reg)
  {
    FoldPreserves(r, xs, step, (x: Registry) => Grows(r, x));
  }

  lemma {:induction false} ScanGrows(s: Scan, names: seq<string>, step: (Scan, string) -> Scan)
    requires forall s1: Scan, x | x in names :: Grows(s1.reg, step(s1, x).reg)
    ensures Grows(s.reg, ScanFold(s, names, step).reg)
  {
    ScanFoldPreserves(s, names, step, (x: Scan) => Grows(s.reg, x.reg));
  }

  lemma TryAddTargetGrows(r: Registry, dev: Devices, target: string, source: string)
    ensures Grows(r, r.TryAddTarget(dev, target, source).reg)
  {
  }

  lemma SetTargetMuteGrows(r: Registry, dev: Devices, target: string, source: string, val: bool)
    ensures Grows(r, r.SetTargetMute(dev, target, source, val).reg)
  {
    var op := r.Out(target);
    TryAddTargetGrows(r.WithOut(target, op.(mute := op.mute[source := val])), dev, target, source);
  }

  lemma SetTargetFocusSendGrows(r: Registry, dev: Devices, target: string, source: string, rule: string)
    ensures Grows(r, r.SetTargetFocusSend(dev, target, source, rule).reg)
  {
    var op := r.Out(target);
    TryAddTargetGrows(r.WithOut(target, op.(focusSend := op.focusSend[source := rule])), dev, target, source);
  }

  lemma ReapplyOneGrows(rev: Revision, dev: Devices, output: string, r: Registry, input: string)
    ensures Grows(r, ReapplyOne(rev, dev, output, r, input).reg)
  {
    var m := r.SetTargetMute(dev, output, input, ReapplyMute(rev, r.Out(output), input));
    SetTargetMuteGrows(r, dev, output, input, ReapplyMute(rev, r.Out(output), input));
    var op := m.reg.Out(output);
    SetTargetFocusSendGrows(m.reg, dev, output, input, if input in op.focusSend then op.focusSend[input] else "");
  }

  lemma ScanOutputGrows(rev: Revision, dev: Devices, s: Scan, name: string)
    ensures Grows(s.reg, ScanOutput(rev, dev, s, name).reg)
  {
    if name in s.avail && !s.reg.Out(name).available {
      var step := ReapplyStep(rev, dev, name);
      forall r1, x | x in SortedNames(s.reg.inputs.Keys) ensures Grows(r1, step(r1, x).reg) {
        ReapplyOneGrows(rev, dev, name, r1, x);
      }
      FoldGrows(s.reg.TouchOut(name), SortedNames(s.reg.inputs.Keys), step);
    }
  }

  lemma UpdateOutputGrows(dev: Devices, avail: map<string, bool>, r: Registry, name: string)
    ensures Grows(r, UpdateOutput(dev, avail, r, name).reg)
  {
    if name in avail && !avail[name] {
      var r1 := r.WithOut(name, r.Out(name).(available := avail[name]));
      var id := IdByName(dev.outputs, name);
      DetachLoop(dev, id, r1, SortedNames(r1.inputs.Keys));
    }
  }

  lemma AttachAllGrows(dev: Devices, r: Registry, input: string)
    ensures Grows(r, AttachAll(dev, r, input).reg)
  {
    var step := AttachStep(dev, input);
    forall r1, x | x in SortedNames(r.outputs.Keys) ensures Grows(r1, step(r1, x).reg) {
      TryAddTargetGrows(r1, dev, x, input);
    }
    FoldGrows(r, SortedNames(r.outputs.Keys), step);
  }

  /** The registry syncMidiDevices leaves is the one of the phase that raised, or the last. */
  lemma SyncStopsAtPhase(r: Registry, rev: Revision, dev: Devices)
    ensures var a := ScanFold(Scan(r, Unseen(r.inputs.Keys), [], None), dev.inputs, ScanInputStep(dev));
      var b := Fold(a.reg, SortedNames(a.reg.inputs.Keys), UpdateInputStep(dev, a.avail));
      var c := ScanFold(Scan(b.reg, Unseen(b.reg.outputs.Keys), [], None), dev.outputs, ScanOutputStep(rev, dev));
      var d := Fold(c.reg, SortedNames(c.reg.outputs.Keys), UpdateOutputStep(dev, c.avail));
      var o := r.Sync(rev, dev).reg;
      o == a.reg || o == b.reg || o == c.reg || o == d.reg || o == Fold(d.reg, a.queued, AttachAllStep(dev)).reg
  {
    var a := ScanFold(Scan(r, Unseen(r.inputs.Keys), [], None), dev.inputs, ScanInputStep(dev));
    var b := Fold(a.reg, SortedNames(a.reg.inputs.Keys), UpdateInputStep(dev, a.avail));
    var c := ScanFold(Scan(b.reg, Unseen(b.reg.outputs.Keys), [], None), dev.outputs, ScanOutputStep(rev, dev));
    var d := Fold(c.reg, SortedNames(c.reg.outputs.Keys), UpdateOutputStep(dev, c.avail));
    var o := r.Sync(rev, dev);
    if a.err.Some? {
      assert o.reg == a.reg;
    } else if b.err.Some? {
      assert o == b;
    } else if c.err.Some? {
      assert o.reg == c.reg;
    } else if d.err.Some? {
      assert o == d;
    } else {
      assert o == Fold(d.reg, a.queued, AttachAllStep(dev));
    }
  }

  lemma InputPhasesGrow(r: Registry, dev: Devices)
    ensures var a := ScanFold(Scan(r, Unseen(r.inputs.Keys), [], None), dev.inputs, ScanInputStep(dev));
      var b := Fold(a.reg, SortedNames(a.reg.inputs.Keys), UpdateInputStep(dev, a.avail));
      Grows(r, a.reg) && Grows(a.reg, b.reg)
  {
    var s0 := Scan(r, Unseen(r.inputs.Keys), [], None);
    forall s1: Scan, x | x in dev.inputs ensures Grows(s1.reg, ScanInputStep(dev)(s1, x).reg) {
      ScanInputGrows(dev, s1, x);
    }
    ScanGrows(s0, dev.inputs, ScanInputStep(dev));
    var a := ScanFold(s0, dev.inputs, ScanInputStep(dev));
    UpdateInputsGrow(dev, a.avail, a.reg, SortedNames(a.reg.inputs.Keys));
  }

  lemma ScanInputGrows(dev: Devices, s: Scan, name: string)
    ensures Grows(s.reg, ScanInput(dev, s, name).reg)
  {
  }

  /** The availability update of the known inputs `ns`. */
  lemma UpdateInputsGrow(dev: Devices, avail: map<string, bool>, r: Registry, ns: seq<string>)
    ensures Grows(r, Fold(r, ns, UpdateInputStep(dev, avail)).reg)
  {
    forall r1, x | x in ns ensures Grows(r1, UpdateInputStep(dev, avail)(r1, x).reg) {
      UpdateInputGrows(dev, avail, r1, x);
    }
    FoldGrows(r, ns, UpdateInputStep(dev, avail));
  }

  lemma UpdateInputGrows(dev: Devices, avail: map<string, bool>, r: Registry, name: string)
    ensures Grows(r, UpdateInput(dev, avail, r, name).reg)
  {
  }

  lemma OutputPhasesGrow(rev: Revision, dev: Devices, b: Registry)
    ensures var c := ScanFold(Scan(b, Unseen(b.outputs.Keys), [], None), dev.outputs, ScanOutputStep(rev, dev));
      var d := Fold(c.reg, SortedNames(c.reg.outputs.Keys), UpdateOutputStep(dev, c.avail));
      Grows(b, c.reg) && Grows(c.reg, d.reg)
  {
    var c := ScanFold(Scan(b, Unseen(b.outputs.Keys), [], None), dev.outputs, ScanOutputStep(rev, dev));
    forall s1: Scan, x | x in dev.outputs ensures Grows(s1.reg, ScanOutputStep(rev, dev)(s1, x).reg) {
      ScanOutputGrows(rev, dev, s1, x);
    }
    ScanGrows(Scan(b, Unseen(b.outputs.Keys), [], None), dev.outputs, ScanOutputStep(rev, dev));
    forall r1, x | x in SortedNames(c.reg.outputs.Keys) ensures Grows(r1, UpdateOutputStep(dev, c.avail)(r1, x).reg) {
      UpdateOutputGrows(dev, c.avail, r1, x);
    }
    FoldGrows(c.reg, SortedNames(c.reg.outputs.Keys), UpdateOutputStep(dev, c.avail));
  }

  lemma AttachPhaseGrows(dev: Devices, d: Registry, queued: seq<string>)
    ensures Grows(d, Fold(d, queued, AttachAllStep(dev)).reg)
  {
    forall r1, x | x in queued ensures Grows(r1, AttachAllStep(dev)(r1, x).reg) {
      AttachAllGrows(dev, r1, x);
    }
    FoldGrows(d, queued, AttachAllStep(dev));
  }

  /**
   * syncMidiDevices never forgets a device: every input and output name
   * known before is known after, whether or not an exception is raised.
   */
  lemma SyncGrows(r: Registry, rev: Revision, dev: Devices)
    ensures Grows(r, r.Sync(rev, dev).reg)
  {
    var a := ScanFold(Scan(r, Unseen(r.inputs.Keys), [], None), dev.inputs, ScanInputStep(dev));
    var b := Fold(a.reg, SortedNames(a.reg.inputs.Keys), UpdateInputStep(dev, a.avail));
    var c := ScanFold(Scan(b.reg, Unseen(b.reg.outputs.Keys), [], None), dev.outputs, ScanOutputStep(rev, dev));
    var d := Fold(c.reg, SortedNames(c.reg.outputs.Keys), UpdateOutputStep(dev, c.avail));
    SyncStopsAtPhase(r, rev, dev);
    InputPhasesGrow(r, dev);
    OutputPhasesGrow(rev, dev, b.reg);
    AttachPhaseGrows(dev, d.reg, a.queued);
  }
}
