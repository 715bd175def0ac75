/**
 * How targets come back: the attach phase of syncMidiDevices re-attaches
 * every unmuted output to an input that has just become live, and the
 * re-apply step of a reconnecting output attaches it, or leaves it
 * detached, depending on the revision's default for a missing mute record.
 */
module ReattachProps {
  import opened Winmm
  import opened MidiErrors
  import opened Ordering
  import opened Echo
  import opened ManagerSpec
  import opened ManagerProps
  import opened SyncProps

  /** No unit loses a target id, and no input record disappears. */
  ghost predicate TargetsKept(r1: Registry, r2: Registry)
  {
    forall n | n in r1.inputs ::
      n in r2.inputs && r1.inputs[n].echoer.targets.Keys <= r2.inputs[n].echoer.targets.Keys
  }

  lemma TargetsKeptTrans(r1: Registry, r2: Registry, r3: Registry)
    requires TargetsKept(r1, r2) && TargetsKept(r2, r3)
    ensures TargetsKept(r1, r3)
  {
  }

  /** Whether the unit of `input` holds the id the name `output` has among the live outputs. */
  ghost predicate Holds(dev: Devices, r: Registry, input: string, output: string)
  {
    input in r.inputs && IdByName(dev.outputs, output) in r.inputs[input].echoer.targets
  }

  /** The pair (`output`, `input`) has a mute record that says "send". */
  ghost predicate Unmuted(r: Registry, output: string, input: string)
  {
    output in r.outputs && input in r.outputs[output].mute && !r.outputs[output].mute[input]
  }

  /**
   * tryAddTarget never detaches anything: a failed open erases only the id
   * that the gate had just found missing.
   */
  lemma TryAddTargetKeepsTargets(r: Registry, dev: Devices, target: string, source: string)
    ensures TargetsKept(r, r.TryAddTarget(dev, target, source).reg)
  {
    var o := r.TryAddTarget(dev, target, source);
    if r.AttachGate(dev, target, source) {
      var tid := IdByName(dev.outputs, target);
      var p := r.In(source);
      var a := p.echoer.Add(tid, dev.OutOpenResult(tid));
      assert a.state.targets.Keys >= p.echoer.targets.Keys;
    }
  }

  /**
   * tryAddTarget on an available input with an unmuted record for the pair
   * leaves the output attached whenever it raises nothing.
   */
  lemma TryAddTargetAttaches(r: Registry, dev: Devices, target: string, source: string)
    requires source in r.inputs && r.inputs[source].available && Unmuted(r, target, source)
    ensures var o := r.TryAddTarget(dev, target, source);
      o.err.None? ==> Holds(dev, o.reg, source, target)
  {
    TryAddTargetGate(r, dev, target, source);
  }

  /** What the loop of tryAddTarget calls for one input keeps, raised or not. */
  ghost predicate AttachKept(dev: Devices, r0: Registry, r: Registry)
  {
    AttachFrame(dev, r0, r) && TargetsKept(r0, r)
  }

  /** The state of that loop after the outputs `done`, when it has not raised. */
  ghost predicate AttachedTo(dev: Devices, r0: Registry, input: string, done: seq<string>, r: Registry)
  {
    AttachKept(dev, r0, r) && forall t | t in done && Unmuted(r0, t, input) :: Holds(dev, r, input, t)
  }

  /** One tryAddTarget of the loop for `input`. */
  lemma AttachStepKeeps(dev: Devices, r0: Registry, input: string, done: seq<string>, r: Registry, t: string)
    requires input in r0.inputs && r0.inputs[input].available && t in r0.outputs
    requires AttachedTo(dev, r0, input, done, r)
    ensures var o := r.TryAddTarget(dev, t, input);
      AttachKept(dev, r0, o.reg) && (o.err.None? ==> AttachedTo(dev, r0, input, done + [t], o.reg))
  {
    var o := r.TryAddTarget(dev, t, input);
    AttachOneFrame(dev, r, t, input);
    AttachFrameTrans(dev, r0, r, o.reg);
    TryAddTargetKeepsTargets(r, dev, t, input);
    TargetsKeptTrans(r0, r, o.reg);
    if o.err.None? {
      if Unmuted(r0, t, input) {
        TryAddTargetAttaches(r, dev, t, input);
      }
    }
  }

  /** The loop of tryAddTarget for `input` over the outputs `ns[..k]`. */
  lemma {:induction false} AttachAllPrefix(dev: Devices, r0: Registry, input: string, ns: seq<string>, k: nat)
    requires input in r0.inputs && r0.inputs[input].available
    requires k <= |ns| && forall t | t in ns :: t in r0.outputs
    ensures var o := Fold(r0, ns[..k], AttachStep(dev, input));
      AttachKept(dev, r0, o.reg) && (o.err.None? ==> AttachedTo(dev, r0, input, ns[..k], o.reg))
  {
    var step := AttachStep(dev, input);
    if k == 0 {
      assert Fold(r0, ns[..0], step).reg == r0;
      KeepsTrans(r0, r0, r0);
    } else {
      AttachAllPrefix(dev, r0, input, ns, k - 1);
      FoldSnoc(r0, ns, k - 1, step);
      PrefixSnoc(ns, k);
      var o := Fold(r0, ns[..k - 1], step);
      if o.err.None? {
        assert step(o.reg, ns[k - 1]) == o.reg.TryAddTarget(dev, ns[k - 1], input);
        AttachStepKeeps(dev, r0, input, ns[..k - 1], o.reg, ns[k - 1]);
      }
    }
  }

  /**
   * tryAddTarget of one input against every known output: nothing is
   * detached, and when nothing raises, every output whose record for the
   * input says "send" is attached.
   */
  lemma AttachAllAttaches(dev: Devices, r: Registry, input: string)
    requires input in r.inputs && r.inputs[input].available
    ensures var o := AttachAll(dev, r, input);
      && AttachKept(dev, r, o.reg)
      && (o.err.None? ==> forall t | Unmuted(r, t, input) :: Holds(dev, o.reg, input, t))
  {
    AttachAllOver(dev, r, input, SortedNames(r.outputs.Keys));
  }

  /** The loop of tryAddTarget for `input` over a sequence holding every known output. */
  lemma AttachAllOver(dev: Devices, r: Registry, input: string, ns: seq<string>)
    requires input in r.inputs && r.inputs[input].available
    requires forall t :: t in ns <==> t in r.outputs
    ensures var o := Fold(r, ns, AttachStep(dev, input));
      && AttachKept(dev, r, o.reg)
      && (o.err.None? ==> forall t | Unmuted(r, t, input) :: Holds(dev, o.reg, input, t))
  {
    AttachAllPrefix(dev, r, input, ns, |ns|);
    assert ns[..|ns|] == ns;
  }

  /** The state of the attach phase after the queued inputs `done`, when it has not raised. */
  ghost predicate QueueAttached(dev: Devices, e0: Registry, done: seq<string>, r: Registry)
  {
    AttachKept(dev, e0, r) && forall n, t | n in done && Unmuted(e0, t, n) :: Holds(dev, r, n, t)
  }

  /** One queued input of the attach phase, given what its loop does. */
  lemma QueueAttachedFrom(dev: Devices, e0: Registry, done: seq<string>, r: Registry, n: string, o: Outcome)
    requires QueueAttached(dev, e0, done, r)
    requires AttachKept(dev, r, o.reg)
    requires o.err.None? ==> forall t | Unmuted(r, t, n) :: Holds(dev, o.reg, n, t)
    ensures AttachKept(dev, e0, o.reg) && (o.err.None? ==> QueueAttached(dev, e0, done + [n], o.reg))
  {
    AttachFrameTrans(dev, e0, r, o.reg);
    TargetsKeptTrans(e0, r, o.reg);
    if o.err.None? {
      forall n', t | n' in done + [n] && Unmuted(e0, t, n') ensures Holds(dev, o.reg, n', t) {
        if n' == n {
          assert Unmuted(r, t, n);
        } else {
          assert n' in done;
        }
      }
    }
  }

  /** One queued input of the attach phase. */
  lemma AttachQueuedStep(dev: Devices, e0: Registry, done: seq<string>, r: Registry, n: string)
    requires n in e0.inputs && e0.inputs[n].available
    requires QueueAttached(dev, e0, done, r)
    ensures var o := AttachAll(dev, r, n);
      AttachKept(dev, e0, o.reg) && (o.err.None? ==> QueueAttached(dev, e0, done + [n], o.reg))
  {
    AttachAllAttaches(dev, r, n);
    QueueAttachedFrom(dev, e0, done, r, n, AttachAll(dev, r, n));
  }

  /** The attach phase over the queued inputs `qs[..k]`. */
  lemma {:induction false} AttachQueuedPrefix(dev: Devices, e0: Registry, qs: seq<string>, k: nat)
    requires k <= |qs| && forall n | n in qs :: n in e0.inputs && e0.inputs[n].available
    ensures var o := Fold(e0, qs[..k], AttachAllStep(dev));
      AttachKept(dev, e0, o.reg) && (o.err.None? ==> QueueAttached(dev, e0, qs[..k], o.reg))
  {
    var step := AttachAllStep(dev);
    if k == 0 {
      assert Fold(e0, qs[..0], step).reg == e0;
      KeepsTrans(e0, e0, e0);
    } else {
      AttachQueuedPrefix(dev, e0, qs, k - 1);
      FoldSnoc(e0, qs, k - 1, step);
      PrefixSnoc(qs, k);
      var o := Fold(e0, qs[..k - 1], step);
      if o.err.None? {
        assert qs[k - 1] in qs;
        assert step(o.reg, qs[k - 1]) == AttachAll(dev, o.reg, qs[k - 1]);
        AttachQueuedStep(dev, e0, qs[..k - 1], o.reg, qs[k - 1]);
      }
    }
  }

  /** The whole attach phase of syncMidiDevices. */
  lemma AttachQueued(dev: Devices, e0: Registry, qs: seq<string>)
    requires forall n | n in qs :: n in e0.inputs && e0.inputs[n].available
    ensures var o := Fold(e0, qs, AttachAllStep(dev));
      && AttachKept(dev, e0, o.reg)
      && (o.err.None? ==> forall n, t | n in qs && Unmuted(e0, t, n) :: Holds(dev, o.reg, n, t))
  {
    AttachQueuedPrefix(dev, e0, qs, |qs|);
    assert qs[..|qs|] == qs;
  }

  /**
   * Reconnection: after a synchronisation that raises nothing, an input
   * that is live and was either unknown or unavailable with echo requested
   * holds, as a target, every output whose mute record for it says "send";
   * no user action is needed to restore its routing.
   */
  lemma SyncReattaches(r: Registry, rev: Revision, dev: Devices)
    requires r.Sync(rev, dev).err.None?
    ensures var o := r.Sync(rev, dev).reg;
      forall n, t | n in dev.inputs && (n !in r.inputs || Wakes(r.inputs[n])) && Unmuted(o, t, n) ::
        Holds(dev, o, n, t)
  {
    var a := ScanFold(Scan(r, Unseen(r.inputs.Keys), [], None), dev.inputs, ScanInputStep(dev));
    var b := Fold(a.reg, SortedNames(a.reg.inputs.Keys), UpdateInputStep(dev, a.avail));
    var c := ScanFold(Scan(b.reg, Unseen(b.reg.outputs.Keys), [], None), dev.outputs, ScanOutputStep(rev, dev));
    var d := Fold(c.reg, SortedNames(c.reg.outputs.Keys), UpdateOutputStep(dev, c.avail));
    SyncUnfold(r, rev, dev);
    assert dev.inputs[..|dev.inputs|] == dev.inputs;
    InputScanPrefix(r, dev, |dev.inputs|);
    InputPhases(dev, r);
    OutputPhases(rev, dev, b.reg);
    ReattachFrom(r, dev, a, b.reg, d.reg);
  }

  /** The attach phase of SyncReattaches, given what the first four phases establish. */
  lemma ReattachFrom(r: Registry, dev: Devices, a: Scan, b: Registry, d: Registry)
    requires InputScanQueue(r, dev.inputs, a)
    requires InputSynced(dev, r, b) && KeepsUnits(b, d)
    requires forall n | n in a.queued :: n in b.inputs
    ensures var o := Fold(d, a.queued, AttachAllStep(dev));
      o.err.None? ==>
        forall n, t | n in dev.inputs && (n !in r.inputs || Wakes(r.inputs[n])) && Unmuted(o.reg, t, n) ::
          Holds(dev, o.reg, n, t)
  {
    AttachQueued(dev, d, a.queued);
    var o := Fold(d, a.queued, AttachAllStep(dev));
    if o.err.None? {
      forall n, t | n in dev.inputs && (n !in r.inputs || Wakes(r.inputs[n])) && Unmuted(o.reg, t, n)
        ensures Holds(dev, o.reg, n, t)
      {
        assert n in a.queued;
        assert Unmuted(d, t, n);
      }
    }
  }

  // ---------------------------------------------------------------- the two revisions on a reconnecting output

  /**
   * The current revision, re-applying a reconnecting output to an input it
   * has no mute record for, records "muted" and attaches nothing.
   */
  lemma ReapplyCurrentFailsClosed(dev: Devices, output: string, r: Registry, input: string)
    requires input !in r.Out(output).mute
    ensures var o := ReapplyOne(Current, dev, output, r, input);
      && o.err.None?
      && output in o.reg.outputs && o.reg.outputs[output].mute == r.Out(output).mute[input := true]
      && forall n | n in o.reg.inputs :: o.reg.inputs[n].echoer.targets.Keys == r.In(n).echoer.targets.Keys
  {
    var m := r.SetTargetMute(dev, output, input, true);
    MuteRaisesNothing(r, dev, output, input);
    MuteNeverAttaches(r, dev, output, input);
    SetTargetMuteRecord(r, dev, output, input, true);
    var op := m.reg.Out(output);
    var rule := if input in op.focusSend then op.focusSend[input] else "";
    FocusSendWhileMuted(m.reg, dev, output, input, rule);
  }

  /** setTargetMute(target, source, true) never raises: the gate of tryAddTarget is closed. */
  lemma MuteRaisesNothing(r: Registry, dev: Devices, target: string, source: string)
    ensures r.SetTargetMute(dev, target, source, true).err.None?
  {
    var op := r.Out(target);
    var r1 := r.WithOut(target, op.(mute := op.mute[source := true]));
    assert !r1.AttachGate(dev, target, source);
  }

  /**
   * setTargetFocusSend on a pair whose record says "muted" raises nothing,
   * attaches nothing and keeps the mute records of the output.
   */
  lemma FocusSendWhileMuted(r: Registry, dev: Devices, target: string, source: string, rule: string)
    requires source in r.Out(target).mute && r.Out(target).mute[source]
    ensures var o := r.SetTargetFocusSend(dev, target, source, rule);
      && o.err.None?
      && target in o.reg.outputs && o.reg.outputs[target].mute == r.Out(target).mute
      && forall n | n in o.reg.inputs :: o.reg.inputs[n].echoer.targets.Keys == r.In(n).echoer.targets.Keys
  {
    var op := r.Out(target);
    var r1 := r.WithOut(target, op.(focusSend := op.focusSend[source := rule]));
    assert !r1.AttachGate(dev, target, source);
    var r2 := r1.TouchIn(source).TouchOut(target);
    assert r1.TryAddTarget(dev, target, source) == Outcome(r2, None);
    LiveFocusSendFrame(r2, dev, target, source, rule);
  }

  /**
   * The legacy revision reads the missing record through operator[] as
   * false: re-applying a reconnecting output to an available input that
   * neither has a mute record for it nor holds its id attaches the output
   * unmuted, unless opening it raises.
   */
  lemma ReapplyLegacyFailsOpen(dev: Devices, output: string, r: Registry, input: string)
    requires input in r.inputs && r.inputs[input].available
    requires input !in r.Out(output).mute
    requires IdByName(dev.outputs, output) !in r.inputs[input].echoer.targets
    ensures var o := ReapplyOne(Legacy, dev, output, r, input);
      && output in o.reg.outputs && input in o.reg.outputs[output].mute && !o.reg.outputs[output].mute[input]
      && (o.err.None? ==>
            Holds(dev, o.reg, input, output)
            && !o.reg.inputs[input].echoer.targets[IdByName(dev.outputs, output)].muted)
  {
    var tid := IdByName(dev.outputs, output);
    var op0 := r.Out(output);
    var r1 := r.WithOut(output, op0.(mute := op0.mute[input := false]));
    assert r1.AttachGate(dev, output, input);
    TryAddTargetGate(r1, dev, output, input);
    var t := r1.TryAddTarget(dev, output, input);
    if t.err.None? {
      LiveMuteFrame(t.reg, dev, output, input, false);
      var l := t.reg.LiveMute(dev, output, input, false);
      assert r.SetTargetMute(dev, output, input, false) == Outcome(l, None);
      assert tid in l.inputs[input].echoer.targets && !l.inputs[input].echoer.targets[tid].muted;
      var op := l.Out(output);
      var rule := if input in op.focusSend then op.focusSend[input] else "";
      var r2 := l.WithOut(output, op.(focusSend := op.focusSend[input := rule]));
      assert !r2.AttachGate(dev, output, input);
      var r3 := r2.TouchIn(input).TouchOut(output);
      assert r2.TryAddTarget(dev, output, input) == Outcome(r3, None);
      LiveFocusSendFrame(r3, dev, output, input, rule);
    }
  }
}
