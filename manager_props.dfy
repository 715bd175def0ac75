/**
 * What the registry operations promise: the guard of setInEcho, the attach
 * gate of tryAddTarget and the effect of the target setters. What a
 * synchronisation with the live devices establishes is in module SyncProps.
 */
module ManagerProps {
  import opened Winmm
  import opened MidiErrors
  import opened Ordering
  import opened Echo
  import opened ManagerSpec

  // ---------------------------------------------------------------- invariants and frames

  /** Device records persist once seen: no operation drops a name. */
  predicate Grows(r1: Registry, r2: Registry)
  {
    r1.inputs.Keys <= r2.inputs.Keys && r1.outputs.Keys <= r2.outputs.Keys
  }

  /**
   * The life cycle of every unit matches its record: the input handle is open
   * exactly when the device is available and should echo, and it echoes
   * exactly when it is open.
   */
  predicate Consistent(r: Registry)
  {
    forall n | n in r.inputs ::
      && r.inputs[n].echoer.open == (r.inputs[n].available && r.inputs[n].echo)
      && r.inputs[n].echoer.echoing == r.inputs[n].echoer.open
  }

  /** No unit holds the id a failed name lookup yields. */
  predicate NoInvalidTarget(r: Registry)
  {
    forall n | n in r.inputs :: INVALID_MIDI_ID !in r.inputs[n].echoer.targets
  }

  /** Same input names, and for each the same availability, request, and handle state and device. */
  predicate KeepsUnits(r1: Registry, r2: Registry)
  {
    && r1.inputs.Keys == r2.inputs.Keys
    && forall n | n in r1.inputs ::
      && r2.inputs[n].available == r1.inputs[n].available
      && r2.inputs[n].echo == r1.inputs[n].echo
      && r2.inputs[n].echoer.open == r1.inputs[n].echoer.open
      && r2.inputs[n].echoer.echoing == r1.inputs[n].echoer.echoing
      && r2.inputs[n].echoer.source == r1.inputs[n].echoer.source
  }

  /** Same output names, each with the same availability. */
  predicate KeepsOutFlags(r1: Registry, r2: Registry)
  {
    && r1.outputs.Keys == r2.outputs.Keys
    && forall n | n in r1.outputs :: r2.outputs[n].available == r1.outputs[n].available
  }

  // ---------------------------------------------------------------- setInEcho

  /**
   * setInEcho touches only the record of `name` (inserting it when unknown),
   * never its availability or its targets, and records the request unless an
   * exception was raised.
   */
  lemma SetInEchoEffect(r: Registry, dev: Devices, name: string, val: bool)
    ensures var o := r.SetInEcho(dev, name, val);
      && o.reg.outputs == r.outputs
      && o.reg.inputs.Keys == r.inputs.Keys + {name}
      && (forall n | n in r.inputs && n != name :: o.reg.inputs[n] == r.inputs[n])
      && o.reg.inputs[name].available == r.In(name).available
      && o.reg.inputs[name].echoer.targets == r.In(name).echoer.targets
      && o.reg.inputs[name].echo == (if o.err.None? then val else r.In(name).echo)
  {
  }

  /**
   * The changed-and-available guard: otherwise only the request is recorded;
   * when it passes, a request to echo opens the handle on the live id of the
   * name and starts it, and a request to stop stops and closes it.
   */
  lemma SetInEchoGuard(r: Registry, dev: Devices, name: string, val: bool)
    ensures var p := r.In(name);
      var o := r.SetInEcho(dev, name, val);
      && (!(p.echo != val && p.available) ==> o == Outcome(r.WithIn(name, p.(echo := val)), None))
      && (p.echo != val && p.available && val && o.err.None? ==>
            && o.reg.inputs[name].echoer.open
            && o.reg.inputs[name].echoer.echoing
            && o.reg.inputs[name].echoer.source == IdByName(dev.inputs, name))
      && (p.echo != val && p.available && !val && o.err.None? ==>
            !o.reg.inputs[name].echoer.open && !o.reg.inputs[name].echoer.echoing)
  {
  }

  /** Repeating a request that went through changes nothing, whatever the devices are by then. */
  lemma SetInEchoIdempotent(r: Registry, dev: Devices, later: Devices, name: string, val: bool)
    requires r.SetInEcho(dev, name, val).err.None?
    ensures var r1 := r.SetInEcho(dev, name, val).reg;
      r1.SetInEcho(later, name, val) == Outcome(r1, None)
  {
    var r1 := r.SetInEcho(dev, name, val).reg;
    assert r1.WithIn(name, r1.In(name).(echo := val)) == r1;
  }

  /** A request that goes through keeps every unit's life cycle consistent with its record. */
  lemma SetInEchoConsistent(r: Registry, dev: Devices, name: string, val: bool)
    requires Consistent(r)
    requires r.SetInEcho(dev, name, val).err.None?
    ensures Consistent(r.SetInEcho(dev, name, val).reg)
  {
  }

  // ---------------------------------------------------------------- tryAddTarget

  /**
   * tryAddTarget attaches a target exactly when the gate holds and the open
   * succeeds; an attached target is unmuted and carries the stored focus
   * rule, "" when there was none; a failed open leaves it detached and
   * raises the classified error; without the gate only the two records are
   * inserted.
   */
  lemma TryAddTargetGate(r: Registry, dev: Devices, target: string, source: string)
    ensures var o := r.TryAddTarget(dev, target, source);
      var tid := IdByName(dev.outputs, target);
      && (!r.AttachGate(dev, target, source) ==> o == Outcome(r.TouchIn(source).TouchOut(target), None))
      && ((tid !in r.In(source).echoer.targets && tid in o.reg.inputs[source].echoer.targets) <==>
            (r.AttachGate(dev, target, source) && o.err.None?))
      && (r.AttachGate(dev, target, source) && o.err.None? ==>
            && !o.reg.inputs[source].echoer.targets[tid].muted
            && o.reg.inputs[source].echoer.targets[tid].focusMutePath == o.reg.outputs[target].focusSend[source]
            && o.reg.outputs[target].focusSend[source] ==
                 (if source in r.Out(target).focusSend then r.Out(target).focusSend[source] else ""))
      && (r.AttachGate(dev, target, source) && o.err.Some? ==>
            tid !in o.reg.inputs[source].echoer.targets && o.err == HandleOutputErr(dev.OutOpenResult(tid), tid))
  {
  }

  /**
   * A target whose output is not live is looked up as INVALID_MIDI_ID, that
   * is MIDI_MAPPER: it is attached, as the mapper, exactly when the mapper
   * opens, and otherwise tryAddTarget raises the classified error of that
   * open for the invalid id.
   */
  lemma TryAddTargetAbsentOutput(r: Registry, dev: Devices, target: string, source: string)
    requires target !in dev.outputs && r.AttachGate(dev, target, source)
    ensures var o := r.TryAddTarget(dev, target, source);
      && (o.err.None? <==> dev.MapperOpens())
      && (INVALID_MIDI_ID in o.reg.inputs[source].echoer.targets <==> dev.MapperOpens())
      && (o.err.Some? ==> o.err == HandleOutputErr(dev.oracle(OutOpen(INVALID_MIDI_ID)), INVALID_MIDI_ID))
  {
  }

  /**
   * tryAddTarget on a known pair either changes nothing, or replaces the
   * unit of `source` by one whose handle state is the same and, when the
   * open succeeded, writes the focus rule of the pair into `target`'s record.
   */
  lemma TryAddTargetShape(r: Registry, dev: Devices, target: string, source: string)
    requires source in r.inputs && target in r.outputs
    ensures var o := r.TryAddTarget(dev, target, source);
      && o.reg.inputs == r.inputs[source := o.reg.inputs[source]]
      && o.reg.inputs[source].(echoer := r.inputs[source].echoer) == r.inputs[source]
      && o.reg.inputs[source].echoer.(targets := r.inputs[source].echoer.targets) == r.inputs[source].echoer
      && o.reg.outputs == r.outputs[target := o.reg.outputs[target]]
      && o.reg.outputs[target].(focusSend := r.outputs[target].focusSend) == r.outputs[target]
      && (INVALID_MIDI_ID in o.reg.inputs[source].echoer.targets ==>
            INVALID_MIDI_ID in r.inputs[source].echoer.targets || dev.MapperOpens())
  {
    var o := r.TryAddTarget(dev, target, source);
    assert r.TouchIn(source).TouchOut(target) == r;
    if r.AttachGate(dev, target, source) {
      var p := r.inputs[source];
      var tid := IdByName(dev.outputs, target);
      var a := p.echoer.Add(tid, dev.OutOpenResult(tid));
      assert tid == INVALID_MIDI_ID && !dev.MapperOpens() ==> a.err.Some?;
    }
  }

  /**
   * The frame of tryAddTarget for a known pair: the units keep their life
   * cycle, the outputs their availability and mute records, every other
   * output its whole record, and, unless the MIDI mapper opens, no unit
   * gains the invalid id.
   */
  lemma TryAddTargetFrame(r: Registry, dev: Devices, target: string, source: string)
    requires source in r.inputs && target in r.outputs
    ensures var o := r.TryAddTarget(dev, target, source);
      && KeepsUnits(r, o.reg)
      && KeepsOutFlags(r, o.reg)
      && (forall n | n in r.outputs :: o.reg.outputs[n].mute == r.outputs[n].mute)
      && (forall n | n in r.outputs && n != target :: o.reg.outputs[n] == r.outputs[n])
      && (forall n | n in r.inputs && n != source :: o.reg.inputs[n] == r.inputs[n])
      && (!dev.MapperOpens() && NoInvalidTarget(r) ==> NoInvalidTarget(o.reg))
  {
    TryAddTargetShape(r, dev, target, source);
    ShapeFrame(r, r.TryAddTarget(dev, target, source).reg, target, source, dev.MapperOpens());
  }

  /** What TryAddTargetShape states implies the frame. */
  lemma ShapeFrame(r: Registry, o: Registry, target: string, source: string, mapper: bool)
    requires source in r.inputs && target in r.outputs && source in o.inputs && target in o.outputs
    requires o.inputs == r.inputs[source := o.inputs[source]]
    requires o.inputs[source].(echoer := r.inputs[source].echoer) == r.inputs[source]
    requires o.inputs[source].echoer.(targets := r.inputs[source].echoer.targets) == r.inputs[source].echoer
    requires o.outputs == r.outputs[target := o.outputs[target]]
    requires o.outputs[target].(focusSend := r.outputs[target].focusSend) == r.outputs[target]
    requires INVALID_MIDI_ID in o.inputs[source].echoer.targets ==> INVALID_MIDI_ID in r.inputs[source].echoer.targets || mapper
    ensures KeepsUnits(r, o)
    ensures KeepsOutFlags(r, o)
    ensures forall n | n in r.outputs :: o.outputs[n].mute == r.outputs[n].mute
    ensures forall n | n in r.outputs && n != target :: o.outputs[n] == r.outputs[n]
    ensures forall n | n in r.inputs && n != source :: o.inputs[n] == r.inputs[n]
    ensures !mapper && NoInvalidTarget(r) ==> NoInvalidTarget(o)
  {
    var ni, p := o.inputs[source], r.inputs[source];
    assert ni.available == p.available && ni.echo == p.echo;
    assert ni.echoer.open == p.echoer.open && ni.echoer.echoing == p.echoer.echoing && ni.echoer.source == p.echoer.source;
    assert o.outputs[target].mute == r.outputs[target].mute;
    assert o.outputs[target].available == r.outputs[target].available;
  }

  // ---------------------------------------------------------------- setTargetMute / setTargetFocusSend

  /**
   * setTargetMute records the flag even when it then raises; muting never
   * attaches or detaches a target of any unit; and when it goes through, a
   * live target of an available, echoing unit carries the new flag.
   */
  lemma SetTargetMuteEffect(r: Registry, dev: Devices, target: string, source: string, val: bool)
    ensures var o := r.SetTargetMute(dev, target, source, val);
      && o.reg.outputs[target].mute == r.Out(target).mute[source := val]
      && (val ==> forall n | n in o.reg.inputs :: o.reg.inputs[n].echoer.targets.Keys == r.In(n).echoer.targets.Keys)
      && (var p := o.reg.inputs[source];
          var oid := IdByName(dev.outputs, target);
          o.err.None? && p.available && p.echo && oid in p.echoer.targets ==> p.echoer.targets[oid].muted == val)
  {
    SetTargetMuteRecord(r, dev, target, source, val);
    if val {
      MuteNeverAttaches(r, dev, target, source);
    }
  }

  /** setTargetMute records the flag and, when it goes through, copies it to the live target. */
  lemma SetTargetMuteRecord(r: Registry, dev: Devices, target: string, source: string, val: bool)
    ensures var o := r.SetTargetMute(dev, target, source, val);
      && o.reg.outputs[target].mute == r.Out(target).mute[source := val]
      && (var p := o.reg.inputs[source];
          var oid := IdByName(dev.outputs, target);
          o.err.None? && p.available && p.echo && oid in p.echoer.targets ==> p.echoer.targets[oid].muted == val)
  {
    var op := r.Out(target);
    var r1 := r.WithOut(target, op.(mute := op.mute[source := val]));
    var r2 := r1.TouchIn(source).TouchOut(target);
    TryAddTargetTouched(r1, dev, target, source);
    TryAddTargetShape(r2, dev, target, source);
    var t := r2.TryAddTarget(dev, target, source);
    LiveMuteFrame(t.reg, dev, target, source, val);
  }

  /** Muting passes the gate of tryAddTarget by: no unit gains or loses a target. */
  lemma MuteNeverAttaches(r: Registry, dev: Devices, target: string, source: string)
    ensures var o := r.SetTargetMute(dev, target, source, true);
      forall n | n in o.reg.inputs :: o.reg.inputs[n].echoer.targets.Keys == r.In(n).echoer.targets.Keys
  {
    var op := r.Out(target);
    var r1 := r.WithOut(target, op.(mute := op.mute[source := true]));
    var r2 := r1.TouchIn(source).TouchOut(target);
    assert !r1.AttachGate(dev, target, source);
    assert r1.TryAddTarget(dev, target, source) == Outcome(r2, None);
    LiveMuteFrame(r2, dev, target, source, true);
  }

  /**
   * While the unit of `source` does not echo, a new mute flag reaches the
   * record but not the live target: the target keeps sending as before.
   */
  lemma SetTargetMuteIgnoresStoppedUnit(r: Registry, dev: Devices, target: string, source: string)
    requires source in r.inputs && !r.inputs[source].echo
    requires IdByName(dev.outputs, target) in r.inputs[source].echoer.targets
    ensures var o := r.SetTargetMute(dev, target, source, true);
      var oid := IdByName(dev.outputs, target);
      && o.err.None?
      && o.reg.outputs[target].mute[source]
      && o.reg.inputs[source].echoer.targets[oid] == r.inputs[source].echoer.targets[oid]
  {
  }

  /**
   * setTargetFocusSend records the rule even when it then raises, leaves
   * every mute record as it was, and when it goes through, a live target of
   * an available, echoing unit carries the new rule.
   */
  lemma SetTargetFocusSendEffect(r: Registry, dev: Devices, target: string, source: string, rule: string)
    ensures var o := r.SetTargetFocusSend(dev, target, source, rule);
      && o.reg.outputs[target].focusSend == r.Out(target).focusSend[source := rule]
      && o.reg.outputs[target].mute == r.Out(target).mute
      && (var p := o.reg.inputs[source];
          var oid := IdByName(dev.outputs, target);
          o.err.None? && p.available && p.echo && oid in p.echoer.targets ==> p.echoer.targets[oid].focusMutePath == rule)
  {
    var op := r.Out(target);
    var r1 := r.WithOut(target, op.(focusSend := op.focusSend[source := rule]));
    var r2 := r1.TouchIn(source).TouchOut(target);
    TryAddTargetTouched(r1, dev, target, source);
    TryAddTargetShape(r2, dev, target, source);
    var t := r2.TryAddTarget(dev, target, source);
    TryAddTargetKeepsRule(r2, dev, target, source);
    LiveFocusSendFrame(t.reg, dev, target, source, rule);
  }

  /** tryAddTarget writes the focus rule of the pair only where it inserts "" for a missing one. */
  lemma TryAddTargetKeepsRule(r: Registry, dev: Devices, target: string, source: string)
    requires source in r.inputs && target in r.outputs && source in r.outputs[target].focusSend
    ensures r.TryAddTarget(dev, target, source).reg.outputs[target].focusSend == r.outputs[target].focusSend
  {
    assert r.TouchIn(source).TouchOut(target) == r;
    var rule := r.outputs[target].focusSend[source];
    assert r.outputs[target].focusSend[source := rule] == r.outputs[target].focusSend;
  }

  /** tryAddTarget reads and writes only the two records it inserts. */
  lemma TryAddTargetTouched(r: Registry, dev: Devices, target: string, source: string)
    ensures r.TryAddTarget(dev, target, source) == r.TouchIn(source).TouchOut(target).TryAddTarget(dev, target, source)
  {
    var r2 := r.TouchIn(source).TouchOut(target);
    assert r2.In(source) == r.In(source) && r2.Out(target) == r.Out(target);
    assert r2.TouchIn(source).TouchOut(target) == r2;
  }

  /**
   * The last step of setTargetMute changes at most the unit of `source`,
   * keeping its life cycle and its target ids; the live target it finds
   * takes the flag.
   */
  lemma LiveMuteFrame(r: Registry, dev: Devices, target: string, source: string, val: bool)
    ensures var l := r.LiveMute(dev, target, source, val);
      && l.outputs == r.outputs
      && KeepsUnits(r, l)
      && (forall n | n in l.inputs :: l.inputs[n].echoer.targets.Keys == r.inputs[n].echoer.targets.Keys)
      && (forall n | n in r.inputs && n != source :: l.inputs[n] == r.inputs[n])
      && (NoInvalidTarget(r) ==> NoInvalidTarget(l))
      && (var p := l.In(source);
          var oid := IdByName(dev.outputs, target);
          p.available && p.echo && oid in p.echoer.targets ==> p.echoer.targets[oid].muted == val)
  {
  }

  /** The last step of setTargetFocusSend, as LiveMuteFrame for the focus rule. */
  lemma LiveFocusSendFrame(r: Registry, dev: Devices, target: string, source: string, rule: string)
    ensures var l := r.LiveFocusSend(dev, target, source, rule);
      && l.outputs == r.outputs
      && KeepsUnits(r, l)
      && (forall n | n in l.inputs :: l.inputs[n].echoer.targets.Keys == r.inputs[n].echoer.targets.Keys)
      && (forall n | n in r.inputs && n != source :: l.inputs[n] == r.inputs[n])
      && (NoInvalidTarget(r) ==> NoInvalidTarget(l))
      && (var p := l.In(source);
          var oid := IdByName(dev.outputs, target);
          p.available && p.echo && oid in p.echoer.targets ==> p.echoer.targets[oid].focusMutePath == rule)
  {
  }

  /** Replacing the unit of a known input by one with the same life cycle keeps the units. */
  lemma RetargetFrame(r: Registry, name: string, p: InProps)
    requires name in r.inputs
    requires p.available == r.inputs[name].available && p.echo == r.inputs[name].echo
    requires p.echoer.open == r.inputs[name].echoer.open && p.echoer.echoing == r.inputs[name].echoer.echoing
    requires p.echoer.source == r.inputs[name].echoer.source
    ensures KeepsUnits(r, r.WithIn(name, p))
    ensures NoInvalidTarget(r) && INVALID_MIDI_ID !in p.echoer.targets ==> NoInvalidTarget(r.WithIn(name, p))
  {
  }

  /** KeepsUnits composes. */
  lemma KeepsUnitsTrans(r1: Registry, r2: Registry, r3: Registry)
    requires KeepsUnits(r1, r2) && KeepsUnits(r2, r3)
    ensures KeepsUnits(r1, r3)
  {
  }

  /** KeepsUnits and KeepsOutFlags compose. */
  lemma KeepsTrans(r1: Registry, r2: Registry, r3: Registry)
    requires KeepsUnits(r1, r2) && KeepsUnits(r2, r3)
    requires KeepsOutFlags(r1, r2) && KeepsOutFlags(r2, r3)
    ensures KeepsUnits(r1, r3) && KeepsOutFlags(r1, r3)
  {
  }

  /** The frame of setTargetMute for a known pair: as tryAddTarget's, with the one record written. */
  lemma SetTargetMuteFrame(r: Registry, dev: Devices, target: string, source: string, val: bool)
    requires source in r.inputs && target in r.outputs
    ensures var o := r.SetTargetMute(dev, target, source, val);
      && KeepsUnits(r, o.reg)
      && KeepsOutFlags(r, o.reg)
      && o.reg.outputs[target].mute == r.outputs[target].mute[source := val]
      && (forall n | n in r.outputs && n != target :: o.reg.outputs[n] == r.outputs[n])
      && (!dev.MapperOpens() && NoInvalidTarget(r) ==> NoInvalidTarget(o.reg))
  {
    var op := r.outputs[target];
    var r1 := r.WithOut(target, op.(mute := op.mute[source := val]));
    assert r1.inputs == r.inputs;
    TryAddTargetFrame(r1, dev, target, source);
    var t := r1.TryAddTarget(dev, target, source);
    KeepsTrans(r, r1, t.reg);
    if t.err.None? {
      var l := t.reg.LiveMute(dev, target, source, val);
      assert r.SetTargetMute(dev, target, source, val).reg == l;
      LiveMuteFrame(t.reg, dev, target, source, val);
      KeepsTrans(r, t.reg, l);
    } else {
      assert r.SetTargetMute(dev, target, source, val) == t;
    }
  }

  /** The frame of setTargetFocusSend for a known pair. */
  lemma SetTargetFocusSendFrame(r: Registry, dev: Devices, target: string, source: string, rule: string)
    requires source in r.inputs && target in r.outputs
    ensures var o := r.SetTargetFocusSend(dev, target, source, rule);
      && KeepsUnits(r, o.reg)
      && KeepsOutFlags(r, o.reg)
      && (forall n | n in r.outputs :: o.reg.outputs[n].mute == r.outputs[n].mute)
      && (forall n | n in r.outputs && n != target :: o.reg.outputs[n] == r.outputs[n])
      && (!dev.MapperOpens() && NoInvalidTarget(r) ==> NoInvalidTarget(o.reg))
  {
    SetTargetFocusSendKeeps(r, dev, target, source, rule);
    SetTargetFocusSendOutputs(r, dev, target, source, rule);
  }

  /** setTargetFocusSend on a known pair keeps every unit's life cycle; only an open MIDI mapper adds the invalid id. */
  lemma SetTargetFocusSendKeeps(r: Registry, dev: Devices, target: string, source: string, rule: string)
    requires source in r.inputs && target in r.outputs
    ensures var o := r.SetTargetFocusSend(dev, target, source, rule);
      && KeepsUnits(r, o.reg)
      && (!dev.MapperOpens() && NoInvalidTarget(r) ==> NoInvalidTarget(o.reg))
  {
    var op := r.outputs[target];
    var r1 := r.WithOut(target, op.(focusSend := op.focusSend[source := rule]));
    assert r1.inputs == r.inputs;
    TryAddTargetFrame(r1, dev, target, source);
    var t := r1.TryAddTarget(dev, target, source);
    if t.err.None? {
      var l := t.reg.LiveFocusSend(dev, target, source, rule);
      assert r.SetTargetFocusSend(dev, target, source, rule).reg == l;
      LiveFocusSendFrame(t.reg, dev, target, source, rule);
      KeepsUnitsTrans(r, t.reg, l);
    } else {
      assert r.SetTargetFocusSend(dev, target, source, rule) == t;
    }
  }

  /** setTargetFocusSend on a known pair writes no mute record, no availability and no other output. */
  lemma SetTargetFocusSendOutputs(r: Registry, dev: Devices, target: string, source: string, rule: string)
    requires source in r.inputs && target in r.outputs
    ensures var o := r.SetTargetFocusSend(dev, target, source, rule);
      && KeepsOutFlags(r, o.reg)
      && (forall n | n in r.outputs :: o.reg.outputs[n].mute == r.outputs[n].mute)
      && (forall n | n in r.outputs && n != target :: o.reg.outputs[n] == r.outputs[n])
  {
    var op := r.outputs[target];
    var r1 := r.WithOut(target, op.(focusSend := op.focusSend[source := rule]));
    TryAddTargetFrame(r1, dev, target, source);
    var t := r1.TryAddTarget(dev, target, source);
    if t.err.None? {
      var l := t.reg.LiveFocusSend(dev, target, source, rule);
      assert r.SetTargetFocusSend(dev, target, source, rule).reg == l;
      assert l.outputs == t.reg.outputs;
    } else {
      assert r.SetTargetFocusSend(dev, target, source, rule) == t;
    }
  }
}
