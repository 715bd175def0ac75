/**
 * The settings file of EchoManager: saveToFile writes, for every known
 * input in name order, its name, its echo request and one object per
 * output that holds a mute record for it; loadFromFile replays such a
 * document through setInEcho, setTargetMute and setTargetFocusSend.  The
 * JSON text and the file stream are not modelled: a document is the
 * sequence of records the JSON arrays hold.
 */
module Persistence {
  import opened Winmm
  import opened MidiErrors
  import opened Ordering
  import opened Echo
  import opened ManagerSpec

  /** One object of an input's "Midi Outputs" array: its "Name", "Mute" and "Focus send" keys. */
  datatype OutputEntry = OutputEntry(name: string, mute: bool, focusSend: string)

  /** One object of the "Midi Inputs" array: its "Name", "Echo" and "Midi Outputs" keys. */
  datatype InputEntry = InputEntry(name: string, echo: bool, outputs: seq<OutputEntry>)

  /** `focus_send[input]` read through operator[]: the stored rule, or "". */
  function FocusRule(op: OutProps, input: string): string
  {
    if input in op.focusSend then op.focusSend[input] else ""
  }

  // ---------------------------------------------------------------- saveToFile

  /** The object saveToFile writes for `output` under `input`: one when a mute record exists, else none. */
  function SavedOutput(r: Registry, input: string, output: string): (es: seq<OutputEntry>)
    ensures |es| <= 1
    ensures es != [] <==> input in r.Out(output).mute
    ensures es != [] ==> es[0] == OutputEntry(output, r.Out(output).mute[input], FocusRule(r.Out(output), input))
  {
    var op := r.Out(output);
    if input in op.mute then [OutputEntry(output, op.mute[input], FocusRule(op, input))] else []
  }

  /** The "Midi Outputs" array of `input`, over the outputs `outs` in that order. */
  function SavedOutputs(r: Registry, input: string, outs: seq<string>): seq<OutputEntry>
    decreases |outs|
  {
    if outs == [] then []
    else SavedOutputs(r, input, outs[..|outs| - 1]) + SavedOutput(r, input, outs[|outs| - 1])
  }

  /** The "Midi Inputs" array over the inputs `ins`, each object listing the outputs `outs`. */
  function SavedInputs(r: Registry, ins: seq<string>, outs: seq<string>): seq<InputEntry>
    decreases |ins|
  {
    if ins == [] then []
    else
      var i := ins[|ins| - 1];
      SavedInputs(r, ins[..|ins| - 1], outs) + [InputEntry(i, r.In(i).echo, SavedOutputs(r, i, outs))]
  }

  /** The document saveToFile writes: the inputs and the outputs in name order. */
  function SaveDoc(r: Registry): seq<InputEntry>
  {
    SavedInputs(r, SortedNames(r.inputs.Keys), SortedNames(r.outputs.Keys))
  }

  /**
   * The focus rules of one output record after saveToFile: reading
   * `focus_send[input]` for every input in `ins` it holds a mute record for
   * inserts "" where no rule was stored.
   */
  function Filled(op: OutProps, ins: set<string>): (f: map<string, string>)
    ensures forall i :: i in f <==> i in op.focusSend || (i in ins && i in op.mute)
    ensures forall i | i in f :: f[i] == FocusRule(op, i)
  {
    map i | i in op.focusSend.Keys + (ins * op.mute.Keys) :: FocusRule(op, i)
  }

  /** Every output record once the inputs `ins` have been saved. */
  function TouchedBy(r: Registry, ins: set<string>): Registry
  {
    r.(outputs := map o | o in r.outputs :: r.outputs[o].(focusSend := Filled(r.outputs[o], ins)))
  }

  /** The registry saveToFile leaves behind. */
  function SaveTouched(r: Registry): Registry
  {
    TouchedBy(r, r.inputs.Keys)
  }

  /** Before any input is saved nothing is filled in. */
  lemma TouchedByNone(r: Registry)
    ensures TouchedBy(r, {}) == r
  {
    forall o | o in r.outputs ensures Filled(r.outputs[o], {}) == r.outputs[o].focusSend {
    }
  }

  /** The name orders saveToFile walks, and what saving all of them amounts to. */
  lemma SaveOrder(r: Registry)
    ensures Names(SortedNames(r.outputs.Keys)) == r.outputs.Keys
    ensures SaveTouched(r) == TouchedBy(r, Names(SortedNames(r.inputs.Keys)))
  {
    assert Names(SortedNames(r.inputs.Keys)) == r.inputs.Keys;
  }

  /** One output record once `input` has been saved against it. */
  function TouchRule(op: OutProps, input: string): OutProps
  {
    if input in op.mute then op.(focusSend := op.focusSend[input := FocusRule(op, input)]) else op
  }

  /** The outputs `outs` once `input` has been saved against each of them. */
  function TouchInput(r: Registry, input: string, outs: set<string>): Registry
  {
    r.(outputs := map o | o in r.outputs :: if o in outs then TouchRule(r.outputs[o], input) else r.outputs[o])
  }

  /** Saving against one more output of `input`. */
  lemma TouchInputSnoc(r: Registry, input: string, outs: set<string>, o: string)
    requires o in r.outputs && o !in outs
    ensures var t := TouchInput(r, input, outs);
      TouchInput(r, input, outs + {o}) == t.WithOut(o, TouchRule(t.outputs[o], input))
  {
  }

  /** Saving one more input against an output record whose rules were filled for `ins`. */
  lemma FilledStep(op: OutProps, ins: set<string>, input: string)
    ensures TouchRule(op.(focusSend := Filled(op, ins)), input) == op.(focusSend := Filled(op, ins + {input}))
  {
    var f, g := Filled(op, ins), Filled(op, ins + {input});
    if input in op.mute {
      assert f[input := FocusRule(op, input)] == g;
    } else {
      assert f == g;
    }
  }

  /** Saving one more input against every output. */
  lemma TouchedByStep(r: Registry, ins: set<string>, input: string)
    ensures TouchInput(TouchedBy(r, ins), input, r.outputs.Keys) == TouchedBy(r, ins + {input})
  {
    forall o | o in r.outputs {
      FilledStep(r.outputs[o], ins, input);
    }
  }

  /** What is saved for an input does not change as earlier inputs are saved. */
  lemma {:induction false} SavedOutputsTouched(r: Registry, ins: set<string>, input: string, outs: seq<string>)
    ensures SavedOutputs(TouchedBy(r, ins), input, outs) == SavedOutputs(r, input, outs)
    decreases |outs|
  {
    if outs != [] {
      SavedOutputsTouched(r, ins, input, outs[..|outs| - 1]);
      var o := outs[|outs| - 1];
      assert TouchedBy(r, ins).Out(o).mute == r.Out(o).mute;
      assert input in r.Out(o).mute ==> FocusRule(TouchedBy(r, ins).Out(o), input) == FocusRule(r.Out(o), input);
    }
  }

  lemma {:induction false} SavedInputsTouched(r: Registry, ins: set<string>, names: seq<string>, outs: seq<string>)
    ensures SavedInputs(TouchedBy(r, ins), names, outs) == SavedInputs(r, names, outs)
    decreases |names|
  {
    if names != [] {
      SavedInputsTouched(r, ins, names[..|names| - 1], outs);
      SavedOutputsTouched(r, ins, names[|names| - 1], outs);
    }
  }

  /** Saving a second time writes the same document as the first save. */
  lemma SaveTwice(r: Registry)
    ensures SaveDoc(SaveTouched(r)) == SaveDoc(r)
  {
    var t := SaveTouched(r);
    assert t.inputs == r.inputs && t.outputs.Keys == r.outputs.Keys;
    SavedInputsTouched(r, r.inputs.Keys, SortedNames(r.inputs.Keys), SortedNames(r.outputs.Keys));
  }

  // ---------------------------------------------------------------- loadFromFile

  /** One object of "Midi Outputs": setTargetMute, then setTargetFocusSend. */
  function LoadOutput(dev: Devices, input: string, r: Registry, e: OutputEntry): Outcome
  {
    var m := r.SetTargetMute(dev, e.name, input, e.mute);
    if m.err.Some? then m else m.reg.SetTargetFocusSend(dev, e.name, input, e.focusSend)
  }

  function LoadOutputStep(dev: Devices, input: string): (Registry, OutputEntry) -> Outcome
  {
    (r: Registry, e: OutputEntry) => LoadOutput(dev, input, r, e)
  }

  /** One object of "Midi Inputs": setInEcho, then each of its outputs. */
  function LoadInput(dev: Devices, r: Registry, e: InputEntry): Outcome
  {
    var s := r.SetInEcho(dev, e.name, e.echo);
    if s.err.Some? then s else Fold(s.reg, e.outputs, LoadOutputStep(dev, e.name))
  }

  function LoadInputStep(dev: Devices): (Registry, InputEntry) -> Outcome
  {
    (r: Registry, e: InputEntry) => LoadInput(dev, r, e)
  }

  /** loadFromFile: every input object in document order; an exception ends the load. */
  function Load(dev: Devices, r: Registry, doc: seq<InputEntry>): Outcome
  {
    Fold(r, doc, LoadInputStep(dev))
  }

  // ---------------------------------------------------------------- what a document records

  /**
   * Two registries agree on everything a save records: the same input
   * names with the same echo requests, and for every known input and every
   * output the same mute record and, where there is one, the same focus rule.
   */
  ghost predicate SameSettings(r1: Registry, r2: Registry)
  {
    && (forall n :: n in r1.inputs <==> n in r2.inputs)
    && (forall n | n in r1.inputs :: r1.inputs[n].echo == r2.inputs[n].echo)
    && (forall o, i | i in r1.inputs :: i in r1.Out(o).mute <==> i in r2.Out(o).mute)
    && (forall o, i | i in r1.inputs && i in r1.Out(o).mute ::
          r1.Out(o).mute[i] == r2.Out(o).mute[i] && FocusRule(r1.Out(o), i) == FocusRule(r2.Out(o), i))
  }

  /**
   * saveToFile only fills in empty focus rules: the registry it leaves
   * agrees with the old one on every setting, and it keeps every unit and
   * every output's availability and mute records.
   */
  lemma SaveTouchedSettings(r: Registry)
    ensures SameSettings(r, SaveTouched(r))
    ensures SaveTouched(r).inputs == r.inputs
    ensures SaveTouched(r).outputs.Keys == r.outputs.Keys
    ensures forall o | o in r.outputs ::
      SaveTouched(r).outputs[o].(focusSend := r.outputs[o].focusSend) == r.outputs[o]
  {
    var t := SaveTouched(r);
    forall o, i | i in r.inputs && i in r.Out(o).mute
      ensures FocusRule(r.Out(o), i) == FocusRule(t.Out(o), i)
    {
    }
  }

  /** A second save fills in nothing more. */
  lemma SaveTouchedIdempotent(r: Registry)
    ensures SaveTouched(SaveTouched(r)) == SaveTouched(r)
  {
    var t := SaveTouched(r);
    forall o | o in t.outputs
      ensures Filled(t.outputs[o], t.inputs.Keys) == t.outputs[o].focusSend
    {
    }
  }

  // ---------------------------------------------------------------- loading into a registry with no device attached

  /** No input is available, so no operation reaches a device. */
  predicate Offline(r: Registry)
  {
    forall n | n in r.inputs :: !r.inputs[n].available
  }

  /** setInEcho on an offline registry only records the request. */
  lemma SetInEchoOffline(r: Registry, dev: Devices, name: string, val: bool)
    requires Offline(r)
    ensures r.SetInEcho(dev, name, val) == Outcome(r.WithIn(name, r.In(name).(echo := val)), None)
    ensures Offline(r.SetInEcho(dev, name, val).reg)
  {
  }

  /** One output object on an offline registry only records the mute value and the rule of the pair. */
  lemma LoadOutputOffline(dev: Devices, input: string, r: Registry, e: OutputEntry)
    requires Offline(r) && input in r.inputs
    ensures var op := r.Out(e.name);
      LoadOutput(dev, input, r, e) ==
        Outcome(r.WithOut(e.name, op.(mute := op.mute[input := e.mute], focusSend := op.focusSend[input := e.focusSend])), None)
  {
    var op := r.Out(e.name);
    var r1 := r.WithOut(e.name, op.(mute := op.mute[input := e.mute]));
    assert !r1.AttachGate(dev, e.name, input);
    assert r1.TouchIn(input).TouchOut(e.name) == r1;
    assert r.SetTargetMute(dev, e.name, input, e.mute) == Outcome(r1, None);
    var op1 := r1.Out(e.name);
    var r2 := r1.WithOut(e.name, op1.(focusSend := op1.focusSend[input := e.focusSend]));
    assert !r2.AttachGate(dev, e.name, input);
    assert r2.TouchIn(input).TouchOut(e.name) == r2;
  }

  /** The names a sequence lists. */
  function Names(s: seq<string>): (ns: set<string>)
    ensures forall x :: x in ns <==> x in s
  {
    set x | x in s
  }

  lemma NamesSnoc(s: seq<string>, k: nat)
    requires 0 < k <= |s|
    ensures Names(s[..k]) == Names(s[..k - 1]) + {s[k - 1]}
  {
    assert s[..k] == s[..k - 1] + [s[k - 1]];
  }

  /** Whether the load has reached the pair (output `o`, input `i`). */
  ghost predicate Loaded(done: set<string>, busy: bool, cur: string, outsDone: set<string>, o: string, i: string)
  {
    i in done || (busy && i == cur && o in outsDone)
  }

  /** The loaded input records: exactly `names`, none available, each with the echo request of `r`. */
  ghost predicate InputsLoaded(r: Registry, names: set<string>, reg: Registry)
  {
    && Offline(reg)
    && reg.inputs.Keys == names
    && forall n | n in reg.inputs :: reg.inputs[n].echo == r.In(n).echo
  }

  /** The mute records of `reg` are those of `r` on the pairs the load has reached. */
  ghost predicate MuteKeysLoaded(r: Registry, done: set<string>, busy: bool, cur: string, outsDone: set<string>, reg: Registry)
  {
    forall o, i :: i in reg.Out(o).mute <==> i in r.Out(o).mute && Loaded(done, busy, cur, outsDone, o, i)
  }

  /** Where both registries hold a mute record, they agree on its value and on the focus rule. */
  ghost predicate PairsAgree(r: Registry, reg: Registry)
  {
    forall o, i | i in reg.Out(o).mute && i in r.Out(o).mute ::
      reg.Out(o).mute[i] == r.Out(o).mute[i] && FocusRule(reg.Out(o), i) == FocusRule(r.Out(o), i)
  }

  /**
   * The settings loaded so far from an empty registry: the inputs `done`
   * and, of the input `cur` (when `busy`), the outputs `outsDone`, each
   * restored from `r`.
   */
  ghost predicate Restoring(r: Registry, done: set<string>, busy: bool, cur: string, outsDone: set<string>, reg: Registry)
  {
    && InputsLoaded(r, if busy then done + {cur} else done, reg)
    && MuteKeysLoaded(r, done, busy, cur, outsDone, reg)
    && PairsAgree(r, reg)
  }

  /** A Fold over one element is one loop body. */
  lemma FoldSingle<T>(r: Registry, x: T, step: (Registry, T) -> Outcome)
    ensures Fold(r, [x], step) == step(r, x)
  {
    assert [x][..0] == [];
  }

  /** An output with no mute record for `cur` was saved with no object for it: the pair counts as loaded. */
  lemma RestoreAbsentPair(r: Registry, done: set<string>, cur: string, outsDone: set<string>, reg: Registry, o: string)
    requires Restoring(r, done, true, cur, outsDone, reg) && cur !in done && o !in outsDone
    requires cur !in r.Out(o).mute
    ensures Restoring(r, done, true, cur, outsDone + {o}, reg)
  {
    forall x, i ensures i in reg.Out(x).mute <==> i in r.Out(x).mute && Loaded(done, true, cur, outsDone + {o}, x, i) {
      assert i in reg.Out(x).mute <==> i in r.Out(x).mute && Loaded(done, true, cur, outsDone, x, i);
    }
  }

  /** The record of output `o` once the pair (`o`, `cur`) is loaded with mute `m` and rule `f`. */
  function PairSet(op: OutProps, cur: string, m: bool, f: string): OutProps
  {
    op.(mute := op.mute[cur := m], focusSend := op.focusSend[cur := f])
  }

  lemma PairSetKeys(r: Registry, done: set<string>, cur: string, outsDone: set<string>, reg: Registry, o: string, m: bool, f: string)
    requires MuteKeysLoaded(r, done, true, cur, outsDone, reg) && cur in r.Out(o).mute
    ensures MuteKeysLoaded(r, done, true, cur, outsDone + {o}, reg.WithOut(o, PairSet(reg.Out(o), cur, m, f)))
  {
    var reg1 := reg.WithOut(o, PairSet(reg.Out(o), cur, m, f));
    forall x, i ensures i in reg1.Out(x).mute <==> i in r.Out(x).mute && Loaded(done, true, cur, outsDone + {o}, x, i) {
      assert i in reg.Out(x).mute <==> i in r.Out(x).mute && Loaded(done, true, cur, outsDone, x, i);
    }
  }

  lemma PairSetAgree(r: Registry, reg: Registry, o: string, cur: string)
    requires PairsAgree(r, reg) && cur in r.Out(o).mute
    ensures PairsAgree(r, reg.WithOut(o, PairSet(reg.Out(o), cur, r.Out(o).mute[cur], FocusRule(r.Out(o), cur))))
  {
    var reg1 := reg.WithOut(o, PairSet(reg.Out(o), cur, r.Out(o).mute[cur], FocusRule(r.Out(o), cur)));
    forall x, i | i in reg1.Out(x).mute && i in r.Out(x).mute
      ensures reg1.Out(x).mute[i] == r.Out(x).mute[i] && FocusRule(reg1.Out(x), i) == FocusRule(r.Out(x), i)
    {
      if x != o || i != cur {
        assert reg1.Out(x).mute[i] == reg.Out(x).mute[i] && FocusRule(reg1.Out(x), i) == FocusRule(reg.Out(x), i);
      }
    }
  }

  /** Loading the saved object of the pair (`o`, `cur`). */
  lemma RestorePresentPair(dev: Devices, r: Registry, done: set<string>, cur: string, outsDone: set<string>, reg: Registry, o: string)
    requires Restoring(r, done, true, cur, outsDone, reg) && cur !in done && o !in outsDone
    requires cur in r.Out(o).mute
    ensures var e := OutputEntry(o, r.Out(o).mute[cur], FocusRule(r.Out(o), cur));
      var reg1 := LoadOutput(dev, cur, reg, e);
      reg1.err.None? && Restoring(r, done, true, cur, outsDone + {o}, reg1.reg)
  {
    var e := OutputEntry(o, r.Out(o).mute[cur], FocusRule(r.Out(o), cur));
    LoadOutputOffline(dev, cur, reg, e);
    var reg1 := reg.WithOut(o, PairSet(reg.Out(o), cur, e.mute, e.focusSend));
    assert LoadOutput(dev, cur, reg, e) == Outcome(reg1, None);
    PairSetKeys(r, done, cur, outsDone, reg, o, e.mute, e.focusSend);
    PairSetAgree(r, reg, o, cur);
    assert InputsLoaded(r, done + {cur}, reg1);
  }

  /** Loading what was saved for one more output of `cur`. */
  lemma RestoreOutputStep(dev: Devices, r: Registry, done: set<string>, cur: string, outsDone: set<string>, reg: Registry, o: string)
    requires Restoring(r, done, true, cur, outsDone, reg) && cur !in done && o !in outsDone
    ensures var reg1 := Fold(reg, SavedOutput(r, cur, o), LoadOutputStep(dev, cur));
      reg1.err.None? && Restoring(r, done, true, cur, outsDone + {o}, reg1.reg)
  {
    var es := SavedOutput(r, cur, o);
    if es == [] {
      RestoreAbsentPair(r, done, cur, outsDone, reg, o);
    } else {
      assert es == [es[0]];
      FoldSingle(reg, es[0], LoadOutputStep(dev, cur));
      RestorePresentPair(dev, r, done, cur, outsDone, reg, o);
    }
  }

  /** The load of the objects of `outs[..k]` continues where the load of `outs[..k - 1]` stopped. */
  lemma LoadOutputsSnoc(dev: Devices, r: Registry, cur: string, reg: Registry, outs: seq<string>, k: nat)
    requires 0 < k <= |outs|
    requires Fold(reg, SavedOutputs(r, cur, outs[..k - 1]), LoadOutputStep(dev, cur)).err.None?
    ensures Fold(reg, SavedOutputs(r, cur, outs[..k]), LoadOutputStep(dev, cur)) ==
      Fold(Fold(reg, SavedOutputs(r, cur, outs[..k - 1]), LoadOutputStep(dev, cur)).reg, SavedOutput(r, cur, outs[k - 1]), LoadOutputStep(dev, cur))
  {
    assert outs[..k][..k - 1] == outs[..k - 1];
    assert SavedOutputs(r, cur, outs[..k]) == SavedOutputs(r, cur, outs[..k - 1]) + SavedOutput(r, cur, outs[k - 1]);
    FoldAppend(reg, SavedOutputs(r, cur, outs[..k - 1]), SavedOutput(r, cur, outs[k - 1]), LoadOutputStep(dev, cur));
  }

  /** Loading the objects of the outputs `outs[..k]` of `cur`. */
  lemma {:induction false} RestoreOutputs(dev: Devices, r: Registry, done: set<string>, cur: string, reg: Registry, outs: seq<string>, k: nat)
    requires Restoring(r, done, true, cur, {}, reg) && cur !in done
    requires k <= |outs| && forall a, b | 0 <= a < b < |outs| :: outs[a] != outs[b]
    ensures var o := Fold(reg, SavedOutputs(r, cur, outs[..k]), LoadOutputStep(dev, cur));
      o.err.None? && Restoring(r, done, true, cur, Names(outs[..k]), o.reg)
  {
    if k == 0 {
      assert outs[..0] == [];
    } else {
      RestoreOutputs(dev, r, done, cur, reg, outs, k - 1);
      var o1 := Fold(reg, SavedOutputs(r, cur, outs[..k - 1]), LoadOutputStep(dev, cur));
      LoadOutputsSnoc(dev, r, cur, reg, outs, k);
      assert outs[k - 1] !in Names(outs[..k - 1]);
      RestoreOutputStep(dev, r, done, cur, Names(outs[..k - 1]), o1.reg, outs[k - 1]);
      NamesSnoc(outs, k);
    }
  }

  /** setInEcho of one more input: its record exists and none of its pairs is loaded yet. */
  lemma RestoreEcho(dev: Devices, r: Registry, done: set<string>, reg: Registry, cur: string)
    requires Restoring(r, done, false, cur, {}, reg) && cur !in done
    ensures var s := reg.SetInEcho(dev, cur, r.In(cur).echo);
      s.err.None? && Restoring(r, done, true, cur, {}, s.reg)
  {
    SetInEchoOffline(reg, dev, cur, r.In(cur).echo);
    var s := reg.SetInEcho(dev, cur, r.In(cur).echo).reg;
    assert s.outputs == reg.outputs;
    forall x, i ensures i in s.Out(x).mute <==> i in r.Out(x).mute && Loaded(done, true, cur, {}, x, i) {
      assert i in reg.Out(x).mute <==> i in r.Out(x).mute && Loaded(done, false, cur, {}, x, i);
    }
  }

  /** Once every output of `cur` is loaded, `cur` counts as done. */
  lemma RestoreInputDone(r: Registry, done: set<string>, cur: string, outs: seq<string>, reg: Registry)
    requires forall o | o in r.outputs :: o in outs
    requires Restoring(r, done, true, cur, Names(outs), reg)
    ensures Restoring(r, done + {cur}, false, cur, {}, reg)
  {
    var all := Names(outs);
    forall x, i ensures i in reg.Out(x).mute <==> i in r.Out(x).mute && Loaded(done + {cur}, false, cur, {}, x, i) {
      assert i in reg.Out(x).mute <==> i in r.Out(x).mute && Loaded(done, true, cur, all, x, i);
      if i == cur && i in r.Out(x).mute {
        assert x in r.outputs;
      }
    }
  }

  /** Loading the object of one more input. */
  lemma RestoreInputStep(dev: Devices, r: Registry, done: set<string>, reg: Registry, cur: string, outs: seq<string>)
    requires Restoring(r, done, false, cur, {}, reg) && cur !in done
    requires forall a, b | 0 <= a < b < |outs| :: outs[a] != outs[b]
    requires forall o | o in r.outputs :: o in outs
    ensures var o := LoadInput(dev, reg, InputEntry(cur, r.In(cur).echo, SavedOutputs(r, cur, outs)));
      o.err.None? && Restoring(r, done + {cur}, false, cur, {}, o.reg)
  {
    RestoreEcho(dev, r, done, reg, cur);
    var s := reg.SetInEcho(dev, cur, r.In(cur).echo).reg;
    RestoreOutputs(dev, r, done, cur, s, outs, |outs|);
    assert outs[..|outs|] == outs;
    var o := Fold(s, SavedOutputs(r, cur, outs), LoadOutputStep(dev, cur));
    RestoreInputDone(r, done, cur, outs, o.reg);
  }

  /** The invariant does not depend on the name of an input that is not being loaded. */
  lemma RestoringIdle(r: Registry, done: set<string>, a: string, b: string, reg: Registry)
    requires Restoring(r, done, false, a, {}, reg)
    ensures Restoring(r, done, false, b, {}, reg)
  {
    forall x, i ensures i in reg.Out(x).mute <==> i in r.Out(x).mute && Loaded(done, false, b, {}, x, i) {
      assert i in reg.Out(x).mute <==> i in r.Out(x).mute && Loaded(done, false, a, {}, x, i);
    }
  }

  /** Loading the objects of the inputs `ins[..k]`. */
  lemma {:induction false} RestoreInputs(dev: Devices, r: Registry, reg: Registry, ins: seq<string>, outs: seq<string>, k: nat)
    requires Restoring(r, {}, false, "", {}, reg)
    requires k <= |ins| && forall a, b | 0 <= a < b < |ins| :: ins[a] != ins[b]
    requires forall a, b | 0 <= a < b < |outs| :: outs[a] != outs[b]
    requires forall o | o in r.outputs :: o in outs
    ensures var o := Load(dev, reg, SavedInputs(r, ins[..k], outs));
      o.err.None? && Restoring(r, Names(ins[..k]), false, "", {}, o.reg)
  {
    if k == 0 {
      assert ins[..0] == [];
    } else {
      RestoreInputs(dev, r, reg, ins, outs, k - 1);
      var cur := ins[k - 1];
      var before := SavedInputs(r, ins[..k - 1], outs);
      var done := Names(ins[..k - 1]);
      var o1 := Load(dev, reg, before);
      assert ins[..k][..k - 1] == ins[..k - 1];
      var e := InputEntry(cur, r.In(cur).echo, SavedOutputs(r, cur, outs));
      assert SavedInputs(r, ins[..k], outs) == before + [e];
      FoldAppend(reg, before, [e], LoadInputStep(dev));
      FoldSingle(o1.reg, e, LoadInputStep(dev));
      assert cur !in done;
      RestoringIdle(r, done, "", cur, o1.reg);
      RestoreInputStep(dev, r, done, o1.reg, cur, outs);
      var o2 := LoadInput(dev, o1.reg, e);
      RestoringIdle(r, done + {cur}, cur, "", o2.reg);
      NamesSnoc(ins, k);
    }
  }

  /** A finished load from an empty registry has the settings of `r`. */
  lemma RestoredSettings(r: Registry, reg: Registry)
    requires Restoring(r, r.inputs.Keys, false, "", {}, reg)
    ensures SameSettings(r, reg)
  {
    forall o, i | i in r.inputs && i in r.Out(o).mute
      ensures r.Out(o).mute[i] == reg.Out(o).mute[i] && FocusRule(r.Out(o), i) == FocusRule(reg.Out(o), i)
    {
      assert Loaded(r.inputs.Keys, false, "", {}, o, i);
    }
  }

  /** Nothing is loaded into an empty registry yet. */
  lemma RestoringEmpty(r: Registry)
    ensures Restoring(r, {}, false, "", {}, Registry(map[], map[]))
  {
  }

  /** Loading the inputs `ins`, each listing the outputs `outs`, into an empty registry. */
  lemma RestoreAll(dev: Devices, r: Registry, ins: seq<string>, outs: seq<string>)
    requires Names(ins) == r.inputs.Keys && forall a, b | 0 <= a < b < |ins| :: ins[a] != ins[b]
    requires forall a, b | 0 <= a < b < |outs| :: outs[a] != outs[b]
    requires forall o | o in r.outputs :: o in outs
    ensures var o := Load(dev, Registry(map[], map[]), SavedInputs(r, ins, outs));
      o.err.None? && SameSettings(r, o.reg)
  {
    RestoringEmpty(r);
    RestoreInputs(dev, r, Registry(map[], map[]), ins, outs, |ins|);
    assert ins[..|ins|] == ins;
    RestoredSettings(r, Load(dev, Registry(map[], map[]), SavedInputs(r, ins, outs)).reg);
  }

  /**
   * Save/load round trip: loading the document saved from `r` into an empty
   * registry raises nothing, whatever the devices, and restores every
   * setting the document records.
   */
  lemma SaveLoadRoundTrip(r: Registry, dev: Devices)
    ensures Load(dev, Registry(map[], map[]), SaveDoc(r)).err.None?
    ensures SameSettings(r, Load(dev, Registry(map[], map[]), SaveDoc(r)).reg)
  {
    var ins := SortedNames(r.inputs.Keys);
    assert Names(ins) == r.inputs.Keys;
    RestoreAll(dev, r, ins, SortedNames(r.outputs.Keys));
  }
}
