# EchoMIDI routing core in Dafny

EchoMIDI echoes the MIDI stream of one input device to a set of output
devices. This project models the three pieces that do the routing.

- **The Echo unit** (`Echoer`, module `Echo`, file `echoer.dfy`). It owns one
  MIDI input handle and a map from output device id to target.
  - Its life-cycle operations are open, close, start, stop and reset.
  - Target operations are add, remove, setMute and focusSend.
  - The MIDI callback fans each short message out to the unmuted targets.
  - The destructor closes everything.
  - Each operation is a transition on an `EchoerState` value. The class
    `Echoer` carries out the same transitions in place on its fields, and
    every method that changes a field is proved equal to its transition.
    `reset` changes no field; its contract is the error it raises.
- **The device registry** (`EchoManager`).
  - `manager_spec.dfy` defines the two name-keyed maps and every operation
    on them as functions on values.
  - `manager.dfy` holds the class with its methods, each proved against
    those functions.
  - The operations are setInEcho, setTargetMute, setTargetFocusSend,
    tryAddTarget, syncMidiDevices, saveToFile and loadFromFile.
  - The repository has two revisions of `EchoManager.cpp`: the current
    `EchoMIDIApp/src/EchoManager.cpp` and the older
    `EchoMIDIApp/include/EchoManager.cpp`. Both are modelled.
    `Revision = Current | Legacy` selects between them.
  - The two revisions differ in two ways. A reconnecting output that has
    no mute record for an input gets `true` in the current revision, so
    the pair stays silent. The legacy revision reads the missing record
    through `operator[]` as `false`, so the pair sends. The legacy
    revision also has an empty `saveToFile` and no definition of
    `loadFromFile`.
- **Focus tracking** (`FocusHook`, `Paths`). On a focus event, every target
  of every registered unit that has a focus rule gets its focus-muted flag
  recomputed. The rule either names the focused executable's full path, or
  names its file with or without the extension.

Where the C++ raises an exception, the model returns an
`Option<MidiError>`. The first exception ends the operation, and whatever
was already changed stays changed, as with C++ exception propagation. The
Windows multimedia subsystem is abstract (module `Winmm`):
- a snapshot holds the live input names and the live output names;
- an oracle gives the `MMRESULT` of each handle call;
- a name is looked up to the id of its first live occurrence, or to
  `INVALID_MIDI_ID` (`UINT` -1) when no live device has that name.

A range-for over a `std::map` visits keys in ascending order. The model
makes this order explicit with `SortedNames` and `SortedIds`.

Four behaviours of the code that the model keeps as written:
- **The callback stops at the first failed send.** `handleOutputErr`
  throws out of the loop over the targets (src/Echoer.cpp:99-103), so
  the targets after the failing one receive nothing.
- **Errors during synchronisation propagate.** syncMidiDevices has no
  try block (EchoMIDIApp/src/EchoManager.cpp:13-132). The first exception
  ends it, and the registry stays as far as it got.
- **The callback checks only the `muted` flag** (src/Echoer.cpp:101).
  Focus muting sets the focus-muted flag, which the callback does not read.
- **A new output gets no mute records**
  (EchoMIDIApp/src/EchoManager.cpp:106). `tryAddTarget` attaches only a
  pair whose mute record exists and is false
  (EchoMIDIApp/src/EchoManager.cpp:250), so the new output stays
  unattached until a mute value is set for it.

Three more behaviours of the code:
- **A vanished output is detached by the MIDI mapper id.** Its name is no
  longer live, so `getMidiOutIDByName` yields `INVALID_MIDI_ID`, which is
  `UINT` -1, the id WinMM reserves for `MIDI_MAPPER`. The detach loop
  (EchoMIDIApp/src/EchoManager.cpp:119-123) removes that id, not the
  output's old id. Only a unit holding the mapper loses it; a unit that
  held the vanished output keeps that target (`SyncProps.UpdateOutputDetaches`,
  `SyncProps.DetachOneAbsent`). A `tryAddTarget` for an output that is not
  live opens the mapper, and the unit gains the mapper as a target exactly
  when that open succeeds (`ManagerProps.TryAddTargetAbsentOutput`).
- **`remove` reports its close failure through `handleInputErr`.**
- **`start` and `stop` report failure through `handleOutputErr`.**

## Model

| member | source | states |
|---|---|---|
| Winmm.IdByName | EchoMIDIApp/src/EchoManager.cpp:248 | the id looked up for a name is the invalid id exactly when no live device has the name; otherwise it is the first live index with that name |
| Winmm.Devices.InOpenResult | src/Echoer.cpp:110 | midiInOpen of an id outside the live range yields MMSYSERR_BADDEVICEID |
| Winmm.Devices.OutOpenResult | src/Echoer.cpp:129 | midiOutOpen of an id outside the live range yields MMSYSERR_BADDEVICEID, except MIDI_MAPPER (the invalid id), which succeeds exactly when the mapper opens |
| Winmm.Devices.InCapsResult | src/Echoer.cpp:38 | midiInGetDevCaps of an id outside the live range yields MMSYSERR_BADDEVICEID; a live id gets the subsystem's code |
| Winmm.Devices.OutCapsResult | src/Echoer.cpp:47 | midiOutGetDevCaps of an id outside the live range yields MMSYSERR_BADDEVICEID; a live id gets the subsystem's code |
| Ordering.SortedNames | EchoMIDIApp/src/EchoManager.cpp:51 | the iteration order of a string-keyed map: strictly ascending, without repeats, and listing exactly the keys |
| Ordering.SortedIds | src/Echoer.cpp:99 | the iteration order of an id-keyed map: strictly ascending, listing exactly the keys |
| MidiErrors.GenericError | include/Echoer.h:143-146 | MIDIEchoExcept(code, type, id) carries that code, type and id with short message "UNKNOWN" |
| MidiErrors.BadDeviceIdError | include/Echoer.h:171-177 | BadDeviceID carries MMSYSERR_BADDEVICEID, the bad id, the given type and short message "BADID" |
| MidiErrors.DeviceAllocatedError | include/Echoer.h:190-197 | DeviceAllocated carries MMSYSERR_ALLOCATED, the id, the type and short message "OCCUPIED" |
| MidiErrors.HandleInputErr | src/Echoer.cpp:65-78 | no exception exactly for MMSYSERR_NOERROR; otherwise the class the code selects, with that code and id; a bad id is labelled OUTPUT (the BADINID macro at src/Echoer.cpp:4), any other error INPUT |
| MidiErrors.HandleOutputErr | src/Echoer.cpp:80-93 | the output counterpart; a bad id is labelled INPUT (BADOUTID, src/Echoer.cpp:3), any other error OUTPUT |
| MidiErrors.HandlersAgreeOnClass | src/Echoer.cpp:65-93 | the two handlers raise for the same codes, the same class, code and id, and always record different I/O types |
| MidiErrors.GetMidiInputName | src/Echoer.cpp:34-41 | the device name exactly when the id is live and midiInGetDevCaps succeeds; otherwise the exception handleInputErr raises for the query's code, BadDeviceID for an id outside the live range |
| MidiErrors.GetMidiOutputName | src/Echoer.cpp:43-50 | as GetMidiInputName, for outputs through midiOutGetDevCaps and handleOutputErr |
| MidiErrors.GetMidiName | src/Echoer.cpp:52-63 | dispatches on the I/O type; UNKNOWN yields "" |
| MidiErrors.NameLookupRoundTrip | include/Echoer.h:28-33 | the id looked up for a live input name gives the name back when its capability query succeeds, and the handler's exception for the query's code otherwise |
| Echo.EchoerState.OpenInput | EchoMIDIApp/src/EchoManager.cpp:37 | open(id): records the id; the handle is open afterwards iff it was or the open succeeded; the error is handleInputErr's |
| Echo.EchoerState.CloseInput | EchoMIDIApp/src/EchoManager.cpp:66 | close(): the handle stays open only when the close raised |
| Echo.EchoerState.Start | src/Echoer.cpp:153-157 | the echoing flag is set even when midiInStart fails; the error is handleOutputErr's |
| Echo.EchoerState.Stop | src/Echoer.cpp:159-163 | the echoing flag is cleared even when midiInStop fails |
| Echo.EchoerState.Add | src/Echoer.cpp:127-137 | the id is a target afterwards iff the open succeeded (a failed open erases even an existing entry); other targets untouched; a fresh entry is unmuted with no focus rule |
| Echo.EchoerState.Remove | src/Echoer.cpp:139-146 | an absent id changes nothing; a present id is erased iff the close succeeded, the failure reported through handleInputErr |
| Echo.EchoerState.SetMute | include/Echoer.h:79-83 | writes only the muted flag of that target |
| Echo.EchoerState.FocusSend | EchoMIDIApp/src/EchoManager.cpp:253 | writes only the focus rule of that target |
| Echo.EchoerState.IsMuted | include/Echoer.h:86-90 | the muted flag of a target; its property is SetMuteThenIsMuted |
| Echo.SetMuteThenIsMuted | include/Echoer.h:79-90 | isMuted after setMute reports the flag just set and leaves other targets' flags |
| Echo.AddThenRemove | src/Echoer.cpp:127-146 | adding a fresh id and removing it again restores the unit |
| Echo.FailedAddDropsEntry | src/Echoer.cpp:129-134 | a failed add raises and leaves the id absent |
| Echo.Unmuted | src/Echoer.cpp:101 | the targets the callback sends to are exactly the unmuted ones |
| Echo.FilterMembers | src/Echoer.cpp:99-103 | the ids a pass may visit are exactly the picked targets |
| Echo.FilterAscending | src/Echoer.cpp:99 | those ids keep ascending order |
| Echo.Visit | src/Echoer.cpp:99-103 | the loop over the targets that stops at the first failing call; its properties are VisitOutcome, VisitStopsAtError and VisitFacts |
| Echo.Destroyed | src/Echoer.cpp:114-125 | the destructor's teardown; its properties are DestroyedOrder |
| Echo.VisitOutcome | src/Echoer.cpp:99-103 | a pass attempts a prefix of the picked ids in order; all of them with no error; on error every earlier call succeeded and the error is the last call's |
| Echo.VisitStopsAtError | src/Echoer.cpp:102 | once a call raises, the rest of the ids change nothing |
| Echo.VisitFacts | src/Echoer.cpp:99-103 | over ascending ids, a pass sends only to picked ids, in ascending order, to every picked id when nothing fails, and a failure is the last send's |
| Echo.DestroyedOrder | src/Echoer.cpp:114-125 | the destructor stops when echoing, closes the input, then closes targets in ascending id order; a failing stop or input close releases no target; with no error every target is closed |
| Echo.FanOutFacts | src/Echoer.cpp:95-104 | one callback pass sends only to unmuted targets, in ascending id order; to all of them when no send fails; a failure is the last send's |
| Echo.Echoer.constructor | src/Echoer.cpp:106-112 | the constructor opens the source; state equals OpenInput on an unopened unit |
| Echo.Echoer.Closed | include/Echoer.h:126-130 | default state: nothing open, no targets |
| Echo.Echoer.Open | EchoMIDIApp/src/EchoManager.cpp:37 | in place, the OpenInput transition |
| Echo.Echoer.Close | EchoMIDIApp/src/EchoManager.cpp:66 | in place, the CloseInput transition |
| Echo.Echoer.Start | src/Echoer.cpp:153-157 | in place, the Start transition |
| Echo.Echoer.Stop | src/Echoer.cpp:159-163 | in place, the Stop transition |
| Echo.Echoer.Reset | src/Echoer.cpp:148-151 | reset raises exactly when midiInReset fails, carrying the input's id and the code |
| Echo.Echoer.Add | src/Echoer.cpp:127-137 | in place, the Add transition; the returned flag is true whenever add returns normally, and says whether the id is now a target |
| Echo.Echoer.Remove | src/Echoer.cpp:139-146 | in place, the Remove transition |
| Echo.Echoer.SetMute | include/Echoer.h:79-83 | in place, the SetMute transition |
| Echo.Echoer.FocusSend | EchoMIDIApp/src/EchoManager.cpp:172 | in place, the FocusSend transition |
| Echo.Echoer.Callback | src/Echoer.cpp:95-104 | the loop delivers exactly what Visit over the ascending ids and the unmuted set describes |
| Echo.Echoer.CloseTargets | src/Echoer.cpp:123-124 | closes targets in ascending id order, each at most once and all when none fails |
| Echo.Echoer.Destroy | src/Echoer.cpp:114-125 | in place, the Destroyed teardown |
| Paths.FilenameStart | src/FocusHook.cpp:124 | the filename starts just after the last separator, or at 0 |
| Paths.FilenameStartUnique | src/FocusHook.cpp:124 | that position is the only one with those properties |
| Paths.Filename | src/FocusHook.cpp:124 | path::filename is a separator-free suffix |
| Paths.HasParentPath | src/FocusHook.cpp:121-123 | has_parent_path holds iff a separator is present |
| Paths.BareFilename | src/FocusHook.cpp:123-124 | a path without a separator is its own filename |
| Paths.FilenameOfJoin | src/FocusHook.cpp:124 | the filename of dir\name is name |
| Paths.LastDot | src/FocusHook.cpp:125 | the index of the last dot, or -1 |
| Paths.ExtensionStart | src/FocusHook.cpp:124-125 | the extension begins at the last dot unless that dot leads the name or the name is "." or ".." |
| Paths.Extension | src/FocusHook.cpp:124 | path::extension is the suffix from that point |
| Paths.Stem | src/FocusHook.cpp:125 | replace_extension("") leaves the prefix before the extension; stem + extension = filename |
| Paths.SplitExtension | src/FocusHook.cpp:124-125 | name + ".ext" splits back into that stem and that extension |
| Paths.NoDotNoExtension | src/FocusHook.cpp:124-125 | a dotless filename has no extension and is its own stem |
| Paths.DropSeps | src/FocusHook.cpp:121 | drops exactly a leading run of separators |
| Paths.Collapse | src/FocusHook.cpp:121 | the spelling path equality compares: each run of separators becomes one `\` |
| Paths.CollapseIsCollapsed | src/FocusHook.cpp:121 | the collapsed spelling has only `\` as separator and never two in a row |
| Paths.CollapseIdempotent | src/FocusHook.cpp:121 | collapsing a collapsed spelling changes nothing |
| Paths.CollapseIgnoresSlashes | src/FocusHook.cpp:121 | writing `/` as `\` does not change the collapsed spelling |
| Paths.CollapseJoin | src/FocusHook.cpp:121 | any run of separators between two elements collapses to one `\` |
| Paths.SeparatorRuns | src/FocusHook.cpp:121 | between the same drive, directory and file, any two runs of separators of any spelling and length give the same collapsed path |
| FocusHook.RefocusEntry | src/FocusHook.cpp:117-131 | a target with an empty rule is untouched; otherwise only focus_muted changes, to "rule does not match the window" |
| FocusHook.FocusMatch | src/FocusHook.cpp:120-125 | the match of a focus rule against a window path; its properties are FullPathRule, SeparatorSpelling, BareRuleMatchesAnyDirectory and BareRuleIgnoresDirectory |
| FocusHook.RefocusSome | src/FocusHook.cpp:115-133 | the entries visited so far are refocused, the others unchanged, keys kept |
| FocusHook.Refocused | src/FocusHook.cpp:115-133 | the targets of one unit after a focus change, as RefocusedEffect states |
| FocusHook.RefocusStep | src/FocusHook.cpp:115 | visiting one more target refocuses exactly that entry |
| FocusHook.RefocusedEffect | src/FocusHook.cpp:113-133 | a focus change keeps every key, handle, mute flag and rule; only focus_muted of targets with a rule changes, to the negation of the match |
| FocusHook.RefocusedIdempotent | src/FocusHook.cpp:113-133 | the same focus event twice has the effect of once |
| FocusHook.FullPathRule | src/FocusHook.cpp:120-121 | a rule with a parent path matches exactly the windows whose path has the same elements: the spelling of the separators and doubled separators do not matter |
| FocusHook.SeparatorSpelling | src/FocusHook.cpp:121 | a full-path rule written with `/` and a doubled separator matches the same path written with single `\` |
| FocusHook.BareRuleMatchesAnyDirectory | src/FocusHook.cpp:122-125 | a bare rule "name" or "name.ext" matches dir\name.ext in any directory |
| FocusHook.BareRuleIgnoresDirectory | src/FocusHook.cpp:122-125 | a bare rule's match depends only on the window's filename |
| FocusHook.ReaperExample | src/FocusHook.cpp:122-125 | "reaper" and "reaper.exe" both match C:\Program Files\REAPER\reaper.exe |
| FocusHook.RefocusTarget | src/FocusHook.cpp:117-131 | one target in place: the RefocusEntry update, nothing else changed |
| FocusHook.RefocusTargets | src/FocusHook.cpp:115-133 | the inner loop leaves the unit's targets Refocused and the rest of its state unchanged |
| FocusHook.FocusTracker.constructor | src/FocusHook.cpp:21 | no unit registered |
| FocusHook.FocusTracker.RegisterEchoer | src/FocusHook.cpp:92-95 | set insertion |
| FocusHook.FocusTracker.UnregisterEchoer | src/FocusHook.cpp:97-100 | set erasure |
| FocusHook.FocusTracker.OnEvent | src/FocusHook.cpp:103-136 | a non-focus event or an empty window path changes no unit; a focus event refocuses every registered unit |
| ManagerSpec.Unseen | EchoMIDIApp/src/EchoManager.cpp:20-21 | every known name starts unseen (false) |
| ManagerSpec.Registry.SetInEcho | EchoMIDIApp/src/EchoManager.cpp:134-149 | setInEcho as a transition; its properties are the ManagerProps.SetInEcho rows |
| ManagerSpec.Registry.TryAddTarget | EchoMIDIApp/src/EchoManager.cpp:243-256 | tryAddTarget as a transition; its properties are the ManagerProps.TryAddTarget rows |
| ManagerSpec.Registry.SetTargetMute | EchoMIDIApp/src/EchoManager.cpp:151-161 | setTargetMute as a transition; its properties are the ManagerProps.SetTargetMute rows |
| ManagerSpec.Registry.SetTargetFocusSend | EchoMIDIApp/src/EchoManager.cpp:163-174 | setTargetFocusSend as a transition; its properties are the ManagerProps.SetTargetFocusSend rows |
| ManagerSpec.Registry.Sync | EchoMIDIApp/src/EchoManager.cpp:13-132 | syncMidiDevices as five phases, each skipped after an exception; its properties are SyncProps.SyncEffect, SyncConsistent and ReattachProps.SyncReattaches |
| ManagerSpec.ScanInput | EchoMIDIApp/src/EchoManager.cpp:25-47 | one iteration of the input scan; its properties are SyncProps.InputScanPrefix and OpenAndStartFacts |
| ManagerSpec.UpdateInput | EchoMIDIApp/src/EchoManager.cpp:53-68 | one iteration of the input update; its properties are SyncProps.UpdateInputEffect and ReleaseFacts |
| ManagerSpec.ScanOutput | EchoMIDIApp/src/EchoManager.cpp:80-107 | one iteration of the output scan; its properties are SyncProps.OutputScanPrefix and ReapplyAll |
| ManagerSpec.UpdateOutput | EchoMIDIApp/src/EchoManager.cpp:112-125 | one iteration of the output update; its properties are SyncProps.UpdateOutputEffect and DetachLoopRemoves |
| ManagerSpec.FoldStopsAtError | EchoMIDIApp/src/EchoManager.cpp:129-131 | once a loop body raises, the rest of the loop changes nothing |
| ManagerSpec.FoldAppend | EchoMIDIApp/src/EchoManager.cpp:129-131 | a loop over a concatenation continues from where the first part stopped |
| ManagerSpec.FoldPreserves | EchoMIDIApp/src/EchoManager.cpp:110-126 | what every loop body keeps, the loop keeps, raised or not |
| ManagerProps.SetInEchoEffect | EchoMIDIApp/src/EchoManager.cpp:134-149 | setInEcho touches only the record of the name (inserting a default), never its availability or targets, and records the request unless it raised |
| ManagerProps.SetInEchoGuard | EchoMIDIApp/src/EchoManager.cpp:136-146 | unchanged or unavailable: only the request is recorded; otherwise echo opens on the live id and starts, stop stops and closes |
| ManagerProps.SetInEchoIdempotent | EchoMIDIApp/include/EchoManager.h:31-38 | repeating a request that went through changes nothing |
| ManagerProps.SetInEchoConsistent | EchoMIDIApp/include/EchoManager.h:31-38 | a request that goes through keeps every unit open iff available and asked to echo, echoing iff open |
| ManagerProps.TryAddTargetGate | EchoMIDIApp/src/EchoManager.cpp:243-256 | a target is newly attached iff the gate holds and the open succeeds; it is unmuted with the stored rule ("" inserted when none); a failed open leaves it detached with the classified error; without the gate only the two records are inserted |
| ManagerProps.TryAddTargetAbsentOutput | EchoMIDIApp/src/EchoManager.cpp:248-252 | a gated pair whose output is not live opens the MIDI mapper: the call succeeds, and the unit gains the invalid id, exactly when the mapper opens; otherwise it raises handleOutputErr's exception for the mapper's code |
| ManagerProps.TryAddTargetShape | EchoMIDIApp/src/EchoManager.cpp:243-256 | only the source's targets and the pair's focus rule can change |
| ManagerProps.TryAddTargetFrame | EchoMIDIApp/src/EchoManager.cpp:243-256 | units keep life cycle, outputs keep availability and mute records, and no unit gains the invalid id unless the MIDI mapper opens |
| ManagerProps.SetTargetMuteEffect | EchoMIDIApp/src/EchoManager.cpp:151-161 | the flag is recorded even when it then raises; muting never attaches or detaches; on success a live target of an available echoing unit carries the flag |
| ManagerProps.SetTargetMuteRecord | EchoMIDIApp/src/EchoManager.cpp:153-160 | the mute record of the pair is the new value, copied to the live target on success |
| ManagerProps.MuteNeverAttaches | EchoMIDIApp/src/EchoManager.cpp:153-155 | setTargetMute(true) changes no unit's target set |
| ManagerProps.SetTargetMuteIgnoresStoppedUnit | EchoMIDIApp/src/EchoManager.cpp:159 | while the unit is not echoing, the live target keeps its old flag |
| ManagerProps.SetTargetFocusSendEffect | EchoMIDIApp/src/EchoManager.cpp:163-174 | the rule is recorded even when it then raises; mute records unchanged; on success a live target carries the rule |
| ManagerProps.TryAddTargetKeepsRule | EchoMIDIApp/src/EchoManager.cpp:253 | tryAddTarget does not overwrite a stored rule |
| ManagerProps.TryAddTargetTouched | EchoMIDIApp/src/EchoManager.cpp:245-246 | tryAddTarget's result depends only on the two records it inserts |
| ManagerProps.LiveMuteFrame | EchoMIDIApp/src/EchoManager.cpp:157-160 | the last step of setTargetMute changes only the source unit's flag of that target |
| ManagerProps.LiveFocusSendFrame | EchoMIDIApp/src/EchoManager.cpp:169-172 | the last step of setTargetFocusSend changes only the source unit's rule of that target |
| ManagerProps.SetTargetMuteFrame | EchoMIDIApp/src/EchoManager.cpp:151-161 | on a known pair: units and availability kept, only that mute record written |
| ManagerProps.SetTargetFocusSendFrame | EchoMIDIApp/src/EchoManager.cpp:163-174 | on a known pair: units, availability and all mute records kept |
| ManagerProps.SetTargetFocusSendKeeps | EchoMIDIApp/src/EchoManager.cpp:163-174 | keeps every unit's life cycle and adds no invalid id unless the MIDI mapper opens |
| ManagerProps.SetTargetFocusSendOutputs | EchoMIDIApp/src/EchoManager.cpp:165-172 | writes no mute record, availability or other output |
| Manager.EchoManager.constructor | EchoMIDIApp/include/EchoManager.h:69-70 | both maps start empty |
| Manager.EchoManager.InIsAvailable | EchoMIDIApp/include/EchoManager.h:45-48 | returns the record's availability, inserting a default record (unavailable) for an unknown name |
| Manager.EchoManager.OutIsAvailable | EchoMIDIApp/include/EchoManager.h:50-53 | the same for outputs |
| Manager.EchoManager.SetInEcho | EchoMIDIApp/src/EchoManager.cpp:134-149 | leaves the maps and the error as ManagerSpec's SetInEcho |
| Manager.EchoManager.TryAddTarget | EchoMIDIApp/src/EchoManager.cpp:243-256 | as ManagerSpec's TryAddTarget |
| Manager.EchoManager.SetTargetMute | EchoMIDIApp/src/EchoManager.cpp:151-161 | as ManagerSpec's SetTargetMute |
| Manager.EchoManager.SetTargetFocusSend | EchoMIDIApp/src/EchoManager.cpp:163-174 | as ManagerSpec's SetTargetFocusSend |
| Manager.EchoManager.ScanInputOne | EchoMIDIApp/src/EchoManager.cpp:25-47 | one live input, as ScanInput |
| Manager.EchoManager.ScanInputs | EchoMIDIApp/src/EchoManager.cpp:17-48 | the input scan over ids 0..n-1, as ScanFold of ScanInput |
| Manager.EchoManager.UpdateInputOne | EchoMIDIApp/src/EchoManager.cpp:53-68 | one known input, as UpdateInput |
| Manager.EchoManager.UpdateInputs | EchoMIDIApp/src/EchoManager.cpp:51-69 | the availability update in name order |
| Manager.EchoManager.ReapplyOne | EchoMIDIApp/src/EchoManager.cpp:94-99 | one input of the re-apply loop |
| Manager.EchoManager.Reapply | EchoMIDIApp/src/EchoManager.cpp:92-100 | the re-apply loop in input name order |
| Manager.EchoManager.ScanOutputOne | EchoMIDIApp/src/EchoManager.cpp:80-107 | one live output, as ScanOutput |
| Manager.EchoManager.ScanOutputs | EchoMIDIApp/src/EchoManager.cpp:73-108 | the output scan over ids 0..n-1 |
| Manager.EchoManager.Detach | EchoMIDIApp/src/EchoManager.cpp:120-123 | the detach loop in input name order |
| Manager.EchoManager.UpdateOutputOne | EchoMIDIApp/src/EchoManager.cpp:112-125 | one known output, as UpdateOutput |
| Manager.EchoManager.UpdateOutputs | EchoMIDIApp/src/EchoManager.cpp:110-126 | the output availability update in name order |
| Manager.EchoManager.AttachAll | EchoMIDIApp/src/EchoManager.cpp:130-131 | tryAddTarget of one input against every output in name order |
| Manager.EchoManager.AttachQueued | EchoMIDIApp/src/EchoManager.cpp:129-131 | the attach phase over the queued inputs |
| Manager.EchoManager.SyncMidiDevices | EchoMIDIApp/src/EchoManager.cpp:13-132 | leaves the maps and the error as ManagerSpec's Sync for the object's revision |
| Manager.EchoManager.SaveToFile | EchoMIDIApp/src/EchoManager.cpp:177-219 | writes SaveDoc of the registry and fills in "" for saved pairs without a rule; the legacy revision (EchoMIDIApp/include/EchoManager.cpp:164-166) writes nothing and changes nothing |
| Manager.EchoManager.SaveInputs | EchoMIDIApp/src/EchoManager.cpp:182-210 | the outer save loop |
| Manager.EchoManager.SaveOutputs | EchoMIDIApp/src/EchoManager.cpp:194-207 | the inner save loop: one object per output holding a mute record for the input |
| Manager.EchoManager.LoadFromFile | EchoMIDIApp/src/EchoManager.cpp:221-239 | leaves the maps and the error as Load of the document |
| Manager.EchoManager.LoadInputEntry | EchoMIDIApp/src/EchoManager.cpp:231-237 | one input object: setInEcho, then its outputs |
| SyncProps.OpenAndStartFacts | EchoMIDIApp/src/EchoManager.cpp:37-38 | open and start keep the targets and on success leave the unit open on that id and echoing |
| SyncProps.InputScanPrefix | EchoMIDIApp/src/EchoManager.cpp:23-48 | after the first k live inputs: avaliable_devices true exactly for seen known names; unknown seen names get {available, not echoing}; new_devices holds exactly the seen names that are unknown or reconnect with echo requested; those units are opened on the live id and started |
| SyncProps.ReleaseFacts | EchoMIDIApp/src/EchoManager.cpp:60-67 | releasing a vanished input keeps its targets and leaves it stopped and closed |
| SyncProps.UpdateInputEffect | EchoMIDIApp/src/EchoManager.cpp:51-69 | one known input takes its availability; a vanished one is released |
| SyncProps.InputUpdate | EchoMIDIApp/src/EchoManager.cpp:51-69 | the whole update loop updates each known input once |
| SyncProps.ReapplyOneFrame | EchoMIDIApp/src/EchoManager.cpp:94-99 | one re-apply step writes the re-applied mute value for that input and keeps the units and other outputs |
| SyncProps.ReapplyAll | EchoMIDIApp/src/EchoManager.cpp:90-100 | after the re-apply loop every known input has a mute value: the stored one, else true (current) or false (EchoMIDIApp/include/EchoManager.cpp:83-87) |
| SyncProps.ReappliedMuteAgain | EchoMIDIApp/src/EchoManager.cpp:95-98 | re-applying an already re-applied record changes none of its values |
| SyncProps.OutputScanPrefix | EchoMIDIApp/src/EchoManager.cpp:78-108 | after the first k live outputs: seen known names are marked; reconnecting ones re-applied; unknown ones get {available, no records} |
| SyncProps.DetachOneAbsent | EchoMIDIApp/src/EchoManager.cpp:122 | an id no unit holds is removed from none |
| SyncProps.DetachLoop | EchoMIDIApp/src/EchoManager.cpp:120-123 | the detach loop removes the id from available units that hold it, and touches nothing else |
| SyncProps.UpdateOutputEffect | EchoMIDIApp/src/EchoManager.cpp:110-126 | one known output takes its availability and the units keep their life cycle; a vanished name looks up to the MIDI mapper id, so when no unit held that id no unit changes |
| SyncProps.UpdateOutputDetaches | EchoMIDIApp/src/EchoManager.cpp:116-123 | after the update of a vanished output that raised nothing, no available unit holds the id its name looks up to |
| SyncProps.DetachOneRemoves | EchoMIDIApp/src/EchoManager.cpp:121-123 | one detach step that raises nothing leaves that input's unit, if available, without the id |
| SyncProps.DetachLoopRemoves | EchoMIDIApp/src/EchoManager.cpp:120-123 | a detach loop that raises nothing leaves no available unit of the visited inputs holding the id |
| SyncProps.OutputUpdate | EchoMIDIApp/src/EchoManager.cpp:110-126 | the output update loop updates each known output once |
| SyncProps.AttachOneFrame | EchoMIDIApp/src/EchoManager.cpp:131 | one tryAddTarget of the attach phase keeps units, output availability and mute records |
| SyncProps.AttachPhase | EchoMIDIApp/src/EchoManager.cpp:129-131 | the whole attach phase keeps that frame, raised or not |
| SyncProps.InputPhases | EchoMIDIApp/src/EchoManager.cpp:17-69 | the input phases: a record for every known and live name, available iff live, request kept; vanished and new units closed; reconnecting requested units open on the live id and echoing |
| SyncProps.OutputPhases | EchoMIDIApp/src/EchoManager.cpp:73-126 | the output phases: available iff live, stored mute values kept, a reconnecting output holds a mute value for every input, a new output has no records |
| SyncProps.SyncEffect | EchoMIDIApp/src/EchoManager.cpp:13-132 | a synchronisation that raises nothing leaves the inputs and outputs as InputPhases and OutputPhases describe, and adds no invalid id unless the MIDI mapper opens |
| SyncProps.SyncConsistent | EchoMIDIApp/include/EchoManager.h:28-38 | a synchronisation that raises nothing keeps every unit open iff available and requested, echoing iff open |
| SyncProps.SyncReconnectDefault | EchoMIDIApp/src/EchoManager.cpp:95-96 | a reconnecting output's missing mute record becomes true in the current revision and false in the legacy one (EchoMIDIApp/include/EchoManager.cpp:86) |
| SyncProps.SyncOutputRecords | EchoMIDIApp/src/EchoManager.cpp:88-106 | stored mute values survive a reconnect; a first-seen output starts available with no records |
| SyncProps.SyncStopsAtPhase | EchoMIDIApp/src/EchoManager.cpp:13-132 | the registry left behind is that of the phase that raised, or of the last |
| SyncProps.SyncGrows | EchoMIDIApp/include/EchoManager.h:5-6 | syncMidiDevices never forgets a device name, raised or not |
| ReattachProps.TryAddTargetKeepsTargets | EchoMIDIApp/src/EchoManager.cpp:250-254 | tryAddTarget never detaches anything |
| ReattachProps.TryAddTargetAttaches | EchoMIDIApp/src/EchoManager.cpp:250-254 | with the input available and the pair's record "send", the output is attached unless the open raises |
| ReattachProps.AttachAllAttaches | EchoMIDIApp/src/EchoManager.cpp:130-131 | one queued input against every output: nothing detached, and without error every output whose record says "send" is attached |
| ReattachProps.AttachQueued | EchoMIDIApp/src/EchoManager.cpp:129-131 | the attach phase: the same for every queued input |
| ReattachProps.SyncReattaches | EchoMIDIApp/src/EchoManager.cpp:128-131 | after a synchronisation that raises nothing, every live input that was new or reconnected with echo requested holds every output whose mute record for it says "send" |
| ReattachProps.ReapplyCurrentFailsClosed | EchoMIDIApp/src/EchoManager.cpp:95-99 | current revision: re-applying a missing record raises nothing, records "muted" and attaches nothing anywhere |
| ReattachProps.ReapplyLegacyFailsOpen | EchoMIDIApp/include/EchoManager.cpp:83-87 | legacy revision: a missing record is recorded as "send", and an available input that lacked the output has it attached unmuted unless the open raises |
| ReattachProps.MuteRaisesNothing | EchoMIDIApp/src/EchoManager.cpp:151-161 | setTargetMute(true) never raises |
| ReattachProps.FocusSendWhileMuted | EchoMIDIApp/src/EchoManager.cpp:163-174 | setTargetFocusSend on a muted pair raises nothing, attaches nothing and keeps the mute records |
| Persistence.SavedOutput | EchoMIDIApp/src/EchoManager.cpp:197-206 | an output yields an object for an input iff it holds a mute record for it, with that mute value and rule |
| Persistence.SaveDoc | EchoMIDIApp/src/EchoManager.cpp:177-219 | the document saveToFile writes; its properties are SaveOrder, SaveTwice and SaveLoadRoundTrip |
| Persistence.Load | EchoMIDIApp/src/EchoManager.cpp:221-239 | loadFromFile over the document's inputs; its properties are RestoreAll and SaveLoadRoundTrip |
| Persistence.Filled | EchoMIDIApp/src/EchoManager.cpp:203 | reading focus_send for every saved pair leaves a rule for exactly the stored rules plus the saved pairs, "" where none was stored |
| Persistence.SaveOrder | EchoMIDIApp/src/EchoManager.cpp:182-194 | inputs and outputs are saved in name order |
| Persistence.SaveTwice | EchoMIDIApp/src/EchoManager.cpp:177-219 | saving again writes the same document |
| Persistence.SaveTouchedSettings | EchoMIDIApp/src/EchoManager.cpp:203 | saving only fills in empty rules: every setting, unit, availability and mute record is kept |
| Persistence.SaveTouchedIdempotent | EchoMIDIApp/src/EchoManager.cpp:203 | a second save fills in nothing more |
| Persistence.SetInEchoOffline | EchoMIDIApp/src/EchoManager.cpp:134-149 | on a registry with nothing available, setInEcho only records the request |
| Persistence.LoadOutputOffline | EchoMIDIApp/src/EchoManager.cpp:235-236 | there, one output object only records its mute value and rule |
| Persistence.RestoreAll | EchoMIDIApp/src/EchoManager.cpp:229-238 | loading a saved document into an empty registry loads every input and pair |
| Persistence.SaveLoadRoundTrip | EchoMIDIApp/src/EchoManager.cpp:177-239 | loading the document saved from a registry into an empty one raises nothing and restores every echo request, mute value and focus rule the document records |

## Left out

- The wxWidgets interface, the console programs and argument parsing are not part of this model. Neither are the message-loop thread, the WinEvent hook installation and cleanup (src/FocusHook.cpp:138-164), or logging.
- getHWNDPath (src/FocusHook.cpp:68-90) asks the operating system for a window's executable. The model takes its result as the `window` parameter of `FocusTracker.OnEvent`; "" stands for a denied query.
- The Windows multimedia calls are an oracle of result codes. No MIDI bytes are modelled, and midiOutShortMsg's message argument is not carried.
- getMidiInIDByName and getMidiOutIDByName are not part of this model. They are assumed to return the first live index with the name, and `INVALID_MIDI_ID` when there is none.
- JSON text, files and streams are left out. saveToFile produces, and loadFromFile consumes, a document value with the same objects and fields. A malformed file, which nlohmann::json would reject with an exception, is not modelled.
- The long `std::format` messages of the exceptions are not modelled. The short message, code, I/O type and id are.
- The newer Echoer, which has open, close, isOpen, focusSend, focus_muted and iteration over its targets, is not part of this model. Its behaviour is inferred from its calls in EchoMIDIApp/src/EchoManager.cpp and src/FocusHook.cpp. close leaves the targets alone, and the open flag is set only on success.
- Echo.Echoer.constructor: a failing open leaves the unit unopened instead of throwing out of the constructor.
- getTargets, isEchoing, getMidiInputs and getMidiOutputs are plain field reads. The model reads the fields directly.
- isMuted (include/Echoer.h:86-90) has no return statement, so C++ leaves its result undefined. `Echo.EchoerState.IsMuted` returns the flag.
- Short messages have no separate send path for long (sysex) messages, and the code has none either.
- The legacy revision declares loadFromFile (EchoMIDIApp/include/EchoManager.h:62) but does not define it. `Manager.EchoManager.LoadFromFile` requires the current revision.
- loadFromFile's `keep_unsaved` parameter is not read by the code, and the model ignores it too.
- The registry holds Echo units by value (`MidiInProps::echoer`). It applies the `EchoerState` transitions rather than sharing `Echo.Echoer` objects.
- The registration of units with the focus tracker is independent of the registry, because the code shows no call site for it.
- Focus muting does not gate the callback in the code shown, and it does not in the model.
- Echo.Destroyed: ~Echoer is implicitly noexcept, so an exception raised inside it calls std::terminate. The error and the partial state this member returns stand for that termination; in the code nothing runs after it.
- Echo.DestroyedOrder: its error cases describe the state at the point where the code calls std::terminate, as for Echo.Destroyed.
- Echo.Echoer.Destroy: the returned error stands for std::terminate, as for Echo.Destroyed.
- Winmm.Devices: the oracle gives one result code per call and snapshot, independent of earlier calls. A single-client port that opens once and then answers MMSYSERR_ALLOCATED to a second open within one snapshot is not modelled. The DeviceAllocated exception arises only where the oracle gives that code for the call.
- Manager.EchoManager.ScanInputs: it reads the name of each live id from the snapshot. A failing midiInGetDevCaps, which getMidiInputName raises out of syncMidiDevices (EchoMIDIApp/src/EchoManager.cpp:25), is not modelled.
- Manager.EchoManager.ScanOutputs: likewise, a failing midiOutGetDevCaps (EchoMIDIApp/src/EchoManager.cpp:80) is not modelled.
- ManagerSpec.Registry.Sync: it takes every capability query of a live id to succeed, as ScanInputs and ScanOutputs do.
- MidiErrors.HandleInputErr: for MMSYSERR_ALLOCATED it yields DeviceAllocated. The DeviceAllocated constructor (include/Echoer.h:190-197) first asks getMidiName for the device's name, and the model takes that capability query to succeed. A failing query (src/Echoer.cpp:34-41) would raise its own exception from handleInputErr instead; a query that itself answered MMSYSERR_ALLOCATED would re-enter the handler without end. midiInGetDevCaps and midiOutGetDevCaps do not document that code.
- MidiErrors.HandleOutputErr: likewise for outputs, through getMidiOutputName (src/Echoer.cpp:43-50). This case is reachable for MIDI_MAPPER: tryAddTarget on an output that is not live calls add(INVALID_MIDI_ID) (EchoMIDIApp/src/EchoManager.cpp:248-252, src/Echoer.cpp:127-137), and an MMSYSERR_ALLOCATED answer there would ask for the mapper's name.
- Winmm.Devices.OutCapsResult: the capability query of MIDI_MAPPER is treated like any other id outside the live range (MMSYSERR_BADDEVICEID); the mapper's own name is not modelled. The core asks for it only in the DeviceAllocated constructor after add(INVALID_MIDI_ID) answers MMSYSERR_ALLOCATED, a query the model does not make (see MidiErrors.HandleOutputErr).
- MidiErrors.GetMidiOutputName: for MIDI_MAPPER it gives the BadDeviceID error that Winmm.Devices.OutCapsResult leads to, where WinMM would give the mapper's name.
- FocusHook.FocusMatch: path equality is modelled as equality after collapsing runs of separators. Root names are not modelled. A drive-relative rule such as `C:reaper.exe` has a parent path in std::filesystem but counts as bare here. A UNC prefix `\\server` collapses to a single separator. No case folding is modelled.
- Paths.HasParentPath: it looks for a separator only; a root name without one (`C:`) is not recognised.
- Concurrency between the focus thread, the MIDI callback and the interface is left out. Every operation is taken as atomic.
