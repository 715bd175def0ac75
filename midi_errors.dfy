/**
 * The exception hierarchy of the echo library (MIDIEchoExcept, BadDeviceID,
 * DeviceAllocated), the functions that turn an MMRESULT into one of them, and
 * the device name lookups.  A thrown exception becomes a `MidiError` value.
 */
module MidiErrors {
  import opened Winmm

  datatype Option<T> = None | Some(value: T)

  datatype Result<T> = Ok(value: T) | Err(error: MidiError)

  /** MIDIIOType. */
  datatype IOType = Unknown | Input | Output

  /** Which of the three exception classes was thrown. */
  datatype ErrorKind = Generic | BadDeviceID | DeviceAllocated

  /**
   * The fields an exception carries: the MMRESULT, the I/O type, the device id
   * and the short message.  The long `std::format` message is not modelled.
   */
  datatype MidiError = MidiError(kind: ErrorKind, errCode: MMResult, ioType: IOType, deviceId: DeviceId, shortMsg: string)

  /** The short message each exception class sets. */
  function ShortMsgOf(kind: ErrorKind): string
  {
    match kind
    case Generic => "UNKNOWN"
    case BadDeviceID => "BADID"
    case DeviceAllocated => "OCCUPIED"
  }

  /** MIDIEchoExcept(err_code, type, device_id). */
  function GenericError(code: MMResult, ioType: IOType, id: DeviceId): (e: MidiError)
    ensures e.kind == Generic && e.shortMsg == "UNKNOWN"
    ensures e.errCode == code && e.ioType == ioType && e.deviceId == id
  {
    MidiError(Generic, code, ioType, id, ShortMsgOf(Generic))
  }

  /** BadDeviceID(type, bad_id, max_id); max_id only feeds the long message. */
  function BadDeviceIdError(ioType: IOType, badId: DeviceId): (e: MidiError)
    ensures e.kind == BadDeviceID && e.shortMsg == "BADID"
    ensures e.errCode == MMSYSERR_BADDEVICEID && e.ioType == ioType && e.deviceId == badId
  {
    MidiError(BadDeviceID, MMSYSERR_BADDEVICEID, ioType, badId, ShortMsgOf(BadDeviceID))
  }

  /** DeviceAllocated(type, device_id). */
  function DeviceAllocatedError(ioType: IOType, id: DeviceId): (e: MidiError)
    ensures e.kind == DeviceAllocated && e.shortMsg == "OCCUPIED"
    ensures e.errCode == MMSYSERR_ALLOCATED && e.ioType == ioType && e.deviceId == id
  {
    MidiError(DeviceAllocated, MMSYSERR_ALLOCATED, ioType, id, ShortMsgOf(DeviceAllocated))
  }

  /** The exception class an MMRESULT other than MMSYSERR_NOERROR selects. */
  function KindOfCode(code: MMResult): ErrorKind
  {
    if code == MMSYSERR_BADDEVICEID then BadDeviceID
    else if code == MMSYSERR_ALLOCATED then DeviceAllocated
    else Generic
  }

  /**
   * handleInputErr: no error for MMSYSERR_NOERROR, otherwise the exception the
   * code selects.  The BADINID macro labels a bad input id as OUTPUT.
   */
  function HandleInputErr(code: MMResult, id: DeviceId): (r: Option<MidiError>)
    ensures r.None? <==> code == MMSYSERR_NOERROR
    ensures r.Some? ==> r.value.kind == KindOfCode(code) && r.value.errCode == code && r.value.deviceId == id
    ensures r.Some? ==> r.value.shortMsg == ShortMsgOf(r.value.kind)
    ensures r.Some? ==> r.value.ioType == (if r.value.kind == BadDeviceID then Output else Input)
  {
    if code == MMSYSERR_NOERROR then None
    else if code == MMSYSERR_BADDEVICEID then Some(BadDeviceIdError(Output, id))
    else if code == MMSYSERR_ALLOCATED then Some(DeviceAllocatedError(Input, id))
    else Some(GenericError(code, Input, id))
  }

  /**
   * handleOutputErr: as handleInputErr, for output devices.  The BADOUTID macro
   * labels a bad output id as INPUT.
   */
  function HandleOutputErr(code: MMResult, id: DeviceId): (r: Option<MidiError>)
    ensures r.None? <==> code == MMSYSERR_NOERROR
    ensures r.Some? ==> r.value.kind == KindOfCode(code) && r.value.errCode == code && r.value.deviceId == id
    ensures r.Some? ==> r.value.shortMsg == ShortMsgOf(r.value.kind)
    ensures r.Some? ==> r.value.ioType == (if r.value.kind == BadDeviceID then Input else Output)
  {
    if code == MMSYSERR_NOERROR then None
    else if code == MMSYSERR_BADDEVICEID then Some(BadDeviceIdError(Input, id))
    else if code == MMSYSERR_ALLOCATED then Some(DeviceAllocatedError(Output, id))
    else Some(GenericError(code, Output, id))
  }

  /**
   * The two handlers raise the same exception class with the same code and id;
   * they differ only in the I/O type they record.
   */
  lemma HandlersAgreeOnClass(code: MMResult, id: DeviceId)
    ensures HandleInputErr(code, id).None? == HandleOutputErr(code, id).None?
    ensures HandleInputErr(code, id).Some? ==>
      HandleInputErr(code, id).value.(ioType := Unknown) == HandleOutputErr(code, id).value.(ioType := Unknown)
    ensures HandleInputErr(code, id).Some? ==>
      HandleInputErr(code, id).value.ioType != HandleOutputErr(code, id).value.ioType
  {
  }

  /**
   * getMidiInputName: the name midiInGetDevCaps reports, or the exception
   * handleInputErr raises for its result code; an id outside the live range
   * is refused with MMSYSERR_BADDEVICEID.
   */
  function GetMidiInputName(dev: Devices, id: DeviceId): (r: Result<string>)
    ensures r.Ok? <==> id < |dev.inputs| && dev.oracle(InCaps(id)) == MMSYSERR_NOERROR
    ensures r.Ok? ==> r.value == dev.inputs[id]
    ensures id < |dev.inputs| && r.Err? ==> Some(r.error) == HandleInputErr(dev.oracle(InCaps(id)), id)
    ensures id >= |dev.inputs| ==> r == Err(BadDeviceIdError(Output, id))
  {
    match HandleInputErr(dev.InCapsResult(id), id)
    case Some(e) => Err(e)
    case None => Ok(dev.inputs[id])
  }

  /** getMidiOutputName, the output counterpart of GetMidiInputName through midiOutGetDevCaps. */
  function GetMidiOutputName(dev: Devices, id: DeviceId): (r: Result<string>)
    ensures r.Ok? <==> id < |dev.outputs| && dev.oracle(OutCaps(id)) == MMSYSERR_NOERROR
    ensures r.Ok? ==> r.value == dev.outputs[id]
    ensures id < |dev.outputs| && r.Err? ==> Some(r.error) == HandleOutputErr(dev.oracle(OutCaps(id)), id)
    ensures id >= |dev.outputs| ==> r == Err(BadDeviceIdError(Input, id))
  {
    match HandleOutputErr(dev.OutCapsResult(id), id)
    case Some(e) => Err(e)
    case None => Ok(dev.outputs[id])
  }

  /** getMidiName: dispatch on the I/O type; UNKNOWN yields "". */
  function GetMidiName(ioType: IOType, dev: Devices, id: DeviceId): (r: Result<string>)
    ensures ioType == Unknown ==> r == Ok("")
    ensures ioType == Input ==> r == GetMidiInputName(dev, id)
    ensures ioType == Output ==> r == GetMidiOutputName(dev, id)
  {
    match ioType
    case Input => GetMidiInputName(dev, id)
    case Output => GetMidiOutputName(dev, id)
    case Unknown => Ok("")
  }

  /**
   * A live name maps to an id whose name lookup gives that name back, unless
   * the capability query of that id fails.
   */
  lemma NameLookupRoundTrip(dev: Devices, name: string)
    requires name in dev.inputs
    ensures var id := IdByName(dev.inputs, name);
      GetMidiName(Input, dev, id) == if dev.oracle(InCaps(id)) == MMSYSERR_NOERROR then Ok(name)
        else Err(HandleInputErr(dev.oracle(InCaps(id)), id).value)
  {
  }
}
