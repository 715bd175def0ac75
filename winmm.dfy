/**
 * Abstract model of the Windows multimedia (WinMM) MIDI subsystem that the
 * echo library calls into.  Nothing here talks to hardware: the live device
 * inventory is a pair of name lists indexed by device id, and the outcome of
 * every handle operation is read from a result oracle.
 */
module Winmm {

  /** A WinMM device id (a UINT). */
  type DeviceId = nat

  const UINT_MAX: nat := 0xFFFF_FFFF

  /** Device ids are UINTs, so a live device list is shorter than UINT_MAX. */
  type DeviceList = s: seq<string> | |s| < UINT_MAX witness []

  /** An MMRESULT code. */
  type MMResult = nat

  const MMSYSERR_NOERROR: MMResult := 0
  const MMSYSERR_BADDEVICEID: MMResult := 2
  const MMSYSERR_ALLOCATED: MMResult := 4

  /**
   * The id that a name lookup yields for a name that no live device has.
   * It is UINT -1, the value WinMM reserves for MIDI_MAPPER.
   */
  const INVALID_MIDI_ID: DeviceId := UINT_MAX

  /** The subsystem calls whose result codes the model reads from the oracle. */
  datatype Call =
    | InOpen(id: DeviceId)
    | InClose(id: DeviceId)
    | InStart(id: DeviceId)
    | InStop(id: DeviceId)
    | OutOpen(id: DeviceId)
    | OutClose(id: DeviceId)
    | InCaps(id: DeviceId)
    | OutCaps(id: DeviceId)

  /**
   * One snapshot of the subsystem: the live input names (midiInGetNumDevs /
   * midiInGetDevCaps), the live output names, and the result code each call
   * returns while this snapshot holds.
   */
  datatype Devices = Devices(inputs: DeviceList, outputs: DeviceList, oracle: Call -> MMResult)
  {
    /** midiInOpen: an id outside the live range is refused with MMSYSERR_BADDEVICEID. */
    function InOpenResult(id: DeviceId): (res: MMResult)
      ensures id >= |inputs| ==> res == MMSYSERR_BADDEVICEID
    {
      if id < |inputs| then oracle(InOpen(id)) else MMSYSERR_BADDEVICEID
    }

    /**
     * midiOutOpen: an id outside the live range is refused with
     * MMSYSERR_BADDEVICEID, except MIDI_MAPPER (INVALID_MIDI_ID), which asks
     * for the MIDI mapper and succeeds exactly when the mapper opens.
     */
    function OutOpenResult(id: DeviceId): (res: MMResult)
      ensures id >= |outputs| && id != INVALID_MIDI_ID ==> res == MMSYSERR_BADDEVICEID
      ensures id == INVALID_MIDI_ID ==> (res == MMSYSERR_NOERROR <==> MapperOpens())
    {
      if id < |outputs| || id == INVALID_MIDI_ID then oracle(OutOpen(id)) else MMSYSERR_BADDEVICEID
    }

    /** midiInGetDevCaps: an id outside the live range is refused with MMSYSERR_BADDEVICEID. */
    function InCapsResult(id: DeviceId): (res: MMResult)
      ensures id >= |inputs| ==> res == MMSYSERR_BADDEVICEID
      ensures id < |inputs| ==> res == oracle(InCaps(id))
    {
      if id < |inputs| then oracle(InCaps(id)) else MMSYSERR_BADDEVICEID
    }

    /** midiOutGetDevCaps: an id outside the live range is refused with MMSYSERR_BADDEVICEID. */
    function OutCapsResult(id: DeviceId): (res: MMResult)
      ensures id >= |outputs| ==> res == MMSYSERR_BADDEVICEID
      ensures id < |outputs| ==> res == oracle(OutCaps(id))
    {
      if id < |outputs| then oracle(OutCaps(id)) else MMSYSERR_BADDEVICEID
    }

    /** Whether midiOutOpen(MIDI_MAPPER) succeeds while this snapshot holds. */
    predicate MapperOpens()
    {
      oracle(OutOpen(INVALID_MIDI_ID)) == MMSYSERR_NOERROR
    }
  }

  /** Index of the first occurrence of `name`, which must occur in `names`. */
  function FirstIndex(names: seq<string>, name: string): (k: nat)
    requires name in names
    ensures k < |names| && names[k] == name && name !in names[..k]
  {
    if names[0] == name then 0
    else
      var k := 1 + FirstIndex(names[1..], name);
      assert names[..k] == [names[0]] + names[1..][..k - 1];
      k
  }

  /**
   * getMidiInIDByName / getMidiOutIDByName: the id of the first live device
   * with this name, or INVALID_MIDI_ID when no live device has it.
   */
  function IdByName(names: DeviceList, name: string): (id: DeviceId)
    ensures id == INVALID_MIDI_ID <==> name !in names
    ensures id != INVALID_MIDI_ID ==> id < |names| && names[id] == name && name !in names[..id]
  {
    if name in names then FirstIndex(names, name) else INVALID_MIDI_ID
  }
}
