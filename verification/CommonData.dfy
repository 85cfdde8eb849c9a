/** The flags and values that the stages of the pipeline share. */
module CommonData {

  /** The size of each stage's staging buffer. */
  const DATA_BUFFER_SIZE := 16384

  /** Session ids are compared, copied and published as raw 64-bit values. */
  datatype Common = Common(
    applicationRunFlag: bool,
    connected: bool,
    shutdownReceived: bool,
    sessionIdReceived: bool,
    sessionId: nat,
    sequenceNumber: nat,
    dontFilterSourceId: bool)

  class CommonData {
    var applicationRunFlag: bool
    var connected: bool
    var shutdownReceived: bool
    var sessionIdReceived: bool
    var sessionId: nat
    var sequenceNumber: nat
    var dontFilterSourceId: bool

    constructor ()
      ensures Value() == Common(false, false, false, false, 0, 0, false)
    {
      applicationRunFlag, connected, shutdownReceived, sessionIdReceived := false, false, false, false;
      sessionId, sequenceNumber := 0, 0;
      dontFilterSourceId := false;
    }

    ghost function Value(): Common
      reads this
    {
      Common(applicationRunFlag, connected, shutdownReceived, sessionIdReceived, sessionId, sequenceNumber,
             dontFilterSourceId)
    }
  }
}
