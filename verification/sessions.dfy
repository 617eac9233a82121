/**
 * The camera's negotiation state: the sessions set up by the controller, the streaming
 * status it publishes, and the last selected stream configuration it was sent.
 */
module Sessions {
  import opened Wrappers
  import opened Bytes
  import opened Tlv
  import opened Protocol

  /** A handle on a started stream process; the process itself lies outside the model. */
  datatype Process = Process(id: nat)

  /** What the camera keeps about one negotiated session. */
  datatype Session = Session(
    address: string,
    videoPort: uint16,
    videoKey: bytes,
    videoSalt: bytes,
    videoSsrc: bytes,
    audioPort: uint16,
    audioKey: bytes,
    audioSalt: bytes,
    audioSsrc: bytes,
    process: Option<Process>)

  /**
   * The camera accessory: its fixed options (SRTP support, the address it streams from and
   * that address's family) and its mutable negotiation state.
   */
  datatype Camera = Camera(
    supportSrtp: bool,
    streamAddress: string,
    addressVersion: byte,
    sessions: map<bytes, Session>,
    streamingStatus: byte,
    selectedConfig: Option<bytes>)

  /** A freshly constructed camera: available, with no session and no selection. */
  function Initial(supportSrtp: bool, streamAddress: string, addressVersion: byte): (cam: Camera)
    ensures cam.sessions == map[]
    ensures cam.streamingStatus == StreamingAvailable
    ensures cam.selectedConfig == None
    ensures cam.supportSrtp == supportSrtp && cam.streamAddress == streamAddress
    ensures cam.addressVersion == addressVersion
  {
    Camera(supportSrtp, streamAddress, addressVersion, map[], StreamingAvailable, None)
  }

  /** Tag of the status inside the streaming-status blob. */
  const StatusTag: byte := 0x01

  /** The streaming-status blob: the status byte as the single entry of its tag. */
  function StreamingStatusBlob(status: byte): (b: bytes)
    ensures DecodeList(b) == Some([Item(StatusTag, [status])])
    ensures Decode(b) == Some(map[StatusTag := [status]])
  {
    DecodeSingle(StatusTag, [status]);
    Encode([Item(StatusTag, [status])])
  }
}
