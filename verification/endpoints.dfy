/**
 * Endpoint negotiation (`set_endpoints`): the controller sends a session identifier, the
 * address and ports it will receive on, and an SRTP key and salt for each of video and
 * audio; the camera stores a session under that identifier and answers with its own
 * address, the controller's ports, its SRTP choice and fixed synchronization sources.
 */
module Endpoints {
  import opened Wrappers
  import opened Bytes
  import opened Tlv
  import opened Protocol
  import opened Sessions
  import Utf8

  /** An address block: address family, address text and the two RTP ports. */
  datatype AddressInfo = AddressInfo(version: byte, address: string, videoPort: uint16, audioPort: uint16)

  /** An SRTP parameter block: crypto suite, master key and master salt. */
  datatype SrtpParams = SrtpParams(suite: byte, masterKey: bytes, masterSalt: bytes)

  /** A setup-endpoints message as the camera reads it. */
  datatype SetupRequest = SetupRequest(sessionId: bytes, address: AddressInfo, video: SrtpParams, audio: SrtpParams)

  /** The outcome of a successful negotiation: the new camera state and the response blob. */
  datatype Negotiated = Negotiated(camera: Camera, response: bytes)

  // ---------------------------------------------------------------- blobs as written

  /** An address block written as TLV8: family, UTF-8 address, video port, audio port. */
  function AddressBlob(a: AddressInfo): bytes {
    Encode([Item(AddrVersion, [a.version]), Item(AddrAddress, Utf8.Encode(a.address)),
            Item(AddrVideoPort, PackU16(a.videoPort)), Item(AddrAudioPort, PackU16(a.audioPort))])
  }

  /** An SRTP parameter block written as TLV8: suite, key, salt. */
  function SrtpBlob(p: SrtpParams): bytes {
    Encode([Item(SrtpCrypto, [p.suite]), Item(SrtpMasterKey, p.masterKey), Item(SrtpMasterSalt, p.masterSalt)])
  }

  /** A setup-endpoints request as a controller writes it. */
  function RequestBlob(req: SetupRequest): bytes {
    Encode([Item(SetupSessionId, req.sessionId), Item(SetupAddress, AddressBlob(req.address)),
            Item(SetupVideoSrtp, SrtpBlob(req.video)), Item(SetupAudioSrtp, SrtpBlob(req.audio))])
  }

  // ---------------------------------------------------------------- reading a request

  /** The fields of a decoded address block are all there, with the widths they are read at. */
  predicate AddressReadable(m: map<byte, bytes>) {
    && AddrVersion in m && |m[AddrVersion]| > 0
    && AddrAddress in m && Utf8.Decode(m[AddrAddress]).Some?
    && AddrVideoPort in m && |m[AddrVideoPort]| == 2
    && AddrAudioPort in m && |m[AddrAudioPort]| == 2
  }

  /** Decoded address block `m` carries `a`. */
  predicate AddressHolds(m: map<byte, bytes>, a: AddressInfo) {
    && AddrVersion in m && |m[AddrVersion]| > 0 && m[AddrVersion][0] == a.version
    && AddrAddress in m && Utf8.Decode(m[AddrAddress]) == Some(a.address)
    && AddrVideoPort in m && m[AddrVideoPort] == PackU16(a.videoPort)
    && AddrAudioPort in m && m[AddrAudioPort] == PackU16(a.audioPort)
  }

  /** Reads an address block, raising at the first missing, empty, malformed or mis-sized field. */
  function ReadAddress(b: bytes): (r: Result<AddressInfo, Error>)
    ensures r.Success? <==> Decode(b).Some? && AddressReadable(Decode(b).value)
    ensures r.Success? ==> AddressHolds(Decode(b).value, r.value)
    ensures Decode(b).None? ==> r == Failure(MalformedTlv)
    ensures Decode(b).Some? && AddrVersion !in Decode(b).value ==> r == Failure(MissingField(AddrVersion))
  {
    var m :- DecodeBlob(b);
    var version :- FirstByte(m, AddrVersion);
    var raw :- Field(m, AddrAddress);
    var address :- match Utf8.Decode(raw)
      case None => Failure(NotUtf8)
      case Some(s) => Success(s);
    var videoPort :- FieldU16(m, AddrVideoPort);
    var audioPort :- FieldU16(m, AddrAudioPort);
    Success(AddressInfo(version, address, videoPort, audioPort))
  }

  /** The fields of a decoded SRTP block are all there and the suite is not empty. */
  predicate SrtpReadable(m: map<byte, bytes>) {
    SrtpCrypto in m && |m[SrtpCrypto]| > 0 && SrtpMasterKey in m && SrtpMasterSalt in m
  }

  /** Decoded SRTP block `m` carries `p`. */
  predicate SrtpHolds(m: map<byte, bytes>, p: SrtpParams) {
    && SrtpCrypto in m && |m[SrtpCrypto]| > 0 && m[SrtpCrypto][0] == p.suite
    && SrtpMasterKey in m && m[SrtpMasterKey] == p.masterKey
    && SrtpMasterSalt in m && m[SrtpMasterSalt] == p.masterSalt
  }

  /** Reads an SRTP parameter block, raising at the first missing or empty field. */
  function ReadSrtp(b: bytes): (r: Result<SrtpParams, Error>)
    ensures r.Success? <==> Decode(b).Some? && SrtpReadable(Decode(b).value)
    ensures r.Success? ==> SrtpHolds(Decode(b).value, r.value)
    ensures Decode(b).None? ==> r == Failure(MalformedTlv)
  {
    var m :- DecodeBlob(b);
    var suite :- FirstByte(m, SrtpCrypto);
    var key :- Field(m, SrtpMasterKey);
    var salt :- Field(m, SrtpMasterSalt);
    Success(SrtpParams(suite, key, salt))
  }

  /**
   * Reads a setup-endpoints message in the order the camera looks its fields up: session
   * identifier, address block, video SRTP block, audio SRTP block.
   */
  function ParseSetupRequest(value: bytes): (r: Result<SetupRequest, Error>)
    ensures r.Success? <==>
      && Decode(value).Some?
      && SetupSessionId in Decode(value).value
      && SetupAddress in Decode(value).value && ReadAddress(Decode(value).value[SetupAddress]).Success?
      && SetupVideoSrtp in Decode(value).value && ReadSrtp(Decode(value).value[SetupVideoSrtp]).Success?
      && SetupAudioSrtp in Decode(value).value && ReadSrtp(Decode(value).value[SetupAudioSrtp]).Success?
    ensures r.Success? ==>
      && r.value.sessionId == Decode(value).value[SetupSessionId]
      && AddressHolds(Decode(Decode(value).value[SetupAddress]).value, r.value.address)
      && SrtpHolds(Decode(Decode(value).value[SetupVideoSrtp]).value, r.value.video)
      && SrtpHolds(Decode(Decode(value).value[SetupAudioSrtp]).value, r.value.audio)
    ensures Decode(value).Some? && SetupSessionId !in Decode(value).value ==>
      r == Failure(MissingField(SetupSessionId))
  {
    var objs :- DecodeBlob(value);
    var sessionId :- Field(objs, SetupSessionId);
    var addressBlob :- Field(objs, SetupAddress);
    var address :- ReadAddress(addressBlob);
    var videoBlob :- Field(objs, SetupVideoSrtp);
    var video :- ReadSrtp(videoBlob);
    var audioBlob :- Field(objs, SetupAudioSrtp);
    var audio :- ReadSrtp(audioBlob);
    Success(SetupRequest(sessionId, address, video, audio))
  }

  // ---------------------------------------------------------------- round trips

  lemma ReadAddressBlob(a: AddressInfo)
    ensures ReadAddress(AddressBlob(a)) == Success(a)
  {
    var items := [Item(AddrVersion, [a.version]), Item(AddrAddress, Utf8.Encode(a.address)),
                  Item(AddrVideoPort, PackU16(a.videoPort)), Item(AddrAudioPort, PackU16(a.audioPort))];
    DecodeLookup(items, 0);
    DecodeLookup(items, 1);
    DecodeLookup(items, 2);
    DecodeLookup(items, 3);
    Utf8.DecodeEncode(a.address);
  }

  lemma ReadSrtpBlob(p: SrtpParams)
    ensures ReadSrtp(SrtpBlob(p)) == Success(p)
  {
    var items := [Item(SrtpCrypto, [p.suite]), Item(SrtpMasterKey, p.masterKey), Item(SrtpMasterSalt, p.masterSalt)];
    DecodeLookup(items, 0);
    DecodeLookup(items, 1);
    DecodeLookup(items, 2);
  }

  /** Round trip: a request written by a controller is read back field for field. */
  lemma ParseRequestBlob(req: SetupRequest)
    ensures ParseSetupRequest(RequestBlob(req)) == Success(req)
  {
    var items := [Item(SetupSessionId, req.sessionId), Item(SetupAddress, AddressBlob(req.address)),
                  Item(SetupVideoSrtp, SrtpBlob(req.video)), Item(SetupAudioSrtp, SrtpBlob(req.audio))];
    DecodeLookup(items, 0);
    DecodeLookup(items, 1);
    DecodeLookup(items, 2);
    DecodeLookup(items, 3);
    ReadAddressBlob(req.address);
    ReadSrtpBlob(req.video);
    ReadSrtpBlob(req.audio);
  }

  /** The fixed no-SRTP block is the SRTP block of suite NONE with an empty key and salt. */
  lemma NoSrtpBlock()
    ensures NoSrtp == SrtpBlob(SrtpParams(SuiteNone, [], []))
    ensures ReadSrtp(NoSrtp) == Success(SrtpParams(SuiteNone, [], []))
  {
    NoSrtpWritten();
    ReadSrtpBlob(SrtpParams(SuiteNone, [], []));
  }

  lemma NoSrtpWritten()
    ensures SrtpBlob(SrtpParams(SuiteNone, [], [])) == [SrtpCrypto, 1, SuiteNone, SrtpMasterKey, 0, SrtpMasterSalt, 0]
  {
    var c, k, t := Item(SrtpCrypto, [SuiteNone]), Item(SrtpMasterKey, []), Item(SrtpMasterSalt, []);
    assert [c, k, t] == [c, k] + [t];
    assert [c, k] == [c] + [k];
    EncodeAppend([c, k], [t]);
    EncodeAppend([c], [k]);
    EncodeShort(c.tag, c.value);
    EncodeShort(k.tag, k.value);
    EncodeShort(t.tag, t.value);
  }

  // ---------------------------------------------------------------- the negotiation

  /** The synchronization source the camera assigns to both streams. */
  const FixedSsrc: bytes := [0x01]

  /** The SRTP block the camera answers with for one stream. */
  function SrtpAnswer(supportSrtp: bool, offered: SrtpParams): bytes {
    if supportSrtp then SrtpBlob(SrtpParams(SuiteAesCm128HmacSha1_80, offered.masterKey, offered.masterSalt))
    else NoSrtp
  }

  /** The SRTP parameters a controller reads from that answer. */
  function AnsweredSrtp(supportSrtp: bool, offered: SrtpParams): (p: SrtpParams)
    ensures supportSrtp ==>
      p.suite == SuiteAesCm128HmacSha1_80 && p.masterKey == offered.masterKey && p.masterSalt == offered.masterSalt
    ensures !supportSrtp ==> p.suite == SuiteNone && p.masterKey == [] && p.masterSalt == []
  {
    if supportSrtp then SrtpParams(SuiteAesCm128HmacSha1_80, offered.masterKey, offered.masterSalt)
    else SrtpParams(SuiteNone, [], [])
  }

  /** The camera's own address block: its own family and address, the controller's ports. */
  function AnsweredAddress(cam: Camera, req: SetupRequest): AddressInfo {
    AddressInfo(cam.addressVersion, cam.streamAddress, req.address.videoPort, req.address.audioPort)
  }

  /** The response entries, in the order written. */
  function ResponseItems(cam: Camera, req: SetupRequest): seq<Item> {
    [Item(SetupSessionId, req.sessionId),
     Item(SetupStatus, [StatusSuccess]),
     Item(SetupAddress, AddressBlob(AnsweredAddress(cam, req))),
     Item(SetupVideoSrtp, SrtpAnswer(cam.supportSrtp, req.video)),
     Item(SetupAudioSrtp, SrtpAnswer(cam.supportSrtp, req.audio)),
     Item(SetupVideoSsrc, FixedSsrc),
     Item(SetupAudioSsrc, FixedSsrc)]
  }

  /**
   * The session store after a request: its session, with no stream process attached yet,
   * under the controller's identifier (replacing any earlier one), every other session kept.
   */
  function StoreSession(sessions: map<bytes, Session>, req: SetupRequest): (after: map<bytes, Session>)
    ensures after.Keys == sessions.Keys + {req.sessionId}
    ensures var s := after[req.sessionId];
      && s.address == req.address.address
      && s.videoPort == req.address.videoPort && s.audioPort == req.address.audioPort
      && s.videoKey == req.video.masterKey && s.videoSalt == req.video.masterSalt
      && s.audioKey == req.audio.masterKey && s.audioSalt == req.audio.masterSalt
      && s.videoSsrc == FixedSsrc && s.audioSsrc == FixedSsrc
      && s.process.None?
    ensures forall k | k in sessions && k != req.sessionId :: after[k] == sessions[k]
  {
    sessions[req.sessionId := Session(req.address.address, req.address.videoPort, req.video.masterKey,
                                      req.video.masterSalt, FixedSsrc, req.address.audioPort,
                                      req.audio.masterKey, req.audio.masterSalt, FixedSsrc, None)]
  }

  /** The response `set_endpoints` answers a readable request with. */
  function SetEndpointsResponse(cam: Camera, req: SetupRequest): bytes {
    Encode(ResponseItems(cam, req))
  }

  /**
   * `set_endpoints`: read the request, store its session and build the response. Reading
   * raises before anything is stored, so a failure leaves the camera as it was.
   */
  function SetEndpoints(cam: Camera, value: bytes): (r: Result<Negotiated, Error>)
    ensures r.Success? <==> ParseSetupRequest(value).Success?
    ensures r.Failure? ==> r.error == ParseSetupRequest(value).error
    ensures r.Success? ==> r.value.camera == cam.(sessions := StoreSession(cam.sessions, ParseSetupRequest(value).value))
    ensures r.Success? ==> r.value.response == SetEndpointsResponse(cam, ParseSetupRequest(value).value)
  {
    var req :- ParseSetupRequest(value);
    Success(Negotiated(cam.(sessions := StoreSession(cam.sessions, req)), SetEndpointsResponse(cam, req)))
  }

  /**
   * What a controller reads from the response: its own session identifier, success, the
   * camera's address with the controller's ports, for each stream either suite
   * AES_CM_128_HMAC_SHA1_80 with the key and salt it offered or suite NONE with neither,
   * and synchronization source 1 for both streams.
   */
  lemma ResponseRead(cam: Camera, req: SetupRequest)
    ensures Decode(Encode(ResponseItems(cam, req))).Some?
    ensures var m := Decode(Encode(ResponseItems(cam, req))).value;
      && SetupSessionId in m && m[SetupSessionId] == req.sessionId
      && SetupStatus in m && m[SetupStatus] == [StatusSuccess]
      && SetupAddress in m && ReadAddress(m[SetupAddress]) == Success(AnsweredAddress(cam, req))
      && SetupVideoSrtp in m && ReadSrtp(m[SetupVideoSrtp]) == Success(AnsweredSrtp(cam.supportSrtp, req.video))
      && SetupAudioSrtp in m && ReadSrtp(m[SetupAudioSrtp]) == Success(AnsweredSrtp(cam.supportSrtp, req.audio))
      && SetupVideoSsrc in m && m[SetupVideoSsrc] == [0x01]
      && SetupAudioSsrc in m && m[SetupAudioSsrc] == [0x01]
  {
    var items := ResponseItems(cam, req);
    DecodeLookup(items, 0);
    DecodeLookup(items, 1);
    DecodeLookup(items, 2);
    DecodeLookup(items, 3);
    DecodeLookup(items, 4);
    DecodeLookup(items, 5);
    DecodeLookup(items, 6);
    ReadAddressBlob(AnsweredAddress(cam, req));
    NoSrtpBlock();
    ReadSrtpBlob(AnsweredSrtp(cam.supportSrtp, req.video));
    ReadSrtpBlob(AnsweredSrtp(cam.supportSrtp, req.audio));
  }

  /** The response entries come in the order session, status, address, video and audio SRTP, SSRCs. */
  lemma ResponseOrder(cam: Camera, req: SetupRequest)
    ensures DecodeList(SetEndpointsResponse(cam, req)) == Some(ResponseItems(cam, req))
  {
    AdjacentDistinctSeparable(ResponseItems(cam, req));
    DecodeListEncode(ResponseItems(cam, req));
  }
}
