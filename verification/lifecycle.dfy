/**
 * Selected stream configurations as a controller writes them, and what the camera does with
 * them: how each request is read back, how start and stop change the camera, and a whole
 * session's life from endpoint setup to a second, refused, stop.
 */
module Lifecycle {
  import opened Wrappers
  import opened Bytes
  import opened Tlv
  import opened Protocol
  import opened Sessions
  import opened Endpoints
  import opened Streaming
  import Capabilities

  // ---------------------------------------------------------------- messages as written

  /** The session block: the session identifier and the request kind. */
  function SessionControl(sid: bytes, kind: byte): bytes {
    Encode([Item(SessionIdentifier, sid), Item(SessionRequestKind, [kind])])
  }

  /** The attributes sub-block: two-byte width and height, one-byte frame rate. */
  function AttributesBlob(a: Attributes): bytes {
    Encode([Item(AttrImageWidth, PackU16(a.width)), Item(AttrImageHeight, PackU16(a.height)),
            Item(AttrFrameRate, [a.frameRate])])
  }

  /** The RTP parameters sub-block, holding only the maximum bit rate. */
  function RateBlob(rate: uint16): bytes {
    Encode([Item(RtpMaxBitRate, PackU16(rate))])
  }

  /** A video block with attributes and a maximum bit rate, and nothing else. */
  function VideoBlock(a: Attributes, rate: uint16): bytes {
    Encode([Item(VideoAttributes, AttributesBlob(a)), Item(VideoRtpParam, RateBlob(rate))])
  }

  /** A request to stop the stream of session `sid`. */
  function StopMessage(sid: bytes): bytes {
    Encode([Item(SelectionSession, SessionControl(sid, StopKind))])
  }

  /** A request of kind `kind` carrying a video block, without an audio block. */
  function StartMessage(sid: bytes, kind: byte, a: Attributes, rate: uint16): bytes {
    Encode([Item(SelectionSession, SessionControl(sid, kind)), Item(SelectionVideo, VideoBlock(a, rate))])
  }

  // ---------------------------------------------------------------- reading them back

  lemma SessionControlRead(objs: map<byte, bytes>, sid: bytes, kind: byte)
    requires SelectionSession in objs && objs[SelectionSession] == SessionControl(sid, kind)
    ensures SelectedSession(objs) == Success(sid)
    ensures RequestKind(objs) == Success(kind)
  {
    DecodePair(SessionIdentifier, sid, SessionRequestKind, [kind]);
  }

  lemma AttributesLength(a: Attributes)
    ensures |AttributesBlob(a)| == 11
  {
    var items := [Item(AttrImageWidth, PackU16(a.width)), Item(AttrImageHeight, PackU16(a.height)),
                  Item(AttrFrameRate, [a.frameRate])];
    assert items == [items[0]] + [items[1]] + [items[2]];
    EncodeAppend([items[0]] + [items[1]], [items[2]]);
    EncodeAppend([items[0]], [items[1]]);
    EncodeShort(items[0].tag, items[0].value);
    EncodeShort(items[1].tag, items[1].value);
    EncodeShort(items[2].tag, items[2].value);
  }

  /** A written attributes sub-block is read back as exactly those attributes. */
  lemma AttributesBlockRead(video: map<byte, bytes>, a: Attributes)
    requires VideoAttributes in video && video[VideoAttributes] == AttributesBlob(a)
    ensures ReadAttributes(video) == Success(Some(a))
  {
    AttributesLength(a);
    var items := [Item(AttrImageWidth, PackU16(a.width)), Item(AttrImageHeight, PackU16(a.height)),
                  Item(AttrFrameRate, [a.frameRate])];
    DecodeLookup(items, 0);
    DecodeLookup(items, 1);
    DecodeLookup(items, 2);
  }

  /** A written RTP parameters sub-block is read back as exactly that bit rate. */
  lemma RateRead(video: map<byte, bytes>, rate: uint16)
    requires VideoRtpParam in video && video[VideoRtpParam] == RateBlob(rate)
    ensures ReadMaxBitRate(video) == Success(Some(rate))
  {
    DecodeSingle(RtpMaxBitRate, PackU16(rate));
    EncodeShort(RtpMaxBitRate, PackU16(rate));
  }

  /** A written video block is read back as exactly its attributes and bit rate. */
  lemma VideoBlockRead(objs: map<byte, bytes>, a: Attributes, rate: uint16)
    requires SelectionVideo in objs && objs[SelectionVideo] == VideoBlock(a, rate)
    ensures ReadVideo(objs) == Success(VideoRequest(Some(a), Some(rate)))
  {
    var video := DecodePairFields(VideoAttributes, AttributesBlob(a), VideoRtpParam, RateBlob(rate));
    VideoBlockNonEmpty(a, rate);
    assert VideoCodecParam !in video;
    AttributesBlockRead(video, a);
    RateRead(video, rate);
  }

  lemma VideoBlockNonEmpty(a: Attributes, rate: uint16)
    ensures |VideoBlock(a, rate)| > 0
  {
    var first, second := Item(VideoAttributes, AttributesBlob(a)), Item(VideoRtpParam, RateBlob(rate));
    assert [first, second] == [first] + [second];
    EncodeAppend([first], [second]);
    AttributesLength(a);
    EncodeShort(first.tag, first.value);
  }

  /** A stop message names its session and asks for a stop. */
  lemma StopMessageRead(sid: bytes)
    ensures Decode(StopMessage(sid)).Some?
    ensures var objs := Decode(StopMessage(sid)).value;
      && SelectionSession in objs
      && SelectedSession(objs) == Success(sid)
      && RequestKind(objs) == Success(StopKind)
  {
    DecodeSingle(SelectionSession, SessionControl(sid, StopKind));
    SessionControlRead(Decode(StopMessage(sid)).value, sid, StopKind);
  }

  /** A start message names its session and kind, and carries exactly its attributes and bit rate. */
  lemma StartMessageRead(sid: bytes, kind: byte, a: Attributes, rate: uint16) returns (objs: map<byte, bytes>)
    ensures Decode(StartMessage(sid, kind, a, rate)) == Some(objs)
    ensures SelectionSession in objs
    ensures RequestKind(objs) == Success(kind)
    ensures ReadStart(objs) == Success(StartRequest(sid, VideoRequest(Some(a), Some(rate))))
  {
    objs := StartMessageBlocks(sid, kind, a, rate);
    StartObjectsRead(objs, sid, kind, a, rate);
  }

  /** The blocks a start message decodes to: session and video, and no audio. */
  lemma StartMessageBlocks(sid: bytes, kind: byte, a: Attributes, rate: uint16) returns (objs: map<byte, bytes>)
    ensures Decode(StartMessage(sid, kind, a, rate)) == Some(objs)
    ensures SelectionSession in objs && objs[SelectionSession] == SessionControl(sid, kind)
    ensures SelectionVideo in objs && objs[SelectionVideo] == VideoBlock(a, rate)
    ensures SelectionAudio !in objs
  {
    objs := DecodePairFields(SelectionSession, SessionControl(sid, kind), SelectionVideo, VideoBlock(a, rate));
  }

  lemma StartObjectsRead(objs: map<byte, bytes>, sid: bytes, kind: byte, a: Attributes, rate: uint16)
    requires SelectionSession in objs && objs[SelectionSession] == SessionControl(sid, kind)
    requires SelectionVideo in objs && objs[SelectionVideo] == VideoBlock(a, rate)
    requires SelectionAudio !in objs
    ensures RequestKind(objs) == Success(kind)
    ensures ReadStart(objs) == Success(StartRequest(sid, VideoRequest(Some(a), Some(rate))))
  {
    SessionControlRead(objs, sid, kind);
    VideoBlockRead(objs, a, rate);
    assert CheckAudio(objs) == Success(());
  }

  // ---------------------------------------------------------------- dispatching them

  /** Stopping a known session removes it, kills its process if it has one, and keeps the status. */
  lemma DispatchStop(cam: Camera, sid: bytes, pid: nat)
    requires sid in cam.sessions
    ensures var h := SetSelectedStreamConfiguration(cam, StopMessage(sid), pid);
      && h.disposition == Applied
      && h.camera.sessions == cam.sessions - {sid}
      && h.camera.streamingStatus == cam.streamingStatus
      && h.effect == (if cam.sessions[sid].process.Some? then Killed(cam.sessions[sid].process.value) else NoEffect)
  {
    StopMessageRead(sid);
    var h := SetSelectedStreamConfiguration(cam, StopMessage(sid), pid);
    assert h.camera.sessions.Keys == (cam.sessions - {sid}).Keys;
  }

  /** Stopping a session the camera does not hold raises; only the selection is recorded. */
  lemma DispatchStopUnknown(cam: Camera, sid: bytes, pid: nat)
    requires sid !in cam.sessions
    ensures var h := SetSelectedStreamConfiguration(cam, StopMessage(sid), pid);
      && h.disposition == Raised(UnknownSession)
      && h.camera == cam.(selectedConfig := Some(StopMessage(sid)))
  {
    StopMessageRead(sid);
  }

  /**
   * Starting (kind 1) or reconfiguring (kind 4) a known session attaches the new process to
   * it, marks the camera as streaming and starts a command for the session's address and
   * port with the effective settings.
   */
  lemma DispatchStart(cam: Camera, sid: bytes, kind: byte, a: Attributes, rate: uint16, pid: nat)
    requires sid in cam.sessions && (kind == StartKind || kind == ReconfigureKind)
    ensures var h := SetSelectedStreamConfiguration(cam, StartMessage(sid, kind, a, rate), pid);
      && h.disposition == Applied
      && h.camera.sessions.Keys == cam.sessions.Keys
      && h.camera.sessions[sid].process == Some(Process(pid))
      && h.camera.streamingStatus == StreamingActive
      && h.effect == Spawned(CommandFor(cam.sessions[sid], Effective(a, rate)), Process(pid))
  {
    var value := StartMessage(sid, kind, a, rate);
    var objs := StartMessageRead(sid, kind, a, rate);
    var selected := cam.(selectedConfig := Some(value));
    var req := StartRequest(sid, VideoRequest(Some(a), Some(rate)));
    StartApplied(selected, objs, req, pid);
  }

  /** Starting a readable request for a known session, with the settle step spelled out. */
  lemma StartApplied(cam: Camera, objs: map<byte, bytes>, req: StartRequest, pid: nat)
    requires ReadStart(objs) == Success(req)
    requires req.sessionId in cam.sessions && req.video.attributes.Some? && req.video.maxBitRate.Some?
    ensures var h := Settle(cam, StartStream(cam, objs, pid));
      && h.disposition == Applied
      && h.camera.sessions.Keys == cam.sessions.Keys
      && h.camera.sessions[req.sessionId].process == Some(Process(pid))
      && h.camera.streamingStatus == StreamingActive
      && h.effect == Spawned(CommandFor(cam.sessions[req.sessionId],
                                        Effective(req.video.attributes.value, req.video.maxBitRate.value)),
                             Process(pid))
  {
  }

  /** A request of any other kind is ignored; only the selection is recorded. */
  lemma DispatchUnknownKind(cam: Camera, sid: bytes, kind: byte, a: Attributes, rate: uint16, pid: nat)
    requires kind != StartKind && kind != ReconfigureKind && kind != StopKind
    ensures var h := SetSelectedStreamConfiguration(cam, StartMessage(sid, kind, a, rate), pid);
      && h.disposition == UnknownRequest(kind)
      && h.camera == cam.(selectedConfig := Some(StartMessage(sid, kind, a, rate)))
      && h.effect == NoEffect
  {
    var _ := StartMessageRead(sid, kind, a, rate);
  }

  /**
   * Setting up endpoints on a fresh camera leaves exactly the controller's session, idle,
   * with the address, port, key and salt the stream will be started with.
   */
  lemma SetupOnFreshCamera(supportSrtp: bool, address: string, version: byte, req: SetupRequest)
    returns (cam: Camera)
    ensures SetEndpoints(Initial(supportSrtp, address, version), RequestBlob(req)).Success?
    ensures SetEndpoints(Initial(supportSrtp, address, version), RequestBlob(req)).value.camera == cam
    ensures cam.sessions.Keys == {req.sessionId}
    ensures var s := cam.sessions[req.sessionId];
      && s.address == req.address.address && s.videoPort == req.address.videoPort
      && s.videoKey == req.video.masterKey && s.videoSalt == req.video.masterSalt
      && s.process.None?
  {
    ParseRequestBlob(req);
    cam := StoreFirst(Initial(supportSrtp, address, version), RequestBlob(req), req);
  }

  lemma StoreFirst(cam0: Camera, value: bytes, req: SetupRequest) returns (cam: Camera)
    requires cam0.sessions == map[] && ParseSetupRequest(value) == Success(req)
    ensures SetEndpoints(cam0, value).Success? && SetEndpoints(cam0, value).value.camera == cam
    ensures cam.sessions.Keys == {req.sessionId}
    ensures var s := cam.sessions[req.sessionId];
      && s.address == req.address.address && s.videoPort == req.address.videoPort
      && s.videoKey == req.video.masterKey && s.videoSalt == req.video.masterSalt
      && s.process.None?
  {
    cam := cam0.(sessions := StoreSession(cam0.sessions, req));
  }

  /**
   * A session's whole life once it is set up and idle as the only session: a stream is
   * started for it and stopped again (killing the process it started), after which no session
   * is left, the status still reads streaming, and a second stop is refused.
   */
  lemma SessionLifecycle(cam: Camera, sid: bytes, a: Attributes, rate: uint16, pid: nat, pid2: nat)
    returns (started: Handled, stopped: Handled)
    requires cam.sessions.Keys == {sid} && cam.sessions[sid].process.None?
    ensures started == SetSelectedStreamConfiguration(cam, StartMessage(sid, StartKind, a, rate), pid)
    ensures started.disposition == Applied
    ensures started.effect == Spawned(CommandFor(cam.sessions[sid], Effective(a, rate)), Process(pid))
    ensures stopped == SetSelectedStreamConfiguration(started.camera, StopMessage(sid), pid2)
    ensures stopped.disposition == Applied && stopped.effect == Killed(Process(pid))
    ensures stopped.camera.sessions == map[]
    ensures stopped.camera.streamingStatus == StreamingActive
    ensures SetSelectedStreamConfiguration(stopped.camera, StopMessage(sid), pid2).disposition == Raised(UnknownSession)
  {
    DispatchStart(cam, sid, StartKind, a, rate, pid);
    started := SetSelectedStreamConfiguration(cam, StartMessage(sid, StartKind, a, rate), pid);
    DispatchStop(started.camera, sid, pid2);
    stopped := SetSelectedStreamConfiguration(started.camera, StopMessage(sid), pid2);
    assert stopped.camera.sessions.Keys == {};
    DispatchStopUnknown(stopped.camera, sid, pid2);
  }

  /**
   * A session's whole life on a new camera: the controller's setup request is stored, a start
   * for its session spawns a command aimed at the address, video port and SRTP key and salt the
   * controller sent, with the effective settings, and a stop kills that very process.
   */
  lemma SetupStartStop(supportSrtp: bool, address: string, version: byte, req: SetupRequest,
                       a: Attributes, rate: uint16, pid: nat, pid2: nat)
    returns (cam: Camera, started: Handled, stopped: Handled)
    ensures SetEndpoints(Initial(supportSrtp, address, version), RequestBlob(req)).Success?
    ensures SetEndpoints(Initial(supportSrtp, address, version), RequestBlob(req)).value.camera == cam
    ensures started == SetSelectedStreamConfiguration(cam, StartMessage(req.sessionId, StartKind, a, rate), pid)
    ensures started.disposition == Applied && started.effect.Spawned? && started.effect.process == Process(pid)
    ensures var c := started.effect.command;
      && c.address == req.address.address && c.videoPort == req.address.videoPort
      && c.srtpParams == req.video.masterKey + req.video.masterSalt
      && c.settings == Effective(a, rate)
    ensures stopped == SetSelectedStreamConfiguration(started.camera, StopMessage(req.sessionId), pid2)
    ensures stopped.disposition == Applied && stopped.effect == Killed(Process(pid))
    ensures stopped.camera.sessions == map[]
  {
    cam := SetupOnFreshCamera(supportSrtp, address, version, req);
    started, stopped := SessionLifecycle(cam, req.sessionId, a, rate, pid, pid2);
  }

  // ---------------------------------------------------------------- advertised attributes, read back

  /**
   * The attributes entry of an advertised resolution is not what a selected configuration
   * may carry: its two-byte frame rate is refused by the one-byte read.
   */
  lemma AdvertisedFrameRateUnreadable(r: Capabilities.Resolution)
    requires Capabilities.Packable(r)
    ensures ReadAttributes(map[VideoAttributes := Encode(Capabilities.AttributeItems(r))])
      == Failure(WrongWidth(AttrFrameRate))
  {
    var items := Capabilities.AttributeItems(r);
    Capabilities.AttributeBlobLength(r);
    DecodeLookup(items, 0);
    DecodeLookup(items, 1);
    DecodeLookup(items, 2);
  }

  /** With a one-byte frame rate, an advertised resolution reads back as exactly itself. */
  lemma IntendedAttributesReadBack(r: Capabilities.Resolution)
    requires Capabilities.IntendedPackable(r)
    ensures ReadAttributes(map[VideoAttributes := Encode(Capabilities.IntendedAttributeItems(r))])
      == Success(Some(Attributes(r.width as uint16, r.height as uint16, r.frameRate as byte)))
  {
    var a := Attributes(r.width as uint16, r.height as uint16, r.frameRate as byte);
    assert Capabilities.IntendedAttributeItems(r) == [Item(AttrImageWidth, PackU16(a.width)),
      Item(AttrImageHeight, PackU16(a.height)), Item(AttrFrameRate, [a.frameRate])];
    AttributesBlockRead(map[VideoAttributes := AttributesBlob(a)], a);
  }
}
