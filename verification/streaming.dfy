/**
 * Stream selection (`set_selected_stream_configuration`): the controller writes a selected
 * stream configuration whose session block names a session and a request kind; the camera
 * starts a stream for that session (kinds 1 and 4), stops it (kind 0) or ignores the
 * request. Starting reads the video parameters, applies defaults and the frame-rate cap,
 * attaches a new process handle to the session and marks the camera as streaming.
 */
module Streaming {
  import opened Wrappers
  import opened Bytes
  import opened Tlv
  import opened Protocol
  import opened Sessions

  // ---------------------------------------------------------------- field lookups

  /** Looks up every tag of `tags` in order, raising at the first one `m` lacks. */
  function Require(m: map<byte, bytes>, tags: seq<byte>): (r: Result<(), Error>)
    ensures r.Success? <==> forall i | 0 <= i < |tags| :: tags[i] in m
    ensures r.Failure? ==> exists i | 0 <= i < |tags| ::
      && tags[i] !in m && r.error == MissingField(tags[i])
      && forall j | 0 <= j < i :: tags[j] in m
    decreases |tags|
  {
    if tags == [] then Success(())
    else if tags[0] !in m then Failure(MissingField(tags[0]))
    else
      var r := Require(m, tags[1..]);
      assert forall i | 1 <= i < |tags| :: tags[i] == tags[1..][i - 1];
      if r.Failure? then
        var i :| 0 <= i < |tags| - 1 && tags[1..][i] !in m && r.error == MissingField(tags[1..][i])
          && forall j | 0 <= j < i :: tags[1..][j] in m;
        assert tags[i + 1] !in m && forall j | 0 <= j < i + 1 :: tags[j] in m;
        r
      else r
  }

  /** The decoded session block of a selected configuration. */
  function SessionBlock(objs: map<byte, bytes>): (r: Result<map<byte, bytes>, Error>)
    ensures r.Success? <==> SelectionSession in objs && Decode(objs[SelectionSession]).Some?
    ensures r.Success? ==> r.value == Decode(objs[SelectionSession]).value
  {
    var block :- Field(objs, SelectionSession);
    DecodeBlob(block)
  }

  /** The identifier of the session a selected configuration is about. */
  function SelectedSession(objs: map<byte, bytes>): (r: Result<bytes, Error>)
    ensures r.Success? <==> SessionBlock(objs).Success? && SessionIdentifier in SessionBlock(objs).value
    ensures r.Success? ==> r.value == SessionBlock(objs).value[SessionIdentifier]
  {
    var session :- SessionBlock(objs);
    Field(session, SessionIdentifier)
  }

  /** The request kind of a selected configuration: the first byte of its kind field. */
  function RequestKind(objs: map<byte, bytes>): (r: Result<byte, Error>)
    ensures r.Success? <==> SessionBlock(objs).Success? && Present(SessionBlock(objs).value, SessionRequestKind)
    ensures r.Success? ==> r.value == SessionBlock(objs).value[SessionRequestKind][0]
  {
    var session :- SessionBlock(objs);
    FirstByte(session, SessionRequestKind)
  }

  // ---------------------------------------------------------------- reading the video block

  /** Width, height and frame rate as a selected video configuration sends them. */
  datatype Attributes = Attributes(width: uint16, height: uint16, frameRate: byte)

  /** What the video block binds: its attributes and its maximum bit rate, each only when sent. */
  datatype VideoRequest = VideoRequest(attributes: Option<Attributes>, maxBitRate: Option<uint16>)

  /** When codec parameters are sent, they must name a profile and a level. */
  function CheckCodecParams(video: map<byte, bytes>): (r: Result<(), Error>)
    ensures r.Success? <==>
      !Present(video, VideoCodecParam) ||
      (Decode(video[VideoCodecParam]).Some?
        && ParamProfileId in Decode(video[VideoCodecParam]).value
        && ParamLevel in Decode(video[VideoCodecParam]).value)
  {
    if !Present(video, VideoCodecParam) then Success(())
    else
      var params :- DecodeBlob(video[VideoCodecParam]);
      var _ :- Field(params, ParamProfileId);
      var _ :- Field(params, ParamLevel);
      Success(())
  }

  /** The attributes, when sent: two-byte width and height, one-byte frame rate. */
  function ReadAttributes(video: map<byte, bytes>): (r: Result<Option<Attributes>, Error>)
    ensures !Present(video, VideoAttributes) ==> r == Success(None)
    ensures Present(video, VideoAttributes) ==>
      (r.Success? <==>
        && Decode(video[VideoAttributes]).Some?
        && var m := Decode(video[VideoAttributes]).value;
        && AttrImageWidth in m && |m[AttrImageWidth]| == 2
        && AttrImageHeight in m && |m[AttrImageHeight]| == 2
        && AttrFrameRate in m && |m[AttrFrameRate]| == 1)
    ensures r.Success? && r.value.Some? ==>
      && Present(video, VideoAttributes)
      && var m := Decode(video[VideoAttributes]).value;
      && m[AttrImageWidth] == PackU16(r.value.value.width)
      && m[AttrImageHeight] == PackU16(r.value.value.height)
      && m[AttrFrameRate] == [r.value.value.frameRate]
  {
    if !Present(video, VideoAttributes) then Success(None)
    else
      var attrs :- DecodeBlob(video[VideoAttributes]);
      var width :- FieldU16(attrs, AttrImageWidth);
      var height :- FieldU16(attrs, AttrImageHeight);
      var frameRate :- FieldU8(attrs, AttrFrameRate);
      Success(Some(Attributes(width, height, frameRate)))
  }

  /** The maximum bit rate, when RTP parameters are sent: two bytes, and it must be there. */
  function ReadMaxBitRate(video: map<byte, bytes>): (r: Result<Option<uint16>, Error>)
    ensures !Present(video, VideoRtpParam) ==> r == Success(None)
    ensures Present(video, VideoRtpParam) ==>
      (r.Success? <==>
        && Decode(video[VideoRtpParam]).Some?
        && RtpMaxBitRate in Decode(video[VideoRtpParam]).value
        && |Decode(video[VideoRtpParam]).value[RtpMaxBitRate]| == 2)
    ensures r.Success? && r.value.Some? ==>
      && Present(video, VideoRtpParam)
      && Decode(video[VideoRtpParam]).value[RtpMaxBitRate] == PackU16(r.value.value)
  {
    if !Present(video, VideoRtpParam) then Success(None)
    else
      var rtp :- DecodeBlob(video[VideoRtpParam]);
      var rate :- FieldU16(rtp, RtpMaxBitRate);
      Success(Some(rate))
  }

  /** The video block, when sent: codec parameters checked, then attributes, then RTP parameters. */
  function ReadVideo(objs: map<byte, bytes>): (r: Result<VideoRequest, Error>)
    ensures !Present(objs, SelectionVideo) ==> r == Success(VideoRequest(None, None))
    ensures Present(objs, SelectionVideo) ==>
      (r.Success? <==>
        && Decode(objs[SelectionVideo]).Some?
        && CheckCodecParams(Decode(objs[SelectionVideo]).value).Success?
        && ReadAttributes(Decode(objs[SelectionVideo]).value).Success?
        && ReadMaxBitRate(Decode(objs[SelectionVideo]).value).Success?)
    ensures Present(objs, SelectionVideo) && r.Success? ==>
      && Success(r.value.attributes) == ReadAttributes(Decode(objs[SelectionVideo]).value)
      && Success(r.value.maxBitRate) == ReadMaxBitRate(Decode(objs[SelectionVideo]).value)
  {
    if !Present(objs, SelectionVideo) then Success(VideoRequest(None, None))
    else
      var video :- DecodeBlob(objs[SelectionVideo]);
      var _ :- CheckCodecParams(video);
      var attributes :- ReadAttributes(video);
      var maxBitRate :- ReadMaxBitRate(video);
      Success(VideoRequest(attributes, maxBitRate))
  }

  // ---------------------------------------------------------------- checking the audio block

  /** The audio codec parameters that are looked up, in order. */
  const AudioParamTags: seq<byte> :=
    [AudioParamChannel, AudioParamBitRate, AudioParamSampleRate, AudioParamPacketTime]

  /** The audio RTP parameters that are looked up, in order. */
  const AudioRtpTags: seq<byte> :=
    [RtpSynchronizationSource, RtpPayloadType, RtpMaxBitRate, RtpRtcpSendInterval, RtpComfortNoisePayloadType]

  /**
   * The audio block, when sent, must hold codec, codec parameters, RTP parameters and comfort
   * noise, and its two nested blocks every parameter looked up; the values are not used.
   */
  function CheckAudio(objs: map<byte, bytes>): (r: Result<(), Error>)
    ensures !Present(objs, SelectionAudio) ==> r.Success?
    ensures Present(objs, SelectionAudio) ==>
      (r.Success? <==>
        && Decode(objs[SelectionAudio]).Some?
        && CheckAudioBlock(Decode(objs[SelectionAudio]).value).Success?)
  {
    if !Present(objs, SelectionAudio) then Success(())
    else
      var audio :- DecodeBlob(objs[SelectionAudio]);
      CheckAudioBlock(audio)
  }

  /** The lookups in a decoded audio block, in the order they are made. */
  function CheckAudioBlock(audio: map<byte, bytes>): (r: Result<(), Error>)
    ensures r.Success? <==>
      && AudioCodec in audio && AudioCodecParam in audio && AudioRtpParam in audio && AudioComfortNoise in audio
      && Decode(audio[AudioCodecParam]).Some? && Decode(audio[AudioRtpParam]).Some?
      && Require(Decode(audio[AudioCodecParam]).value, AudioParamTags).Success?
      && Require(Decode(audio[AudioRtpParam]).value, AudioRtpTags).Success?
  {
    var _ :- Field(audio, AudioCodec);
    var paramBlob :- Field(audio, AudioCodecParam);
    var params :- DecodeBlob(paramBlob);
    var rtpBlob :- Field(audio, AudioRtpParam);
    var rtp :- DecodeBlob(rtpBlob);
    var _ :- Field(audio, AudioComfortNoise);
    var _ :- Require(params, AudioParamTags);
    Require(rtp, AudioRtpTags)
  }

  // ---------------------------------------------------------------- defaults and cap

  const DefaultWidth: int := 1280
  const DefaultHeight: int := 720
  const DefaultBitRate: int := 300
  const MaxFrameRate: int := 30

  /** The parameters a stream is started with. */
  datatype StreamSettings = StreamSettings(width: int, height: int, frameRate: int, bitRate: int)

  /** A zero width, height or bit rate takes its default; the frame rate is capped at 30. */
  function Effective(a: Attributes, bitRate: uint16): (s: StreamSettings)
    ensures s.width > 0 && s.height > 0 && s.bitRate > 0
    ensures a.width != 0 ==> s.width == a.width
    ensures a.width == 0 ==> s.width == DefaultWidth
    ensures a.height != 0 ==> s.height == a.height
    ensures a.height == 0 ==> s.height == DefaultHeight
    ensures bitRate != 0 ==> s.bitRate == bitRate
    ensures bitRate == 0 ==> s.bitRate == DefaultBitRate
    ensures s.frameRate <= MaxFrameRate && s.frameRate <= a.frameRate
    ensures s.frameRate == a.frameRate || s.frameRate == MaxFrameRate
  {
    StreamSettings(
      if a.width == 0 then DefaultWidth else a.width,
      if a.height == 0 then DefaultHeight else a.height,
      if a.frameRate < MaxFrameRate then a.frameRate else MaxFrameRate,
      if bitRate == 0 then DefaultBitRate else bitRate)
  }

  // ---------------------------------------------------------------- start and stop

  /** The values the stream command is formatted from; the SRTP parameters are key then salt. */
  datatype StreamCommand = StreamCommand(settings: StreamSettings, address: string, videoPort: uint16, srtpParams: bytes)

  /** What a transition does outside the camera: nothing, start a process, or kill one. */
  datatype Effect = NoEffect | Spawned(command: StreamCommand, process: Process) | Killed(process: Process)

  /** A camera state change together with its outside effect. */
  datatype Transition = Transition(camera: Camera, effect: Effect)

  /** The command for a session's stream. */
  function CommandFor(s: Session, settings: StreamSettings): (c: StreamCommand)
    ensures c.settings == settings
    ensures c.address == s.address && c.videoPort == s.videoPort
    ensures |c.srtpParams| == |s.videoKey| + |s.videoSalt|
    ensures c.srtpParams[..|s.videoKey|] == s.videoKey && c.srtpParams[|s.videoKey|..] == s.videoSalt
  {
    StreamCommand(settings, s.address, s.videoPort, s.videoKey + s.videoSalt)
  }

  /** What a start request names: the session and the video parameters it sent. */
  datatype StartRequest = StartRequest(sessionId: bytes, video: VideoRequest)

  /** The reading half of `_start_stream`: video block, audio block, then the session identifier. */
  function ReadStart(objs: map<byte, bytes>): (r: Result<StartRequest, Error>)
    ensures r.Success? <==> ReadVideo(objs).Success? && CheckAudio(objs).Success? && SelectedSession(objs).Success?
    ensures r.Success? ==> r.value.sessionId == SelectedSession(objs).value && r.value.video == ReadVideo(objs).value
    ensures ReadVideo(objs).Failure? ==> r == Failure(ReadVideo(objs).error)
  {
    var video :- ReadVideo(objs);
    var _ :- CheckAudio(objs);
    var sessionId :- SelectedSession(objs);
    Success(StartRequest(sessionId, video))
  }

  /**
   * The state half of `_start_stream`: the session must exist, then the attributes and the
   * bit rate must have been sent. On success exactly the session's process is set, to the new
   * handle `pid`, and the camera is streaming; a process already attached is dropped, not killed.
   */
  function StartSession(cam: Camera, req: StartRequest, pid: nat): (r: Result<Transition, Error>)
    ensures r.Success? <==>
      req.sessionId in cam.sessions && req.video.attributes.Some? && req.video.maxBitRate.Some?
    ensures req.sessionId !in cam.sessions ==> r == Failure(UnknownSession)
    ensures req.sessionId in cam.sessions && (req.video.attributes.None? || req.video.maxBitRate.None?) ==>
      r == Failure(UnboundParameter)
    ensures r.Success? ==>
      var after := r.value.camera;
      && after.sessions.Keys == cam.sessions.Keys
      && after.sessions[req.sessionId] == cam.sessions[req.sessionId].(process := Some(Process(pid)))
      && (forall k | k in cam.sessions && k != req.sessionId :: after.sessions[k] == cam.sessions[k])
      && after.streamingStatus == StreamingActive
      && after.(sessions := cam.sessions, streamingStatus := cam.streamingStatus) == cam
      && r.value.effect == Spawned(
           CommandFor(cam.sessions[req.sessionId], Effective(req.video.attributes.value, req.video.maxBitRate.value)),
           Process(pid))
  {
    if req.sessionId !in cam.sessions then Failure(UnknownSession)
    else if req.video.attributes.None? || req.video.maxBitRate.None? then Failure(UnboundParameter)
    else
      var session := cam.sessions[req.sessionId];
      var command := CommandFor(session, Effective(req.video.attributes.value, req.video.maxBitRate.value));
      var process := Process(pid);
      Success(Transition(
        cam.(sessions := cam.sessions[req.sessionId := session.(process := Some(process))],
             streamingStatus := StreamingActive),
        Spawned(command, process)))
  }

  /** `_start_stream`: read the request, then start the session's stream. */
  function StartStream(cam: Camera, objs: map<byte, bytes>, pid: nat): (r: Result<Transition, Error>)
    ensures ReadStart(objs).Failure? ==> r == Failure(ReadStart(objs).error)
    ensures ReadStart(objs).Success? ==> r == StartSession(cam, ReadStart(objs).value, pid)
  {
    var req :- ReadStart(objs);
    StartSession(cam, req, pid)
  }

  /**
   * `_stop_stream`: removes exactly the named session, which must exist, and kills its
   * process when it has one. The streaming status is left as it was.
   */
  function StopStream(cam: Camera, objs: map<byte, bytes>): (r: Result<Transition, Error>)
    ensures r.Success? <==> SelectedSession(objs).Success? && SelectedSession(objs).value in cam.sessions
    ensures SelectedSession(objs).Success? && SelectedSession(objs).value !in cam.sessions ==>
      r == Failure(UnknownSession)
    ensures r.Success? ==>
      var sid := SelectedSession(objs).value;
      var after := r.value.camera;
      && after.sessions.Keys == cam.sessions.Keys - {sid}
      && (forall k | k in after.sessions :: after.sessions[k] == cam.sessions[k])
      && after.(sessions := cam.sessions) == cam
      && (r.value.effect.Killed? <==> cam.sessions[sid].process.Some?)
      && (r.value.effect.Killed? ==> r.value.effect.process == cam.sessions[sid].process.value)
      && (!r.value.effect.Killed? ==> r.value.effect == NoEffect)
  {
    var sid :- SelectedSession(objs);
    if sid !in cam.sessions then Failure(UnknownSession)
    else
      var process := cam.sessions[sid].process;
      Success(Transition(
        cam.(sessions := cam.sessions - {sid}),
        if process.Some? then Killed(process.value) else NoEffect))
  }

  // ---------------------------------------------------------------- dispatch

  const StopKind: byte := 0
  const StartKind: byte := 1
  const ReconfigureKind: byte := 4

  /** How a selected configuration was handled. */
  datatype Disposition = Applied | NoSessionBlock | UnknownRequest(kind: byte) | Raised(error: Error)

  /** The camera after a selected configuration, what it did outside, and how it was handled. */
  datatype Handled = Handled(camera: Camera, effect: Effect, disposition: Disposition)

  /** A start or stop that raised leaves the camera as it was handed over. */
  function Settle(cam: Camera, r: Result<Transition, Error>): (h: Handled)
    ensures r.Success? ==> h == Handled(r.value.camera, r.value.effect, Applied)
    ensures r.Failure? ==> h == Handled(cam, NoEffect, Raised(r.error))
  {
    match r
    case Success(t) => Handled(t.camera, t.effect, Applied)
    case Failure(e) => Handled(cam, NoEffect, Raised(e))
  }

  /**
   * `set_selected_stream_configuration`: records the configuration, then starts (kinds 1
   * and 4), stops (kind 0) or ignores it. The configuration is recorded first, so it stays
   * recorded whatever happens next.
   */
  function SetSelectedStreamConfiguration(cam: Camera, value: bytes, pid: nat): (h: Handled)
    ensures h.camera.selectedConfig == Some(value)
    ensures !h.disposition.Applied? ==> h.camera == cam.(selectedConfig := Some(value)) && h.effect == NoEffect
    ensures Decode(value).None? ==> h.disposition == Raised(MalformedTlv)
    ensures Decode(value).Some? && SelectionSession !in Decode(value).value ==> h.disposition == NoSessionBlock
    ensures Decode(value).Some? && SelectionSession in Decode(value).value ==>
      var objs := Decode(value).value;
      var selected := cam.(selectedConfig := Some(value));
      match RequestKind(objs)
      case Failure(e) => h.disposition == Raised(e)
      case Success(kind) =>
        if kind == StartKind || kind == ReconfigureKind then h == Settle(selected, StartStream(selected, objs, pid))
        else if kind == StopKind then h == Settle(selected, StopStream(selected, objs))
        else h.disposition == UnknownRequest(kind)
  {
    var selected := cam.(selectedConfig := Some(value));
    match DecodeBlob(value)
    case Failure(e) => Handled(selected, NoEffect, Raised(e))
    case Success(objs) =>
      if SelectionSession !in objs then Handled(selected, NoEffect, NoSessionBlock)
      else
        match RequestKind(objs)
        case Failure(e) => Handled(selected, NoEffect, Raised(e))
        case Success(kind) =>
          if kind == StartKind || kind == ReconfigureKind then Settle(selected, StartStream(selected, objs, pid))
          else if kind == StopKind then Settle(selected, StopStream(selected, objs))
          else Handled(selected, NoEffect, UnknownRequest(kind))
  }

  /** `_get_streaimg_status`: the blob of the camera's current streaming status. */
  function StreamingStatus(cam: Camera): (b: bytes)
    ensures Decode(b) == Some(map[StatusTag := [cam.streamingStatus]])
  {
    StreamingStatusBlob(cam.streamingStatus)
  }
}
