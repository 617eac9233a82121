/**
 * The camera's constant tables (tags and enumerated values of the RTP stream management
 * messages) and the failures a request can raise while being read.
 */
module Protocol {
  import opened Wrappers
  import opened Bytes
  import Tlv

  // Setup-endpoints message tags.
  const SetupSessionId: byte := 0x01
  const SetupStatus: byte := 0x02
  const SetupAddress: byte := 0x03
  const SetupVideoSrtp: byte := 0x04
  const SetupAudioSrtp: byte := 0x05
  const SetupVideoSsrc: byte := 0x06
  const SetupAudioSsrc: byte := 0x07

  // Setup status values.
  const StatusSuccess: byte := 0x00
  const StatusBusy: byte := 0x01
  const StatusError: byte := 0x02

  // Address family values.
  const AddressIpv4: byte := 0x00
  const AddressIpv6: byte := 0x01

  // Tags inside an address block.
  const AddrVersion: byte := 0x01
  const AddrAddress: byte := 0x02
  const AddrVideoPort: byte := 0x03
  const AddrAudioPort: byte := 0x04

  // Tags inside an SRTP parameter block.
  const SrtpCrypto: byte := 0x01
  const SrtpMasterKey: byte := 0x02
  const SrtpMasterSalt: byte := 0x03

  // Streaming status values.
  const StreamingAvailable: byte := 0x00
  const StreamingActive: byte := 0x01
  const StreamingBusy: byte := 0x02

  // Supported RTP configuration tag.
  const RtpConfigCrypto: byte := 0x02

  // SRTP crypto suites.
  const SuiteAesCm128HmacSha1_80: byte := 0x00
  const SuiteAesCm256HmacSha1_80: byte := 0x01
  const SuiteNone: byte := 0x02

  // Video configuration tags.
  const VideoCodec: byte := 0x01
  const VideoCodecParam: byte := 0x02
  const VideoAttributes: byte := 0x03
  const VideoRtpParam: byte := 0x04

  // Video codecs.
  const CodecH264: byte := 0x00

  // Tags inside video codec parameters.
  const ParamProfileId: byte := 0x01
  const ParamLevel: byte := 0x02
  const ParamPacketizationMode: byte := 0x03
  const ParamCvoEnabled: byte := 0x04
  const ParamCvoId: byte := 0x05

  // Coordination-of-video-orientation support values.
  const CvoUnsupported: byte := 0x01
  const CvoSupported: byte := 0x02

  // H.264 profiles.
  const ProfileBaseline: byte := 0x00
  const ProfileMain: byte := 0x01
  const ProfileHigh: byte := 0x02

  // H.264 levels.
  const Level3_1: byte := 0x00
  const Level3_2: byte := 0x01
  const Level4_0: byte := 0x02

  // Packetization modes.
  const NonInterleaved: byte := 0x00

  // Tags inside video attributes.
  const AttrImageWidth: byte := 0x01
  const AttrImageHeight: byte := 0x02
  const AttrFrameRate: byte := 0x03

  // Selected stream configuration tags.
  const SelectionSession: byte := 0x01
  const SelectionVideo: byte := 0x02
  const SelectionAudio: byte := 0x03

  // Tags inside RTP parameters.
  const RtpPayloadType: byte := 0x01
  const RtpSynchronizationSource: byte := 0x02
  const RtpMaxBitRate: byte := 0x03
  const RtpRtcpSendInterval: byte := 0x04
  const RtpMaxMtu: byte := 0x05
  const RtpComfortNoisePayloadType: byte := 0x06

  // Audio configuration tags.
  const AudioCodec: byte := 0x01
  const AudioCodecParam: byte := 0x02
  const AudioRtpParam: byte := 0x03
  const AudioComfortNoise: byte := 0x04

  // Audio codecs.
  const CodecPcmu: byte := 0x00
  const CodecPcma: byte := 0x01
  const CodecAacEld: byte := 0x02
  const CodecOpus: byte := 0x03

  // Tags inside audio codec parameters.
  const AudioParamChannel: byte := 0x01
  const AudioParamBitRate: byte := 0x02
  const AudioParamSampleRate: byte := 0x03
  const AudioParamPacketTime: byte := 0x04

  // Audio bit-rate modes.
  const BitRateVariable: byte := 0x00
  const BitRateConstant: byte := 0x01

  // Audio sample rates.
  const SampleRate8Khz: byte := 0x00
  const SampleRate16Khz: byte := 0x01
  const SampleRate24Khz: byte := 0x02

  /** Tag of the session identifier inside a selected-configuration session block. */
  const SessionIdentifier: byte := 0x01
  /** Tag of the request kind inside a selected-configuration session block. */
  const SessionRequestKind: byte := 0x02

  /** The SRTP block sent for both streams when the accessory does not support SRTP. */
  const NoSrtp: bytes := [0x01, 0x01, 0x02, 0x02, 0x00, 0x03, 0x00]

  /** What reading a request can raise. */
  datatype Error =
    | MalformedTlv              // a blob whose declared lengths run past its end
    | MissingField(tag: byte)   // a lookup of a tag the decoded block lacks
    | EmptyField(tag: byte)     // the first byte of an empty value
    | WrongWidth(tag: byte)     // an integer field of the wrong number of bytes
    | NotUtf8                   // an address that is not well-formed UTF-8
    | ValueOutOfRange           // a number packed into 16 bits that does not fit
    | UnknownSession            // a session identifier the store does not hold
    | UnboundParameter          // a stream parameter the request never supplied

  /** `tlv.decode(b)`, raising on a truncated blob. */
  function DecodeBlob(b: bytes): (r: Result<map<byte, bytes>, Error>)
    ensures r.Success? <==> Tlv.Decode(b).Some?
    ensures r.Success? ==> r.value == Tlv.Decode(b).value
    ensures r.Failure? ==> r.error == MalformedTlv
  {
    match Tlv.Decode(b)
    case None => Failure(MalformedTlv)
    case Some(m) => Success(m)
  }

  /** `objs[tag]`. */
  function Field(objs: map<byte, bytes>, tag: byte): (r: Result<bytes, Error>)
    ensures r.Success? <==> tag in objs
    ensures r.Success? ==> r.value == objs[tag]
    ensures r.Failure? ==> r.error == MissingField(tag)
  {
    if tag in objs then Success(objs[tag]) else Failure(MissingField(tag))
  }

  /** `objs[tag][0]`. */
  function FirstByte(objs: map<byte, bytes>, tag: byte): (r: Result<byte, Error>)
    ensures r.Success? <==> tag in objs && |objs[tag]| > 0
    ensures r.Success? ==> r.value == objs[tag][0]
  {
    var v :- Field(objs, tag);
    if |v| == 0 then Failure(EmptyField(tag)) else Success(v[0])
  }

  /** `struct.unpack('<H', objs[tag])[0]`: the field must be exactly two bytes. */
  function FieldU16(objs: map<byte, bytes>, tag: byte): (r: Result<uint16, Error>)
    ensures r.Success? <==> tag in objs && |objs[tag]| == 2
    ensures r.Success? ==> PackU16(r.value) == objs[tag]
  {
    var v :- Field(objs, tag);
    if |v| != 2 then Failure(WrongWidth(tag))
    else
      PackUnpack(v);
      Success(UnpackU16(v))
  }

  /** `struct.unpack('<B', objs[tag])[0]`: the field must be exactly one byte. */
  function FieldU8(objs: map<byte, bytes>, tag: byte): (r: Result<byte, Error>)
    ensures r.Success? <==> tag in objs && |objs[tag]| == 1
    ensures r.Success? ==> objs[tag] == [r.value]
  {
    var v :- Field(objs, tag);
    if |v| != 1 then Failure(WrongWidth(tag)) else Success(v[0])
  }

  /** A lookup that Python treats as true: the tag is present with a non-empty value. */
  predicate Present(objs: map<byte, bytes>, tag: byte) {
    tag in objs && |objs[tag]| > 0
  }
}
