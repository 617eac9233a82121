/**
 * The three capability blobs a camera publishes at start-up: the SRTP crypto suite it
 * supports, its H.264 video configurations, and its audio configurations.
 */
module Capabilities {
  import opened Wrappers
  import opened Bytes
  import opened Tlv
  import opened Protocol

  /** Outer tag of one video configuration and of each audio configuration entry. */
  const ConfigurationEntry: byte := 0x01
  /** Tag of the comfort-noise flag that closes the audio blob. */
  const ComfortNoiseSupport: byte := 0x02
  /** Number of audio channels every advertised entry declares. */
  const MonoChannel: byte := 0x01

  // ---------------------------------------------------------------- RTP configuration

  /** The supported RTP configuration: one crypto-suite entry, AES_CM_128_HMAC_SHA1_80 or none. */
  function SupportedRtpConfig(supportSrtp: bool): (b: bytes)
    ensures DecodeList(b) ==
      Some([Item(RtpConfigCrypto, [if supportSrtp then SuiteAesCm128HmacSha1_80 else SuiteNone])])
    ensures |b| == 3
  {
    var item := Item(RtpConfigCrypto, [if supportSrtp then SuiteAesCm128HmacSha1_80 else SuiteNone]);
    DecodeListEncode([item]);
    EncodeShort(item.tag, item.value);
    Encode([item])
  }

  // ---------------------------------------------------------------- video configuration

  /** H.264 profiles and levels, each the value written for it. */
  datatype VideoCodecOptions = VideoCodecOptions(profiles: seq<bytes>, levels: seq<bytes>)

  /** A (width, height, frame rate) triple. */
  datatype Resolution = Resolution(width: int, height: int, frameRate: int)

  datatype VideoOptions = VideoOptions(codec: VideoCodecOptions, resolutions: seq<Resolution>)

  /** Each number of the triple fits `struct.pack('<H', ...)`. */
  predicate Packable(r: Resolution) {
    0 <= r.width < 0x1_0000 && 0 <= r.height < 0x1_0000 && 0 <= r.frameRate < 0x1_0000
  }

  /** One entry of `tag` per value, in order. */
  function Tagged(tag: byte, values: seq<bytes>): (items: seq<Item>)
    ensures |items| == |values|
    ensures forall i | 0 <= i < |values| :: items[i] == Item(tag, values[i])
  {
    seq(|values|, i requires 0 <= i < |values| => Item(tag, values[i]))
  }

  /** The codec parameters: non-interleaved packetization, then the profiles, then the levels. */
  function CodecParamItems(c: VideoCodecOptions): seq<Item> {
    [Item(ParamPacketizationMode, [NonInterleaved])]
      + Tagged(ParamProfileId, c.profiles) + Tagged(ParamLevel, c.levels)
  }

  /** The attributes of one resolution: width, height and frame rate, two bytes each. */
  function AttributeItems(r: Resolution): seq<Item>
    requires Packable(r)
  {
    [Item(AttrImageWidth, PackU16(r.width)), Item(AttrImageHeight, PackU16(r.height)),
     Item(AttrFrameRate, PackU16(r.frameRate))]
  }

  /** A triple whose frame rate also fits the single byte a selected configuration carries. */
  predicate IntendedPackable(r: Resolution) {
    0 <= r.width < 0x1_0000 && 0 <= r.height < 0x1_0000 && 0 <= r.frameRate < 0x100
  }

  /** The attributes of one resolution with the frame rate as a single byte. */
  function IntendedAttributeItems(r: Resolution): seq<Item>
    requires IntendedPackable(r)
  {
    [Item(AttrImageWidth, PackU16(r.width)), Item(AttrImageHeight, PackU16(r.height)),
     Item(AttrFrameRate, [r.frameRate as byte])]
  }

  /** One attributes entry per resolution. */
  function AttributeEntries(rs: seq<Resolution>): (items: seq<Item>)
    requires forall i | 0 <= i < |rs| :: Packable(rs[i])
    ensures |items| == |rs|
    ensures forall i | 0 <= i < |rs| :: items[i] == Item(VideoAttributes, Encode(AttributeItems(rs[i])))
  {
    seq(|rs|, i requires 0 <= i < |rs| => Item(VideoAttributes, Encode(AttributeItems(rs[i]))))
  }

  /** The attributes entries, written one after the other; the first unpackable number raises. */
  function EncodeResolutions(rs: seq<Resolution>): (r: Result<bytes, Error>)
    ensures r.Success? <==> forall i | 0 <= i < |rs| :: Packable(rs[i])
    ensures r.Failure? ==> r.error == ValueOutOfRange
    ensures r.Success? ==> r.value == Encode(AttributeEntries(rs))
  {
    if rs == [] then Success([])
    else if !Packable(rs[0]) then Failure(ValueOutOfRange)
    else
      var rest :- EncodeResolutions(rs[1..]);
      AttributeEntriesCons(rs);
      Success(Encode([Item(VideoAttributes, Encode(AttributeItems(rs[0])))]) + rest)
  }

  lemma AttributeEntriesCons(rs: seq<Resolution>)
    requires |rs| > 0 && forall i | 0 <= i < |rs| :: Packable(rs[i])
    ensures Encode(AttributeEntries(rs))
      == Encode([Item(VideoAttributes, Encode(AttributeItems(rs[0])))]) + Encode(AttributeEntries(rs[1..]))
  {
    var head := Item(VideoAttributes, Encode(AttributeItems(rs[0])));
    assert AttributeEntries(rs) == [head] + AttributeEntries(rs[1..]);
    EncodeAppend([head], AttributeEntries(rs[1..]));
  }

  /** The codec part of a video configuration: H.264, then its parameters as a nested blob. */
  function CodecItems(c: VideoCodecOptions): seq<Item> {
    [Item(VideoCodec, [CodecH264]), Item(VideoCodecParam, Encode(CodecParamItems(c)))]
  }

  /** The supported video configuration blob. */
  function SupportedVideoConfig(v: VideoOptions): (r: Result<bytes, Error>)
    ensures r.Success? <==> forall i | 0 <= i < |v.resolutions| :: Packable(v.resolutions[i])
    ensures r.Failure? ==> r.error == ValueOutOfRange
  {
    var attrs :- EncodeResolutions(v.resolutions);
    var config := Encode(CodecItems(v.codec));
    Success(Encode([Item(ConfigurationEntry, config + attrs)]))
  }

  /** No profile or level value is a positive multiple of 255 bytes long. */
  predicate UnambiguousCodec(c: VideoCodecOptions) {
    (forall p <- c.profiles :: !EndsFull(p)) && (forall l <- c.levels :: !EndsFull(l))
  }

  lemma AttributeBlobLength(r: Resolution)
    requires Packable(r)
    ensures |Encode(AttributeItems(r))| == 12
  {
    var items := AttributeItems(r);
    assert items == [items[0]] + [items[1]] + [items[2]];
    EncodeAppend([items[0]] + [items[1]], [items[2]]);
    EncodeAppend([items[0]], [items[1]]);
    EncodeShort(items[0].tag, items[0].value);
    EncodeShort(items[1].tag, items[1].value);
    EncodeShort(items[2].tag, items[2].value);
  }

  lemma CodecParamsSeparable(c: VideoCodecOptions)
    requires UnambiguousCodec(c)
    ensures Separable(CodecParamItems(c))
  {
    var items := CodecParamItems(c);
    var np := |c.profiles|;
    forall i | 0 <= i < |items| - 1 && items[i].tag == items[i + 1].tag
      ensures !EndsFull(items[i].value)
    {
      if i == 0 {
      } else if i <= np {
        assert items[i].value == c.profiles[i - 1];
      } else {
        assert items[i].value == c.levels[i - 1 - np];
      }
    }
  }

  /** The blob holds a single configuration entry: the codec part followed by the attributes entries. */
  lemma VideoConfigOuter(v: VideoOptions)
    requires forall i | 0 <= i < |v.resolutions| :: Packable(v.resolutions[i])
    ensures SupportedVideoConfig(v).Success?
    ensures DecodeList(SupportedVideoConfig(v).value) ==
      Some([Item(ConfigurationEntry, Encode(CodecItems(v.codec) + AttributeEntries(v.resolutions)))])
  {
    var body := Encode(CodecItems(v.codec)) + Encode(AttributeEntries(v.resolutions));
    EncodeAppend(CodecItems(v.codec), AttributeEntries(v.resolutions));
    assert SupportedVideoConfig(v).value == Encode([Item(ConfigurationEntry, body)]);
    DecodeListEncode([Item(ConfigurationEntry, body)]);
  }

  /** Inside the configuration entry, the codec, its parameters and the attributes entries read apart. */
  lemma VideoConfigInner(c: VideoCodecOptions, rs: seq<Resolution>)
    requires forall i | 0 <= i < |rs| :: Packable(rs[i])
    ensures DecodeList(Encode(CodecItems(c) + AttributeEntries(rs))) == Some(CodecItems(c) + AttributeEntries(rs))
  {
    var all := CodecItems(c) + AttributeEntries(rs);
    forall i | 0 <= i < |all| - 1 && all[i].tag == all[i + 1].tag
      ensures !EndsFull(all[i].value)
    {
      assert i >= 2 && all[i] == AttributeEntries(rs)[i - 2];
      AttributeBlobLength(rs[i - 2]);
    }
    DecodeListEncode(all);
  }

  /** The codec parameters read back as written, provided no profile or level ends on a full fragment. */
  lemma CodecParamsRead(c: VideoCodecOptions)
    requires UnambiguousCodec(c)
    ensures DecodeList(Encode(CodecParamItems(c))) == Some(CodecParamItems(c))
  {
    CodecParamsSeparable(c);
    DecodeListEncode(CodecParamItems(c));
  }

  /** An attributes entry reads back as width, height and frame rate, two little-endian bytes each. */
  lemma AttributesRead(r: Resolution)
    requires Packable(r)
    ensures DecodeList(Encode(AttributeItems(r))) == Some(AttributeItems(r))
    ensures UnpackU16(AttributeItems(r)[0].value) == r.width
    ensures UnpackU16(AttributeItems(r)[1].value) == r.height
    ensures UnpackU16(AttributeItems(r)[2].value) == r.frameRate
  {
    DecodeListEncodeShort(AttributeItems(r));
  }

  // ---------------------------------------------------------------- audio configuration

  /** An audio codec the accessory offers: its name and its sample rate in kHz. */
  datatype AudioCodecOption = AudioCodecOption(kind: string, sampleRate: int)

  /** The audio options; `comfortNoise` absent means false. */
  datatype AudioOptions = AudioOptions(codecs: seq<AudioCodecOption>, comfortNoise: Option<bool>)

  /** One advertised audio configuration (the channel count is always one). */
  datatype AudioEntry = AudioEntry(codec: byte, bitRate: byte, sampleRate: byte)

  /** The codec value for a codec name; only OPUS and AAC-ELD are recognized. */
  function CodecFor(kind: string): (r: Option<byte>)
    ensures r.Some? <==> kind == "OPUS" || kind == "AAC-eld"
    ensures r.Some? ==> r.value == CodecOpus || r.value == CodecAacEld
  {
    if kind == "OPUS" then Some(CodecOpus)
    else if kind == "AAC-eld" then Some(CodecAacEld)
    else None
  }

  /** The sample-rate value for a rate in kHz; only 8, 16 and 24 are recognized. */
  function SampleRateFor(khz: int): (r: Option<byte>)
    ensures r.Some? <==> khz == 8 || khz == 16 || khz == 24
    ensures r.Some? ==> r.value == SampleRate8Khz || r.value == SampleRate16Khz || r.value == SampleRate24Khz
  {
    if khz == 8 then Some(SampleRate8Khz)
    else if khz == 16 then Some(SampleRate16Khz)
    else if khz == 24 then Some(SampleRate24Khz)
    else None
  }

  /** The entry an offered codec is advertised as, or None when its name or rate is not recognized. */
  function EntryFor(c: AudioCodecOption): Option<AudioEntry> {
    match (CodecFor(c.kind), SampleRateFor(c.sampleRate))
    case (Some(codec), Some(rate)) => Some(AudioEntry(codec, BitRateVariable, rate))
    case _ => None
  }

  /** A recognized codec at a recognized rate, always at variable bit rate. */
  predicate Advertisable(e: AudioEntry) {
    && (e.codec == CodecOpus || e.codec == CodecAacEld)
    && e.bitRate == BitRateVariable
    && (e.sampleRate == SampleRate8Khz || e.sampleRate == SampleRate16Khz || e.sampleRate == SampleRate24Khz)
  }

  /** The entries of the offered codecs that are recognized, in the order offered. */
  function Accepted(codecs: seq<AudioCodecOption>): (es: seq<AudioEntry>)
    ensures |es| <= |codecs|
    ensures forall e <- es :: Advertisable(e)
    ensures forall i | 0 <= i < |codecs| && EntryFor(codecs[i]).Some? :: EntryFor(codecs[i]).value in es
    ensures forall e <- es :: exists i | 0 <= i < |codecs| :: EntryFor(codecs[i]) == Some(e)
  {
    if codecs == [] then []
    else
      var rest := Accepted(codecs[1..]);
      assert forall i | 1 <= i < |codecs| :: codecs[1..][i - 1] == codecs[i];
      match EntryFor(codecs[0])
      case Some(e) => [e] + rest
      case None => rest
  }

  /**
   * Some offered codec has a recognized name, whatever its rate: the flag the loop over the
   * offered codecs raises, stated codec by codec as the loop meets them.
   */
  predicate OffersKnownCodec(codecs: seq<AudioCodecOption>)
    decreases |codecs|
  {
    |codecs| > 0 && (OffersKnownCodec(codecs[..|codecs| - 1]) || CodecFor(codecs[|codecs| - 1].kind).Some?)
  }

  /** The flag is raised exactly when some offered codec has a recognized name. */
  lemma {:induction false} OffersKnownCodecExactly(codecs: seq<AudioCodecOption>)
    ensures OffersKnownCodec(codecs) <==> exists i | 0 <= i < |codecs| :: CodecFor(codecs[i].kind).Some?
    decreases |codecs|
  {
    if |codecs| > 0 {
      var init := codecs[..|codecs| - 1];
      OffersKnownCodecExactly(init);
      assert forall i | 0 <= i < |init| :: init[i] == codecs[i];
    }
  }

  /** The entry advertised when no offered codec is recognized: OPUS, variable bit rate, 24 kHz. */
  const Fallback := AudioEntry(CodecOpus, BitRateVariable, SampleRate24Khz)

  /**
   * The entries the blob advertises: the accepted ones, or the fallback alone when no offered
   * codec has a recognized name. A recognized name at an unrecognized rate counts as offered.
   */
  function Advertised(codecs: seq<AudioCodecOption>): seq<AudioEntry> {
    if OffersKnownCodec(codecs) then Accepted(codecs) else [Fallback]
  }

  /** The comfort-noise flag byte that closes the blob. */
  function ComfortNoiseFlag(a: AudioOptions): byte {
    if a.comfortNoise == Some(true) then 0x01 else 0x00
  }

  /**
   * One audio configuration entry, byte by byte: the codec, then the nested parameters blob
   * (one channel, the bit rate, the sample rate). `EntryItemWritten` shows these are exactly
   * the bytes of the nested encoding.
   */
  function EntryItem(e: AudioEntry): Item {
    Item(ConfigurationEntry,
      [AudioCodec, 1, e.codec,
       AudioCodecParam, 9,
         AudioParamChannel, 1, MonoChannel,
         AudioParamBitRate, 1, e.bitRate,
         AudioParamSampleRate, 1, e.sampleRate])
  }

  function EntryItems(es: seq<AudioEntry>): (items: seq<Item>)
    ensures |items| == |es|
    ensures forall i | 0 <= i < |es| :: items[i] == EntryItem(es[i])
  {
    seq(|es|, i requires 0 <= i < |es| => EntryItem(es[i]))
  }

  /** A controller reading entry `item` finds codec, one channel, bit rate and sample rate of `e`. */
  predicate Describes(item: Item, e: AudioEntry) {
    && item.tag == ConfigurationEntry
    && match DecodeList(item.value)
       case None => false
       case Some(fields) =>
         && |fields| == 2
         && fields[0] == Item(AudioCodec, [e.codec])
         && fields[1].tag == AudioCodecParam
         && DecodeList(fields[1].value) == Some([Item(AudioParamChannel, [MonoChannel]),
                                                 Item(AudioParamBitRate, [e.bitRate]),
                                                 Item(AudioParamSampleRate, [e.sampleRate])])
  }

  /** Parameters of an audio entry, as written. */
  function ParamItems(e: AudioEntry): seq<Item> {
    [Item(AudioParamChannel, [MonoChannel]), Item(AudioParamBitRate, [e.bitRate]),
     Item(AudioParamSampleRate, [e.sampleRate])]
  }

  /** The parameters blob of an entry: channel, bit rate and sample rate, one byte each. */
  lemma ParamBlob(e: AudioEntry)
    ensures Encode(ParamItems(e)) == [AudioParamChannel, 1, MonoChannel, AudioParamBitRate, 1, e.bitRate,
                                      AudioParamSampleRate, 1, e.sampleRate]
  {
    var params := ParamItems(e);
    assert params == [params[0]] + [params[1]] + [params[2]];
    EncodeAppend([params[0]] + [params[1]], [params[2]]);
    EncodeAppend([params[0]], [params[1]]);
    EncodeShort(params[0].tag, params[0].value);
    EncodeShort(params[1].tag, params[1].value);
    EncodeShort(params[2].tag, params[2].value);
  }

  /** An entry's value is the codec entry followed by the parameters entry, each TLV8-encoded. */
  lemma EntryItemWritten(e: AudioEntry)
    ensures EntryItem(e).value == Encode([Item(AudioCodec, [e.codec]), Item(AudioCodecParam, Encode(ParamItems(e)))])
  {
    ParamBlob(e);
    var params := Encode(ParamItems(e));
    EncodeAppend([Item(AudioCodec, [e.codec])], [Item(AudioCodecParam, params)]);
    EncodeShort(AudioCodec, [e.codec]);
    EncodeShort(AudioCodecParam, params);
    assert [Item(AudioCodec, [e.codec])] + [Item(AudioCodecParam, params)]
      == [Item(AudioCodec, [e.codec]), Item(AudioCodecParam, params)];
  }

  lemma EntryItemDescribes(e: AudioEntry)
    ensures Describes(EntryItem(e), e)
  {
    EntryItemWritten(e);
    var params := ParamItems(e);
    DecodeListEncodeShort(params);
    var fields := [Item(AudioCodec, [e.codec]), Item(AudioCodecParam, Encode(params))];
    ParamBlob(e);
    DecodeListEncodeShort(fields);
  }

  /** Acceptance keeps the offered order: it distributes over concatenation. */
  lemma {:induction false} AcceptedAppend(a: seq<AudioCodecOption>, b: seq<AudioCodecOption>)
    ensures Accepted(a + b) == Accepted(a) + Accepted(b)
  {
    if a == [] {
      assert a + b == b;
    } else {
      assert (a + b)[1..] == a[1..] + b;
      AcceptedAppend(a[1..], b);
    }
  }

  lemma EntriesDescribed(entries: seq<AudioEntry>)
    ensures forall i | 0 <= i < |entries| :: Describes(EntryItems(entries)[i], entries[i])
  {
    forall i | 0 <= i < |entries|
      ensures Describes(EntryItems(entries)[i], entries[i])
    {
      EntryItemDescribes(entries[i]);
    }
  }

  /** The blob of `entries` followed by the comfort-noise flag reads back as those entries and the flag. */
  lemma AudioBlobLayout(entries: seq<AudioEntry>, flag: byte)
    ensures DecodeList(Encode(EntryItems(entries)) + Encode([Item(ComfortNoiseSupport, [flag])]))
      == Some(EntryItems(entries) + [Item(ComfortNoiseSupport, [flag])])
  {
    var items := EntryItems(entries) + [Item(ComfortNoiseSupport, [flag])];
    EncodeAppend(EntryItems(entries), [Item(ComfortNoiseSupport, [flag])]);
    forall i | 0 <= i < |items|
      ensures |items[i].value| < MaxChunk
    {
      if i < |entries| {
        assert items[i] == EntryItem(entries[i]);
      }
    }
    DecodeListEncodeShort(items);
  }

  /**
   * The supported audio configuration blob: one entry per advertised configuration, in order,
   * then the comfort-noise flag.
   */
  method SupportedAudioConfig(a: AudioOptions) returns (blob: bytes)
    ensures DecodeList(blob) == Some(EntryItems(Advertised(a.codecs)) + [Item(ComfortNoiseSupport, [ComfortNoiseFlag(a)])])
    ensures forall i | 0 <= i < |Advertised(a.codecs)| ::
      Describes(DecodeList(blob).value[i], Advertised(a.codecs)[i])
  {
    var hasSupportedCodec, configs := CollectEntries(a.codecs);
    if !hasSupportedCodec {
      configs := Encode([EntryItem(Fallback)]);
      assert EntryItems([Fallback]) == [EntryItem(Fallback)];
    }
    blob := configs + Encode([Item(ComfortNoiseSupport, [ComfortNoiseFlag(a)])]);
    AudioBlobLayout(Advertised(a.codecs), ComfortNoiseFlag(a));
    EntriesDescribed(Advertised(a.codecs));
  }

  /**
   * The loop over the offered codecs: whether any has a recognized name, and the entries of
   * those with a recognized name and rate, written in the order offered.
   */
  method CollectEntries(codecs: seq<AudioCodecOption>) returns (hasSupportedCodec: bool, configs: bytes)
    ensures hasSupportedCodec <==> OffersKnownCodec(codecs)
    ensures configs == Encode(EntryItems(Accepted(codecs)))
  {
    hasSupportedCodec := false;
    configs := [];
    var i := 0;
    while i < |codecs|
      invariant 0 <= i <= |codecs|
      invariant hasSupportedCodec == OffersKnownCodec(codecs[..i])
      invariant configs == Encode(EntryItems(Accepted(codecs[..i])))
    {
      AcceptAt(codecs, i);
      var codec := CodecFor(codecs[i].kind);
      if codec.Some? {
        hasSupportedCodec := true;
        var rate := SampleRateFor(codecs[i].sampleRate);
        if rate.Some? {
          configs := configs + Encode([EntryItem(AudioEntry(codec.value, BitRateVariable, rate.value))]);
        }
      }
      i := i + 1;
    }
    assert codecs[..i] == codecs;
  }

  /** The loop step at offered codec `i`, spelled with the lookups the loop makes. */
  lemma AcceptAt(codecs: seq<AudioCodecOption>, i: nat)
    requires i < |codecs|
    ensures OffersKnownCodec(codecs[..i + 1]) == (OffersKnownCodec(codecs[..i]) || CodecFor(codecs[i].kind).Some?)
    ensures var codec, rate := CodecFor(codecs[i].kind), SampleRateFor(codecs[i].sampleRate);
      Encode(EntryItems(Accepted(codecs[..i + 1]))) == Encode(EntryItems(Accepted(codecs[..i])))
        + (if codec.Some? && rate.Some? then Encode([EntryItem(AudioEntry(codec.value, BitRateVariable, rate.value))])
           else [])
  {
    assert codecs[..i + 1] == codecs[..i] + [codecs[i]];
    AcceptStep(codecs[..i], codecs[i]);
  }

  /** One more offered codec adds its entry, if it has one, at the end. */
  lemma AcceptStep(prefix: seq<AudioCodecOption>, c: AudioCodecOption)
    ensures OffersKnownCodec(prefix + [c]) <==> OffersKnownCodec(prefix) || CodecFor(c.kind).Some?
    ensures Encode(EntryItems(Accepted(prefix + [c]))) == Encode(EntryItems(Accepted(prefix)))
      + (if EntryFor(c).Some? then Encode([EntryItem(EntryFor(c).value)]) else [])
  {
    OffersStep(prefix, c);
    AcceptedAppend(prefix, [c]);
    AcceptedSingle(c);
    EntryItemsStep(Accepted(prefix), EntryFor(c));
  }

  lemma OffersStep(prefix: seq<AudioCodecOption>, c: AudioCodecOption)
    ensures OffersKnownCodec(prefix + [c]) <==> OffersKnownCodec(prefix) || CodecFor(c.kind).Some?
  {
    assert (prefix + [c])[..|prefix|] == prefix;
  }

  lemma AcceptedSingle(c: AudioCodecOption)
    ensures Accepted([c]) == (if EntryFor(c).Some? then [EntryFor(c).value] else [])
  {
    assert [c][1..] == [];
  }

  lemma EntryItemsStep(es: seq<AudioEntry>, next: Option<AudioEntry>)
    ensures Encode(EntryItems(es + (if next.Some? then [next.value] else []))) ==
      Encode(EntryItems(es)) + (if next.Some? then Encode([EntryItem(next.value)]) else [])
  {
    if next.Some? {
      assert EntryItems(es + [next.value]) == EntryItems(es) + [EntryItem(next.value)];
      EncodeAppend(EntryItems(es), [EntryItem(next.value)]);
    } else {
      assert es + [] == es;
    }
  }

  /** With no recognized codec name on offer, exactly the fallback entry is advertised. */
  lemma FallbackWhenNothingRecognized(codecs: seq<AudioCodecOption>)
    requires forall i | 0 <= i < |codecs| :: codecs[i].kind != "OPUS" && codecs[i].kind != "AAC-eld"
    ensures Advertised(codecs) == [AudioEntry(CodecOpus, BitRateVariable, SampleRate24Khz)]
  {
    OffersKnownCodecExactly(codecs);
  }

  /** With a recognized codec name on offer, the advertised entries are exactly the accepted ones. */
  lemma NoFallbackWhenRecognized(codecs: seq<AudioCodecOption>, i: int)
    requires 0 <= i < |codecs| && (codecs[i].kind == "OPUS" || codecs[i].kind == "AAC-eld")
    ensures Advertised(codecs) == Accepted(codecs)
  {
    assert CodecFor(codecs[i].kind).Some?;
    OffersKnownCodecExactly(codecs);
  }

  /**
   * As written, a recognized codec offered only at an unrecognized rate (OPUS at 48 kHz)
   * suppresses the fallback and leaves the blob with no audio configuration at all.
   */
  lemma UnsupportedRateSuppressesFallback()
    ensures Advertised([AudioCodecOption("OPUS", 48)]) == []
  {
    var codecs := [AudioCodecOption("OPUS", 48)];
    assert CodecFor(codecs[0].kind).Some?;
    assert EntryFor(codecs[0]).None?;
  }

  /**
   * As written, the audio part of the blob is empty exactly when some codec name is
   * recognized but no offered (name, rate) pair is: the fallback is withheld then.
   */
  lemma EmptyAdvertisement(codecs: seq<AudioCodecOption>)
    ensures Advertised(codecs) == [] <==>
      && (exists i | 0 <= i < |codecs| :: CodecFor(codecs[i].kind).Some?)
      && (forall i | 0 <= i < |codecs| :: EntryFor(codecs[i]).None?)
  {
    OffersKnownCodecExactly(codecs);
    if forall i | 0 <= i < |codecs| :: EntryFor(codecs[i]).None? {
      NoneAccepted(codecs);
    }
  }

  // ---------------------------------------------------------------- corrected audio advertisement

  /** Without a recognized codec name nothing can be accepted. */
  lemma NothingAcceptedWithoutKnownName(codecs: seq<AudioCodecOption>)
    requires !OffersKnownCodec(codecs)
    ensures Accepted(codecs) == []
  {
    OffersKnownCodecExactly(codecs);
    assert forall i | 0 <= i < |codecs| :: EntryFor(codecs[i]).None?;
    NoneAccepted(codecs);
  }

  lemma {:induction false} NoneAccepted(codecs: seq<AudioCodecOption>)
    requires forall i | 0 <= i < |codecs| :: EntryFor(codecs[i]).None?
    ensures Accepted(codecs) == []
  {
    if codecs != [] {
      assert forall i | 0 <= i < |codecs[1..]| :: codecs[1..][i] == codecs[i + 1];
      NoneAccepted(codecs[1..]);
    }
  }

  /** The evidently intended entries: the fallback whenever nothing at all is accepted. */
  function IntendedAdvertised(codecs: seq<AudioCodecOption>): (es: seq<AudioEntry>)
    ensures |es| >= 1
    ensures forall e <- es :: Advertisable(e)
  {
    if Accepted(codecs) == [] then [Fallback] else Accepted(codecs)
  }

  /**
   * The correction changes nothing except where the source advertises no audio entry at all:
   * there, and only there, the fallback is advertised instead.
   */
  lemma IntendedDiffersOnlyWhenEmpty(codecs: seq<AudioCodecOption>)
    ensures Advertised(codecs) != [] ==> IntendedAdvertised(codecs) == Advertised(codecs)
    ensures Advertised(codecs) == [] ==> IntendedAdvertised(codecs) == [Fallback]
  {
    if !OffersKnownCodec(codecs) {
      NothingAcceptedWithoutKnownName(codecs);
    }
  }

  /** The corrected audio blob: never without an audio configuration. */
  function IntendedAudioConfig(a: AudioOptions): (blob: bytes)
    ensures DecodeList(blob) ==
      Some(EntryItems(IntendedAdvertised(a.codecs)) + [Item(ComfortNoiseSupport, [ComfortNoiseFlag(a)])])
  {
    var es := IntendedAdvertised(a.codecs);
    AudioBlobLayout(es, ComfortNoiseFlag(a));
    Encode(EntryItems(es)) + Encode([Item(ComfortNoiseSupport, [ComfortNoiseFlag(a)])])
  }
}
