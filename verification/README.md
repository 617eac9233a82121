# Camera RTP stream management, modelled in Dafny

This project models the stream-management core of HAP-python's camera accessory
(`pyhap/_camera.py`). A HomeKit controller and a camera negotiate a video stream in three
steps.

1. At start-up the camera publishes three capability blobs:
   - the SRTP crypto suite it supports;
   - its H.264 video configurations (profiles, levels and one attributes entry per
     resolution);
   - its audio configurations (OPUS and AAC-ELD at 8, 16 or 24 kHz, with a fallback entry and
     a comfort-noise flag).
2. The controller writes a *setup-endpoints* message. It carries a session identifier, the
   controller's address and RTP ports, and an SRTP key and salt for each stream. The camera
   stores a session under that identifier. It answers with its own address, the controller's
   ports, its SRTP choice and fixed synchronization sources.
3. The controller writes a *selected stream configuration*. Its session block names a session
   and a request kind:
   - kind 1 (start) or kind 4 (reconfigure) reads the video parameters, applies defaults and
     the 30 fps cap, starts a stream process for the session and marks the camera as
     streaming;
   - kind 0 (stop) removes the session and kills its process;
   - any other kind is ignored.

Every message is a TLV8 blob, as described in section 14.1 of Apple's HomeKit Accessory
Protocol Specification. Nested blocks are TLV8 blobs used as values.

The modules follow the program's structure:

- `Tlv` is TLV8 writing and reading. The writer splits values longer than 255 bytes into
  fragments. The reader joins the fragments again; its map view keeps the last value of
  each tag, an assumption described under "Left out".
- `Utf8` is the strict UTF-8 codec for the address text.
- `Bytes` holds byte types and the little-endian 16-bit packing (`struct.pack('<H')`).
- `Protocol` holds the constant tables and the failures a request can raise: a Python
  `KeyError`, `IndexError` or `struct.error` becomes a `Failure(Error)` result. It also holds
  the field readers.
- `Capabilities` holds the three capability encoders.
- `Sessions` holds the camera state: its sessions, streaming status and selected
  configuration.
- `Endpoints` models `set_endpoints`.
- `Streaming` models `set_selected_stream_configuration`, `_start_stream`, `_stop_stream` and
  `_get_streaimg_status`.
- `Lifecycle` holds the lemmas that run the operations one after the other: messages as a
  controller writes them, read back; dispatch of every request kind; and a session's whole
  life from setup through start and stop to a refused second stop.

Each operation is a pure function from the camera state and the message to a new camera state
and an *effect*:

- a process is spawned with a command record;
- a process is killed;
- or nothing happens outside the camera.

A raised exception leaves the state as it was at the point of raising. For
`set_selected_stream_configuration` that state already records the selected configuration,
because the code stores it before decoding anything.

Two behaviours of the code are easy to misread; the model follows the code:

- A start request without an attributes sub-block, or without an RTP-parameters sub-block,
  does not fall back to default width, height and bit rate. The code never binds those
  variables in that case, so the request raises (`UnboundParameter`). The defaults 1280, 720
  and 300 apply only to a value read as 0.
- The video capability encoder writes each resolution's frame rate as two bytes. A selected
  configuration's frame rate is read as one byte, which is also the width HAP gives it. See
  the findings below.

## Model

| member | source | states |
|---|---|---|
| Bytes.PackU16 | pyhap/_camera.py:582-583 | a 16-bit port is written as two bytes, low byte first, and unpacking gives the port back |
| Bytes.PackUnpack | pyhap/_camera.py:528-531 | two bytes read as a little-endian 16-bit number are written back as the same two bytes |
| Tlv.DecodeEncode | pyhap/_camera.py:585-592 | a TLV8 blob written from entries whose same-tag neighbours are separable decodes to the map where each tag holds its last value |
| Tlv.DecodeLookup | pyhap/_camera.py:520-545 | in a blob written with pairwise distinct tags, every entry is found under its own tag with its own value |
| Tlv.DecodeListEncode | pyhap/_camera.py:246-250 | a separable entry list is read back exactly and in order, including values longer than one 255-byte fragment |
| Tlv.DecodeListEncodeShort | pyhap/_camera.py:288-293 | entries shorter than 255 bytes are always read back exactly and in order, even when neighbouring tags repeat |
| Tlv.DecodePair | pyhap/_camera.py:502-504 | a blob of two entries with different tags decodes to exactly the map of those two |
| Utf8.DecodeEncode | pyhap/_camera.py:581 | the UTF-8 encoding of any address text decodes back to that text |
| Utf8.EncodeDecode | pyhap/_camera.py:527 | any byte string that decodes as UTF-8 is exactly the encoding of the text it decodes to |
| Protocol.FieldU16 | pyhap/_camera.py:528-531 | a 16-bit read succeeds exactly when the field is present and two bytes wide, and the number packs back to the field |
| Protocol.FieldU8 | pyhap/_camera.py:407-408 | an 8-bit read succeeds exactly when the field is present and one byte wide, and gives that byte |
| Capabilities.SupportedRtpConfig | pyhap/_camera.py:206-216 | the RTP blob is a single crypto entry, AES_CM_128_HMAC_SHA1_80 when SRTP is supported and NONE otherwise, 3 bytes long |
| Capabilities.EncodeResolutions | pyhap/_camera.py:238-244 | the attributes entries are written in resolution order; writing fails with ValueOutOfRange exactly when some width, height or frame rate does not fit 16 bits |
| Capabilities.SupportedVideoConfig | pyhap/_camera.py:219-250 | the video blob exists exactly when every resolution fits 16 bits, and otherwise raises ValueOutOfRange |
| Capabilities.VideoConfigOuter | pyhap/_camera.py:246-250 | the video blob reads back as one configuration entry (tag 1) holding the codec part followed by the attributes entries |
| Capabilities.VideoConfigInner | pyhap/_camera.py:238-247 | inside that entry, codec H.264, its parameters and each resolution's attributes entry are read back apart and in order |
| Capabilities.CodecParamsRead | pyhap/_camera.py:225-236 | the codec parameters read back as non-interleaved packetization, then every profile, then every level, when no value ends on a full 255-byte fragment |
| Capabilities.AttributesRead | pyhap/_camera.py:240-243 | an attributes entry reads back as width, height and frame rate, and each unpacks to the advertised number |
| Capabilities.AttributeBlobLength | pyhap/_camera.py:240-243 | an attributes entry is 12 bytes, so consecutive entries never join |
| Capabilities.CodecFor | pyhap/_camera.py:264-275 | exactly the names OPUS and AAC-eld are recognized, each as one of the two codec values OPUS (3) and AAC-ELD (2) |
| Capabilities.SampleRateFor | pyhap/_camera.py:277-286 | exactly the rates 8, 16 and 24 kHz are recognized, each as one of the values 0, 1 and 2 |
| Capabilities.Accepted | pyhap/_camera.py:263-293 | the accepted entries are all advertisable and at most one per offered codec; every offered codec with a recognized name and rate contributes its entry, and every entry comes from such a codec |
| Capabilities.AcceptedAppend | pyhap/_camera.py:263-293 | acceptance keeps the offered order: it distributes over concatenation of offer lists |
| Capabilities.OffersKnownCodecExactly | pyhap/_camera.py:261-272 | the supported-codec flag is raised exactly when some offered codec is named OPUS or AAC-eld, whatever its rate |
| Capabilities.CollectEntries | pyhap/_camera.py:261-293 | the loop ends with the flag equal to "some recognized name was offered" and the configurations equal to the written accepted entries |
| Capabilities.AcceptStep | pyhap/_camera.py:263-293 | one more offered codec raises the flag when its name is recognized, and appends its entry when its name and rate are both recognized |
| Capabilities.ParamBlob | pyhap/_camera.py:288-290 | an entry's parameters are channel 1, the bit rate and the sample rate, one byte each, in that order |
| Capabilities.EntryItemWritten | pyhap/_camera.py:291-293 | an audio entry holds the codec, then the parameters block |
| Capabilities.EntryItemDescribes | pyhap/_camera.py:288-293 | a controller reading an audio entry finds its codec, one channel, its bit rate and its sample rate |
| Capabilities.AudioBlobLayout | pyhap/_camera.py:312-314 | the audio blob reads back as the entries followed by one comfort-noise flag entry |
| Capabilities.SupportedAudioConfig | pyhap/_camera.py:253-314 | the audio blob reads back as one entry per advertised configuration, each describing its codec, channel, bit rate and rate, then the comfort-noise flag |
| Capabilities.FallbackWhenNothingRecognized | pyhap/_camera.py:295-310 | with no OPUS or AAC-eld on offer, exactly the fallback OPUS / variable bit rate / 24 kHz entry is advertised |
| Capabilities.NoFallbackWhenRecognized | pyhap/_camera.py:263-272 | with OPUS or AAC-eld on offer, exactly the accepted entries are advertised and no fallback is added |
| Capabilities.NothingAcceptedWithoutKnownName | pyhap/_camera.py:263-275 | without a recognized codec name no entry is accepted |
| Capabilities.UnsupportedRateSuppressesFallback | pyhap/_camera.py:263-310 | offering only OPUS at 48 kHz advertises no audio configuration at all |
| Capabilities.EmptyAdvertisement | pyhap/_camera.py:263-310 | no audio configuration is advertised exactly when some offered codec name is recognized but no offered name and rate pair is |
| Capabilities.IntendedAdvertised | pyhap/_camera.py:295-310 | the corrected advertisement always holds at least one entry, and every entry is advertisable |
| Capabilities.IntendedDiffersOnlyWhenEmpty | pyhap/_camera.py:295-310 | the correction changes the advertisement only when it would be empty, and then advertises the fallback |
| Capabilities.IntendedAudioConfig | pyhap/_camera.py:253-314 | the corrected audio blob reads back as the corrected entries followed by the comfort-noise flag |
| Sessions.StreamingStatusBlob | pyhap/_camera.py:481-482 | the status blob reads back as the single entry holding the status byte |
| Endpoints.ReadAddress | pyhap/_camera.py:524-531 | an address block is read exactly when its fields are present, the address is valid UTF-8 and both ports are two bytes; the result is what the fields hold; a missing family raises MissingField |
| Endpoints.ParseSetupRequest | pyhap/_camera.py:520-545 | a setup request is read exactly when its session identifier, address block and both SRTP blocks are present and readable; a missing identifier raises MissingField |
| Endpoints.ReadAddressBlob | pyhap/_camera.py:579-583 | an address block as written is read back as the same family, address and ports |
| Endpoints.ReadSrtpBlob | pyhap/_camera.py:563-566 | an SRTP block as written is read back as the same suite, key and salt |
| Endpoints.ParseRequestBlob | pyhap/_camera.py:520-545 | a setup request written by a controller is read back field for field |
| Endpoints.NoSrtpWritten | pyhap/_camera.py:193 | the fixed no-SRTP value is byte for byte the SRTP block of suite NONE with an empty key and salt |
| Endpoints.NoSrtpBlock | pyhap/_camera.py:572-574 | the no-SRTP answer reads back as suite NONE with an empty key and salt |
| Endpoints.StoreSession | pyhap/_camera.py:594-604 | the store gains exactly the request's session (replacing one of the same identifier), holding its address, ports, keys, salts and SSRC 1 and no process, and every other session is kept |
| Endpoints.ResponseRead | pyhap/_camera.py:576-592 | the response reads back as the controller's session identifier, success, the camera's address with the controller's ports, the SRTP answer for each stream, and SSRC 1 for both |
| Endpoints.ResponseOrder | pyhap/_camera.py:585-592 | the response entries come in the order session, status, address, video SRTP, audio SRTP, video SSRC, audio SSRC |
| Streaming.Require | pyhap/_camera.py:435-448 | a run of lookups succeeds exactly when every tag is present, and otherwise raises MissingField for the first absent tag |
| Streaming.ReadAttributes | pyhap/_camera.py:400-408 | sent attributes are read exactly when width and height are two bytes and the frame rate one byte, and the result packs back to those fields; absent or empty attributes give nothing |
| Streaming.ReadMaxBitRate | pyhap/_camera.py:410-420 | sent RTP parameters must hold a two-byte maximum bit rate, which is the result; absent or empty ones give nothing |
| Streaming.Effective | pyhap/_camera.py:453-456 | a zero width, height or bit rate takes its default 1280, 720 or 300 and any other value is kept; the frame rate is capped at 30 |
| Lifecycle.SetupStartStop | pyhap/_camera.py:458-470 | on a new camera, after the controller's setup request is stored, a start for its session spawns a command aimed at the address and video port the controller sent, with the controller's video key followed by its salt as SRTP parameters and the effective settings; a stop then kills that process and leaves no session |
| Streaming.StartSession | pyhap/_camera.py:450-478 | starting succeeds exactly when the session exists and attributes and bit rate were sent; it sets exactly that session's process to the new handle, marks the camera streaming and spawns the session's command |
| Streaming.StopStream | pyhap/_camera.py:484-490 | stopping succeeds exactly when the named session exists; it removes exactly that session, kills its process when it has one, and leaves everything else as it was |
| Streaming.SetSelectedStreamConfiguration | pyhap/_camera.py:492-513 | the configuration is always recorded; a malformed blob, a missing session block, an unreadable kind or an unknown kind changes nothing else; kinds 1 and 4 start, kind 0 stops |
| Streaming.StreamingStatus | pyhap/_camera.py:480-482 | the status blob reads back as the camera's current streaming status |
| Lifecycle.SessionControlRead | pyhap/_camera.py:502-504 | a written session block names its session and request kind |
| Lifecycle.AttributesBlockRead | pyhap/_camera.py:400-408 | a written one-byte-frame-rate attributes block is read back as exactly those attributes |
| Lifecycle.RateRead | pyhap/_camera.py:410-420 | a written RTP parameters block is read back as exactly its maximum bit rate |
| Lifecycle.VideoBlockRead | pyhap/_camera.py:390-423 | a written video block is read back as exactly its attributes and bit rate |
| Lifecycle.StopMessageRead | pyhap/_camera.py:484-486 | a stop message names its session and request kind 0 |
| Lifecycle.StartMessageRead | pyhap/_camera.py:386-451 | a start message names its session and kind, and reads back as exactly its attributes and bit rate |
| Lifecycle.StartObjectsRead | pyhap/_camera.py:386-451 | a selected configuration with session and video blocks and no audio block reads as that session and video request |
| Lifecycle.DispatchStop | pyhap/_camera.py:508-509 | stopping a known session removes it, kills its process when it has one, and keeps the streaming status |
| Lifecycle.DispatchStopUnknown | pyhap/_camera.py:487 | stopping a session the camera does not hold raises, and only the selection is recorded |
| Lifecycle.DispatchStart | pyhap/_camera.py:506-511 | start and reconfigure of a known session attach the new process, mark the camera streaming and spawn the session's command with the effective settings |
| Lifecycle.StartApplied | pyhap/_camera.py:452-478 | a readable start for a known session with attributes and bit rate is applied with the spawned command |
| Lifecycle.DispatchUnknownKind | pyhap/_camera.py:512-513 | any other request kind is ignored, and only the selection is recorded |
| Lifecycle.SetupOnFreshCamera | pyhap/_camera.py:594-604 | setting up endpoints on a new camera leaves exactly the controller's session, idle, with its address, port, key and salt |
| Lifecycle.StoreFirst | pyhap/_camera.py:594-604 | a readable request on a camera without sessions leaves exactly that session, idle |
| Lifecycle.SessionLifecycle | pyhap/_camera.py:492-513 | start then stop of the only session spawns and then kills the same process, leaves no session and the status streaming, and a second stop is refused |
| Lifecycle.AdvertisedFrameRateUnreadable | pyhap/_camera.py:240-243 | an advertised attributes entry, sent back as a selection, is refused because its frame rate is two bytes wide |
| Lifecycle.IntendedAttributesReadBack | pyhap/_camera.py:407-408 | with a one-byte frame rate, an advertised resolution is read back as exactly itself |

## Left out

- TLV8 encoding and decoding themselves (`pyhap/tlv.py`) are not part of this model. `Tlv` models the fragmentation at 255 bytes and the joining of consecutive same-tag fragments as section 14.1 of the HomeKit Accessory Protocol Specification describes. That standard prescribes no rule for a tag that recurs after another tag. The map view `Tlv.Decode`, in which the last value of a tag wins, is an assumption about the decoder in `pyhap/tlv.py` and cannot be checked against the code modelled here. `Tlv.DecodeList` is the order-preserving reading and assumes nothing about repeated tags.
- Base64 (`toBase64Str`, `base64ToBytes`): blobs are modelled as the bytes they encode.
- Logging and `print` calls have no effect on state and are not modelled.
- The ffmpeg command string, `subprocess.Popen` and `kill` are left out. Starting a stream yields a `StreamCommand` record (the values the template is formatted from) and a process handle given as a parameter. Stopping yields the handle to kill.
- A failing `Popen` is not modelled. In the source it raises before the session gets a process, so the camera is left as it was apart from the recorded selection; the model always spawns on start.
- A `kill` that raises is not modelled. In the source it propagates after the session has been removed (the `pop` comes first), so the model's resulting state matches and only the disposition differs: the source raises where the model reports the stop as applied.
- The capability encoders index their option dictionaries directly (the video `codec` with its `profiles` and `levels`, the video `resolutions`, the audio `codecs`, and each codec's `type` and `samplerate`), so a missing key raises `KeyError` in the source. The model takes the options as typed records, in which no key can be missing, so that error is not modelled.
- Python values that the Dafny types cannot hold are not modelled: a float sample rate such as 8.0 compares equal to 8 and is accepted, and a truthy non-boolean comfort-noise setting raises the flag. The model takes integer rates and a boolean flag.
- The frame rate is kept in `StreamCommand` although the ffmpeg template has no frame-rate placeholder, so the running command always uses 20 fps.
- The video SSRC of `_start_stream` is always 1, because the unpack after `1 or` is never evaluated. It never reaches the command template, so it is not modelled.
- The audio values read in `_start_stream` (channel, bit rate, sample rate, packet time, SSRC, payload type, RTCP interval, comfort noise) are unused. Only the lookups that can raise are modelled, in `Streaming.CheckAudioBlock`. The video payload type, RTCP interval, maximum MTU, profile and level are unused and are not kept.
- The address family detection with `ipaddress` in `__init__` is left out. The family byte is an input of `Sessions.Initial`.
- The `self.session_id` attribute is only ever set to None and is not modelled.
- The characteristic plumbing is left out: `_set_services`, `set_value` on the management service, and the callbacks wiring. So are `get_snapshot` and `_run`.
- `struct.unpack` on a missing maximum bit rate raises `TypeError` in Python. It is modelled as `MissingField`; the model distinguishes errors by cause, not by Python class.
- Capabilities.CodecFor: the contract says which names are recognized and that the value is a codec value, not which name gets which value; that pairing is the constant table itself.
- Capabilities.SampleRateFor: likewise, the contract says which rates are recognized, not which rate gets which value.
- Capabilities.CodecParamsRead: the round trip is stated only for profiles and levels that do not end on a full 255-byte fragment; for those, a following same-tag entry would be joined to them by any TLV8 reader.

## Findings

| source | as written | input that shows it | evidently intended | confidence | as-written member | corrected member |
|---|---|---|---|---|---|---|
| pyhap/_camera.py:263-295 | the supported-codec flag is raised on a recognized codec name, before its sample rate is checked; a codec whose rate is then refused still suppresses the fallback entry | audio options offering only OPUS at 48 kHz: the blob holds no audio configuration, only the comfort-noise flag | the fallback OPUS / 24 kHz entry is advertised whenever no configuration is accepted | not executed | Capabilities.UnsupportedRateSuppressesFallback | Capabilities.IntendedDiffersOnlyWhenEmpty |
| pyhap/_camera.py:240-243 | each resolution's frame rate is packed as two bytes (`'<H'`), while a selected configuration's frame rate is unpacked as one byte (`'<B'`, lines 407-408), the width HAP specifies | a resolution (1280, 720, 30) is advertised with frame rate bytes `1E 00`; sent back unchanged, the one-byte read raises | the frame rate is written as a single byte | not executed | Lifecycle.AdvertisedFrameRateUnreadable | Lifecycle.IntendedAttributesReadBack |
