/** dispatchFrame: from the bytes of a received frame to the one decoder that may see it. */
module Dispatch {
  import opened Words
  import opened Wrappers
  import opened Cbc
  import opened AesUtils
  import opened LoRaRawFrame

  /** What dispatch reads of a device and of its model's description; `keyDecodes` says whether its
      configured key is well-formed hex, `decodesResponses` whether the description has a response
      decoder at all. */
  datatype Device = Device(
    uuid: string,
    keyDecodes: bool,
    key: seq<byte>,
    described: bool,
    isLoRaRaw: bool,
    allowUnencrypted: bool,
    decodesResponses: bool)

  /** The decoder that is run, and on what. */
  datatype Emission =
    | Uplink(payload: seq<byte>)
    | Response(payload: seq<byte>, messageId: byte)
    | LegacyUplink(frame: seq<byte>)

  /** A frame is dropped, or accepted for a device: then at most one decoder has run and `published`
      is the frame handed on to MQTT. A RESPONSE for a model without a response decoder calls a nil
      function. */
  datatype DispatchResult =
    | Dropped
    | Accepted(device: Device, emission: Option<Emission>, published: seq<byte>, legacyDevice: bool)
    | NilDecoder(device: Device)

  /** `checkLength` is the length check of a device's model, which only the legacy handler asks. */
  datatype Config = Config(
    suite: Suite,
    getDevice: seq<byte> -> Option<Device>,
    defaultKey: seq<byte>,
    checkLength: (Device, seq<byte>) -> bool)

  /** The frame rewritten by the legacy fallback: decrypted with the default key, the received RSSI
      and SNR put back; only when the address really changes. */
  function LegacyRewrite(config: Config, frame: seq<byte>): Option<seq<byte>>
    requires 4 <= |frame|
  {
    match LegacyOpened(config.suite, config.defaultKey, frame[..|frame| - 2])
    case Err => None
    case Ok(plain) =>
      if |plain| < 4 || plain[..4] == frame[..4] then None else Some(plain + frame[|frame| - 2..])
  }

  /** handleLegacyDevice. */
  function LegacyOutcome(config: Config, device: Device, frame: seq<byte>, rewritten: bool): DispatchResult
  {
    Accepted(device, if config.checkLength(device, frame) then Some(LegacyUplink(frame)) else None, frame, rewritten)
  }

  /** handleLoRaRAWDevice on a decrypted frame. */
  function OpenedEmission(plain: seq<byte>): Option<Emission>
    requires 7 <= |plain|
  {
    if !CheckPayloadLength(plain) then None
    else
      var opts := plain[LORARAW_OPTS_POSITION];
      if opts == LORARAW_OPTS_UNCONFIRMED_UPLINK || opts == LORARAW_OPTS_CONFIRMED_UPLINK then Some(Uplink(StripPayload(plain)))
      else if opts == LORARAW_OPTS_RESPONSE then Some(Response(StripPayload(plain), plain[LORARAW_NONCE_POSITION]))
      else None
  }

  function OpenedOutcome(device: Device, plain: seq<byte>, published: seq<byte>): DispatchResult
    requires 7 <= |plain|
  {
    var emission := OpenedEmission(plain);
    if emission.Some? && emission.value.Response? && !device.decodesResponses then NilDecoder(device)
    else Accepted(device, emission, published, false)
  }

  /** The LoRaRAW branch: decryption decides first, and only a frame that is not shaped like a
      ciphertext may be taken as plaintext. */
  function LoRaRawOutcome(config: Config, device: Device, frame: seq<byte>): DispatchResult
  {
    if !device.keyDecodes then Dropped
    else if OpensWith(config.suite, device.key, frame) then
      var plain := Opened(config.suite, device.key, frame[..|frame| - 2]);
      OpenedOutcome(device, plain, if Rebuilt(plain, frame).Ok? then Rebuilt(plain, frame).value else frame)
    else if device.allowUnencrypted && !IsEncryptionShaped(frame) && IsUnencryptedLoRaRaw(frame) then
      Accepted(device, Some(Uplink(StripPayload(frame))), frame, false)
    else Dropped
  }

  function DeviceOutcome(config: Config, device: Device, frame: seq<byte>): DispatchResult
  {
    if !device.described then Dropped
    else if device.isLoRaRaw then LoRaRawOutcome(config, device, frame)
    else LegacyOutcome(config, device, frame, false)
  }

  /** The whole decision on values: what dispatch does with a frame's bytes. */
  function Outcome(config: Config, frame: seq<byte>): DispatchResult
  {
    if |frame| < 5 then Dropped
    else
      match config.getDevice(frame[..4])
      case Some(device) => DeviceOutcome(config, device, frame)
      case None =>
        match LegacyRewrite(config, frame)
        case None => Dropped
        case Some(rewritten) =>
          match config.getDevice(rewritten[..4])
          case None => Dropped
          case Some(device) => if device.described then LegacyOutcome(config, device, rewritten, true) else Dropped
  }

  /** The address the default key turns a frame's first block into. */
  function LegacyAddress(config: Config, frame: seq<byte>): seq<byte>
    requires 16 <= |frame|
  {
    config.suite.decrypt(config.defaultKey, frame[..16])[..4]
  }

  /** The legacy fallback finds this device: the address on the wire is unknown, and the default key
      turns it into another one, which is the device's. */
  ghost predicate LegacyNames(config: Config, frame: seq<byte>, device: Device)
  {
    && 18 <= |frame| && ValidKey(config.defaultKey)
    && config.getDevice(frame[..4]).None?
    && LegacyAddress(config, frame) != frame[..4]
    && config.getDevice(LegacyAddress(config, frame)) == Some(device)
  }

  /** The frame the legacy fallback goes on with. */
  function LegacyFrame(config: Config, frame: seq<byte>): seq<byte>
  {
    if 4 <= |frame| && LegacyRewrite(config, frame).Some? then LegacyRewrite(config, frame).value else frame
  }

  lemma XorByteZero(a: byte)
    ensures XorByte(a, 0) == a
  {}

  lemma XorBlocksZero(a: Block)
    ensures XorBlocks(a, IV) == a
  {
    hide XorByte;
    forall i | 0 <= i < 16
      ensures XorBlocks(a, IV)[i] == a[i]
    {
      XorByteZero(a[i]);
    }
  }

  /** The rewritten frame starts with the address the default key uncovers. */
  lemma RewrittenAddress(config: Config, frame: seq<byte>)
    requires 4 <= |frame|
    ensures LegacyRewrite(config, frame).Some? <==>
              18 <= |frame| && ValidKey(config.defaultKey) && LegacyAddress(config, frame) != frame[..4]
    ensures LegacyRewrite(config, frame).Some? ==>
              && |LegacyRewrite(config, frame).value| == |frame| && LegacyRewrite(config, frame).value[..4] == LegacyAddress(config, frame)
              && LegacyRewrite(config, frame).value[|frame| - 2..] == frame[|frame| - 2..]
  {
    hide XorBlocks;
    var body := frame[..|frame| - 2];
    if 16 <= |body| && ValidKey(config.defaultKey) {
      var blocks := body[..|body| - |body| % 16];
      assert blocks[..16] == frame[..16];
      XorBlocksZero(config.suite.decrypt(config.defaultKey, blocks[..16]));
      var plain := LegacyOpened(config.suite, config.defaultKey, body).value;
      assert plain[..16] == config.suite.decrypt(config.defaultKey, frame[..16]);
      assert plain[..4] == plain[..16][..4];
    }
  }

  /** A legacy frame: whole blocks encrypted under the default key, then whatever does not fill a
      block, then the radio trailer. */
  function LegacyWire(config: Config, blocks: seq<byte>, tail: seq<byte>, trailer: seq<byte>): seq<byte>
    requires |blocks| % 16 == 0
  {
    CbcEncrypt(config.suite, config.defaultKey, IV, blocks) + tail + trailer
  }

  /** The legacy round trip: a frame made with the default key is rewritten to its plaintext, with the
      received trailer, exactly when encryption has changed its address; otherwise it is left alone. */
  lemma LegacyRoundTrip(config: Config, blocks: seq<byte>, tail: seq<byte>, trailer: seq<byte>)
    requires Inverts(config.suite, config.defaultKey) && ValidKey(config.defaultKey)
    requires |blocks| % 16 == 0 && 16 <= |blocks| && |tail| < 16 && |trailer| == 2
    ensures var wire := LegacyWire(config, blocks, tail, trailer);
            && |wire| == |blocks| + |tail| + 2
            && LegacyRewrite(config, wire) == if wire[..4] == blocks[..4] then None else Some(blocks + tail + trailer)
  {
    var wire := LegacyWire(config, blocks, tail, trailer);
    var sealed := CbcEncrypt(config.suite, config.defaultKey, IV, blocks);
    assert wire[..|wire| - 2] == sealed + tail && wire[|wire| - 2..] == trailer;
    WholeBlocks(|blocks|, |tail|);
    assert (sealed + tail)[..|blocks|] == sealed && (sealed + tail)[|blocks|..] == tail;
    CbcRoundTrip(config.suite, config.defaultKey, IV, blocks);
    assert (blocks + tail)[..4] == blocks[..4];
  }

  lemma WholeBlocks(n: nat, rest: nat)
    requires n % 16 == 0 && rest < 16
    ensures n + rest - (n + rest) % 16 == n
  {}

  /** tryLegacyDecrypt: rewrites a frame of at least one block exactly when the default key turns its
      address into another; length and trailer stay. */
  method TryLegacyDecrypt(config: Config, frame: array<byte>) returns (rewritten: Option<seq<byte>>)
    requires 4 <= frame.Length
    ensures rewritten == LegacyRewrite(config, frame[..])
    ensures rewritten.Some? <==>
              18 <= frame.Length && ValidKey(config.defaultKey) && LegacyAddress(config, frame[..]) != frame[..4]
    ensures rewritten.Some? ==>
              && |rewritten.value| == frame.Length && rewritten.value[..4] == LegacyAddress(config, frame[..])
              && rewritten.value[frame.Length - 2..] == frame[frame.Length - 2..]
  {
    RewrittenAddress(config, frame[..]);
    assert frame[..][..frame.Length - 2] == frame[..frame.Length - 2];
    var dataLegacy := LegacyOpened(config.suite, config.defaultKey, frame[..frame.Length - 2]);
    if dataLegacy.Err? {
      return None;
    }
    if |dataLegacy.value| < 4 {
      return None;
    }
    assert frame[..][..4] == frame[..4];
    if dataLegacy.value[..4] == frame[..4] {
      return None;
    }
    assert frame[..][frame.Length - 2..] == frame[frame.Length - 2..];
    rewritten := Some(dataLegacy.value + frame[frame.Length - 2..]);
  }

  method HandleLegacyDevice(config: Config, device: Device, data: seq<byte>) returns (emission: Option<Emission>)
    ensures emission == LegacyOutcome(config, device, data, true).emission
  {
    if !config.checkLength(device, data) {
      return None;
    }
    emission := Some(LegacyUplink(data));
  }

  /** dispatchFrame on the receive buffer. It decrypts in place and still reads the trailer, the
      payload and the published frame from that same buffer; the result is what the decision on the
      bytes received says, and only the body of a frame that verified has been overwritten. */
  method DispatchFrame(config: Config, frame: array<byte>) returns (result: DispatchResult)
    modifies frame
    ensures result == Outcome(config, old(frame[..]))
    ensures |frame[..]| >= 6 ==> frame[..4] == old(frame[..4]) && frame[frame.Length - 6..] == old(frame[frame.Length - 6..])
    ensures frame[..] != old(frame[..]) ==>
              frame.Length >= 4 && var device := config.getDevice(old(frame[..4]));
              device.Some? && device.value.described && device.value.isLoRaRaw && device.value.keyDecodes
              && OpensWith(config.suite, device.value.key, old(frame[..]))
  {
    hide LegacyRewrite, LegacyAddress, OpenedEmission, Opened, MacVerifies, StripPayload;
    if frame.Length < 5 {
      return Dropped;
    }
    ghost var received := frame[..];
    var publishRaw := frame[..];
    var legacyDevice := false;
    var data := frame[..];
    assert received[..4] == frame[..4];
    var device := config.getDevice(frame[..4]);
    if device.None? {
      var res := TryLegacyDecrypt(config, frame);
      if res.Some? {
        device := config.getDevice(res.value[..4]);
        legacyDevice := true;
        data := res.value;
        publishRaw := res.value;
      }
    }
    if device.None? {
      return Dropped;
    }
    if !device.value.described {
      return Dropped;
    }
    if legacyDevice || !device.value.isLoRaRaw {
      var emission := HandleLegacyDevice(config, device.value, data);
      return Accepted(device.value, emission, publishRaw, legacyDevice);
    }
    if !device.value.keyDecodes {
      return Dropped;
    }
    var decoded := TryDecryptLoRaRawPkt(config.suite, frame, device.value.key);
    if decoded.Ok? {
      var pub := BuildUnencryptedRawFrame(decoded.value, frame);
      assert frame[..][frame.Length - 2..] == frame[frame.Length - 6..][4..] == received[|received| - 2..];
      if pub.Ok? {
        publishRaw := pub.value;
      }
      var plain := frame[..frame.Length - 2];
      assert decoded.value.Bytes() == plain == Opened(config.suite, device.value.key, received[..|received| - 2]);
      var emission := OpenedEmission(plain);
      if emission.Some? && emission.value.Response? && !device.value.decodesResponses {
        return NilDecoder(device.value);
      }
      return Accepted(device.value, emission, publishRaw, false);
    } else if device.value.allowUnencrypted && !IsEncryptionShaped(frame[..]) && IsUnencryptedLoRaRaw(frame[..]) {
      return Accepted(device.value, Some(Uplink(StripPayload(frame[..]))), publishRaw, false);
    } else {
      return Dropped;
    }
  }

  // ------------------------------------------------------------------ policy

  /** A decoder of this device is run on the frame. */
  ghost predicate Emits(config: Config, frame: seq<byte>, device: Device)
  {
    var result := Outcome(config, frame);
    result.Accepted? && result.device == device && result.emission.Some?
  }

  /** The frame is taken for this device's, whether or not a decoder is run. */
  ghost predicate Reaches(config: Config, frame: seq<byte>, device: Device)
  {
    var result := Outcome(config, frame);
    !result.Dropped? && result.device == device
  }

  /** The frame is for this device by its wire address, and its MAC verifies under the device's key. */
  ghost predicate VerifiedFor(config: Config, frame: seq<byte>, device: Device)
  {
    && 5 <= |frame| && config.getDevice(frame[..4]) == Some(device)
    && device.keyDecodes && OpensWith(config.suite, device.key, frame)
  }

  /** A ciphertext-shaped frame reaches a LoRaRAW device, whatever its model, with a verified MAC -- or
      through the legacy fallback, which asks for no MAC. There is no other way. */
  lemma CiphertextNeedsMac(config: Config, frame: seq<byte>, device: Device)
    requires device.isLoRaRaw && IsEncryptionShaped(frame)
    ensures Reaches(config, frame, device) <==>
              device.described && (VerifiedFor(config, frame, device) || LegacyNames(config, frame, device))
  {
    hide OpensWith, LegacyRewrite, LegacyAddress, OpenedEmission, Rebuilt, Opened;
    RewrittenAddress(config, frame);
  }

  /** A decoder of a model that does not allow plaintext runs exactly on frames whose MAC verifies and
      whose opts select one, and on frames the legacy fallback hands it. */
  lemma EncryptionOnlyModels(config: Config, frame: seq<byte>, device: Device)
    requires device.isLoRaRaw && !device.allowUnencrypted
    ensures Emits(config, frame, device) <==>
              device.described &&
              if VerifiedFor(config, frame, device) then
                var emission := OpenedEmission(Opened(config.suite, device.key, frame[..|frame| - 2]));
                emission.Some? && (emission.value.Response? ==> device.decodesResponses)
              else
                LegacyNames(config, frame, device) && config.checkLength(device, LegacyFrame(config, frame))
  {
    hide OpensWith, LegacyRewrite, LegacyAddress, OpenedEmission, Rebuilt, Opened;
    if 5 <= |frame| {
      RewrittenAddress(config, frame);
    }
  }

  /** So an encryption-only model's decoder has run without a verified MAC exactly when the wire address
      is unknown, the default key turns it into a different one, and that one is the device's. */
  lemma DecodedWithoutMac(config: Config, frame: seq<byte>, device: Device)
    requires device.isLoRaRaw && !device.allowUnencrypted
    ensures Emits(config, frame, device) && !VerifiedFor(config, frame, device) <==>
              device.described && LegacyNames(config, frame, device) && config.checkLength(device, LegacyFrame(config, frame))
  {
    hide OpensWith, LegacyRewrite, LegacyAddress, OpenedEmission, Rebuilt, Opened, Emits;
    EncryptionOnlyModels(config, frame, device);
  }

  /** A cipher for examples: a block is reversed. */
  function ReversingSuite(): (suite: Suite)
    ensures forall key: seq<byte> :: Inverts(suite, key)
  {
    var reverse := (key: seq<byte>, block: Block) => seq(16, i requires 0 <= i < 16 => block[15 - i]);
    Suite(reverse, reverse, (key: seq<byte>, data: seq<byte>) => IV)
  }

  /** It happens: any described encryption-only device at address 0 decodes the twenty bytes 1, 0, 0, ...
      which carry no MAC and are not even as long as an encrypted frame. */
  lemma DecodedWithoutMacExample(device: Device, defaultKey: seq<byte>)
    requires device.described && device.isLoRaRaw && !device.allowUnencrypted && ValidKey(defaultKey)
    ensures var getDevice := (address: seq<byte>) => if address == [0, 0, 0, 0] then Some(device) else None;
            var config := Config(ReversingSuite(), getDevice, defaultKey, (dev: Device, frame: seq<byte>) => true);
            var frame: seq<byte> := [1] + seq(19, _ => 0);
            Emits(config, frame, device) && !OpensWith(config.suite, device.key, frame)
  {
    hide LegacyRewrite, Opened, OpenedEmission, Emits;
    var getDevice := (address: seq<byte>) => if address == [0, 0, 0, 0] then Some(device) else None;
    var config := Config(ReversingSuite(), getDevice, defaultKey, (dev: Device, frame: seq<byte>) => true);
    var frame: seq<byte> := [1] + seq(19, _ => 0);
    assert LegacyAddress(config, frame) == [0, 0, 0, 0];
    assert frame[..4][0] == 1;
    DecodedWithoutMac(config, frame, device);
  }

  /** A known device that is not LoRaRAW: it is reached exactly when it is described, its decoder runs
      exactly when its length check accepts the frame, and then on the very bytes received, which are
      also the ones published. */
  lemma KnownLegacyDevice(config: Config, frame: seq<byte>, device: Device)
    requires 5 <= |frame| && config.getDevice(frame[..4]) == Some(device) && !device.isLoRaRaw
    ensures var result := Outcome(config, frame);
            && (Reaches(config, frame, device) <==> device.described)
            && (Emits(config, frame, device) <==> device.described && config.checkLength(device, frame))
            && (result.Dropped? <==> !device.described)
            && (Emits(config, frame, device) ==> result.emission == Some(LegacyUplink(frame)))
            && (device.described ==> result.Accepted? && result.published == frame && !result.legacyDevice)
  {
    hide LoRaRawOutcome;
  }

  /** A LoRaRAW device whose configured key is not even hex decodes nothing that is addressed to it, plain
      or not. */
  lemma UndecodableKey(config: Config, frame: seq<byte>, device: Device)
    requires 5 <= |frame| && config.getDevice(frame[..4]) == Some(device) && device.isLoRaRaw && !device.keyDecodes
    ensures Outcome(config, frame).Dropped?
  {}

  /** The same on the receive buffer, which is left as it was. */
  method DispatchKnownLegacy(config: Config, frame: array<byte>) returns (result: DispatchResult)
    requires 5 <= frame.Length
    requires var device := config.getDevice(frame[..4]); device.Some? && device.value.described && !device.value.isLoRaRaw
    modifies frame
    ensures frame[..] == old(frame[..])
    ensures var device := config.getDevice(old(frame[..4])).value;
            result == Accepted(device, if config.checkLength(device, frame[..]) then Some(LegacyUplink(frame[..])) else None, frame[..], false)
  {
    hide Outcome;
    ghost var received := frame[..];
    assert received[..4] == frame[..4];
    KnownLegacyDevice(config, received, config.getDevice(frame[..4]).value);
    result := DispatchFrame(config, frame);
  }

  /** A frame encrypted under the default key for a device whose address that hides: the device's decoder
      gets, and MQTT is sent, the plaintext blocks, the tail and the received trailer -- whatever its
      model, if its length check accepts them. */
  lemma LegacyFrameDelivered(config: Config, device: Device, blocks: seq<byte>, tail: seq<byte>, trailer: seq<byte>)
    requires Inverts(config.suite, config.defaultKey) && ValidKey(config.defaultKey)
    requires |blocks| % 16 == 0 && 16 <= |blocks| && |tail| < 16 && |trailer| == 2
    requires var wire := LegacyWire(config, blocks, tail, trailer);
             config.getDevice(wire[..4]).None? && wire[..4] != blocks[..4]
    requires config.getDevice(blocks[..4]) == Some(device) && device.described
    ensures var plain := blocks + tail + trailer;
            Outcome(config, LegacyWire(config, blocks, tail, trailer))
            == Accepted(device, if config.checkLength(device, plain) then Some(LegacyUplink(plain)) else None, plain, true)
  {
    hide LegacyRewrite, LegacyWire;
    LegacyRoundTrip(config, blocks, tail, trailer);
    assert (blocks + tail + trailer)[..4] == blocks[..4];
  }

  /** A frame of an unknown address is dropped unless the legacy fallback names a described device; one
      shorter than five bytes always is. */
  lemma DroppedUnlessKnown(config: Config, frame: seq<byte>)
    ensures |frame| < 5 ==> Outcome(config, frame).Dropped?
    ensures 5 <= |frame| && config.getDevice(frame[..4]).None? ==>
              (!Outcome(config, frame).Dropped? <==> exists device: Device :: LegacyNames(config, frame, device) && device.described)
  {
    hide LegacyRewrite, LegacyAddress;
    if 5 <= |frame| {
      RewrittenAddress(config, frame);
      if LegacyRewrite(config, frame).Some? && config.getDevice(frame[..4]).None? && config.getDevice(LegacyAddress(config, frame)).Some? {
        assert LegacyNames(config, frame, config.getDevice(LegacyAddress(config, frame)).value);
      }
    }
  }

  /** For a model that allows plaintext, a frame whose length matches its inner length n is decoded
      as plaintext exactly when n is 1 or n mod 16 is not 1; the others need a MAC and their
      plaintext is lost. */
  lemma PlaintextPath(config: Config, frame: seq<byte>, device: Device)
    requires 5 <= |frame| && config.getDevice(frame[..4]) == Some(device)
    requires device.described && device.keyDecodes && device.isLoRaRaw && device.allowUnencrypted && IsUnencryptedLoRaRaw(frame)
    ensures var n := InnerPayloadLength(frame);
            if n == 1 || n % 16 != 1 then Outcome(config, frame) == Accepted(device, Some(Uplink(StripPayload(frame))), frame, false)
            else !Outcome(config, frame).Dropped? <==> OpensWith(config.suite, device.key, frame)
  {
    PlainLookingEncrypted(frame);
  }

  /** The decoder a frame's opts select: 0 and 1 are uplinks, 4 is a RESPONSE. */
  function Selected(opts: byte, nonce: byte, payload: seq<byte>): Option<Emission>
  {
    if opts <= 1 then Some(Uplink(payload)) else if opts == 4 then Some(Response(payload, nonce)) else None
  }

  /** A frame built by Encrypt under the device's key is accepted: its payload reaches the decoder its
      opts select, and the frame published is the plaintext frame with the true RSSI and SNR. Only a
      RESPONSE to a model without a response decoder is not. */
  lemma EncryptedFrameDelivered(config: Config, device: Device, address: seq<byte>, opts: byte, nonce: byte, payload: seq<byte>, trailer: seq<byte>)
    requires |address| == 4 && |trailer| == 2 && |payload| <= 255
    requires config.getDevice(address) == Some(device) && device.described && device.isLoRaRaw
    requires device.keyDecodes && ValidKey(device.key) && Inverts(config.suite, device.key)
    ensures Outcome(config, Wire(config.suite, device.key, address, opts, nonce, payload, trailer))
            == if opts == 4 && !device.decodesResponses then NilDecoder(device)
               else Accepted(device, Selected(opts, nonce, payload), PlainFrame(address, opts, nonce, payload, trailer), false)
  {
    hide Opened, OpensWith, Sealed, Inner, StripPayload, Rebuilt, PlainFrame;
    var wire := Wire(config.suite, device.key, address, opts, nonce, payload, trailer);
    RepublishedIsPlain(config.suite, device.key, address, opts, nonce, payload, trailer);
    WireAddress(config.suite, device.key, address, opts, nonce, payload, trailer);
  }

  /** What a sealed frame with an arbitrary inner length byte n hands on: nothing when n passes the
      length check, which counts two bytes too many; otherwise n bytes, and the last of them are MAC
      bytes exactly when n exceeds what was sealed. */
  lemma MacBytesHandedOn(suite: Suite, key: seq<byte>, address: seq<byte>, inner: seq<byte>)
    requires Inverts(suite, key) && |address| == 4 && |inner| % 16 == 0 && 16 <= |inner|
    ensures var frame := Sealed(suite, key, address, inner);
            var n: nat, room, mac := inner[2], |inner| - 3, frame[|frame| - 4..];
            OpenedEmission(Opened(suite, key, frame))
            == if n > room + 2 then None
               else if n > room then Selected(inner[0], inner[1], inner[3..] + mac[..n - room])
               else Selected(inner[0], inner[1], inner[3..3 + n])
  {
    hide Sealed, Opened, MacVerifies;
    SealedOpens(suite, key, address, inner);
    var frame := Sealed(suite, key, address, inner);
    var plain := Opened(suite, key, frame);
    LengthCheckSlack(plain);
    var n: nat, room, mac := inner[2], |inner| - 3, frame[|frame| - 4..];
    assert plain[4] == inner[0] && plain[5] == inner[1] && plain[6] == inner[2];
    assert plain[7..] == inner[3..] + mac;
    if n <= room + 2 {
      assert StripPayload(plain) == plain[7..][..n] == (inner[3..] + mac)[..n];
      if n > room {
        assert (inner[3..] + mac)[..n] == inner[3..] + mac[..n - room];
      } else {
        assert (inner[3..] + mac)[..n] == inner[3..3 + n];
      }
    }
  }

  /** What is published for a sealed frame with an arbitrary inner length byte n: the plaintext frame up to
      n bytes of payload, which may take in the MAC; past its end, the frame as it was received. */
  lemma PublishedFrame(config: Config, device: Device, address: seq<byte>, inner: seq<byte>, trailer: seq<byte>)
    requires |address| == 4 && |trailer| == 2 && |inner| % 16 == 0 && 16 <= |inner|
    requires config.getDevice(address) == Some(device) && device.described && device.isLoRaRaw && device.decodesResponses
    requires device.keyDecodes && ValidKey(device.key) && Inverts(config.suite, device.key)
    ensures var sealed := Sealed(config.suite, device.key, address, inner);
            var n: nat, room, mac := inner[2], |inner| - 3, sealed[|sealed| - 4..];
            var result := Outcome(config, sealed + trailer);
            && result.Accepted? && result.device == device && !result.legacyDevice
            && result.published
               == if n <= room + 4 then address + inner[..3] + (inner[3..] + mac)[..n] + trailer else sealed + trailer
  {
    hide Sealed, Opened, MacVerifies, OpenedEmission;
    var sealed := Sealed(config.suite, device.key, address, inner);
    SealedOpens(config.suite, device.key, address, inner);
    SealedAddress(config.suite, device.key, address, inner);
    var wire := sealed + trailer;
    var n: nat, mac := inner[2], sealed[|sealed| - 4..];
    assert wire[..|wire| - 2] == sealed && wire[|wire| - 2..] == trailer;
    assert wire[..4] == sealed[..4];
    var plain := Opened(config.suite, device.key, sealed);
    assert plain[6] == n && plain[7..] == inner[3..] + mac;
    if n <= |inner| + 1 {
      assert plain[..7 + n] == address + inner[..3] + (inner[3..] + mac)[..n];
    }
  }

  /** It happens: an authentic frame that announces 15 bytes where 13 were sealed is accepted, and two
      bytes of its own MAC are decoded as payload. */
  lemma MacBytesExample(config: Config, device: Device, address: seq<byte>, trailer: seq<byte>)
    requires |address| == 4 && |trailer| == 2
    requires config.getDevice(address) == Some(device) && device.described && device.isLoRaRaw
    requires device.keyDecodes && ValidKey(device.key) && Inverts(config.suite, device.key)
    ensures var sealed := Sealed(config.suite, device.key, address, [0, 0, 15] + seq(13, _ => 0));
            var result := Outcome(config, sealed + trailer);
            && result.Accepted? && result.device == device
            && result.emission == Some(Uplink(seq(13, _ => 0) + sealed[|sealed| - 4..][..2]))
  {
    hide Sealed, Opened, MacVerifies, OpenedEmission, Rebuilt;
    var inner: seq<byte> := [0, 0, 15] + seq(13, _ => 0);
    var sealed := Sealed(config.suite, device.key, address, inner);
    SealedOpens(config.suite, device.key, address, inner);
    MacBytesHandedOn(config.suite, device.key, address, inner);
    var wire := sealed + trailer;
    assert wire[..|wire| - 2] == sealed;
    assert inner[3..] == seq(13, _ => 0);
    SealedAddress(config.suite, device.key, address, inner);
    assert wire[..4] == sealed[..4];
  }

  lemma SealedAddress(suite: Suite, key: seq<byte>, address: seq<byte>, inner: seq<byte>)
    requires |address| == 4 && |inner| % 16 == 0 && 16 <= |inner|
    ensures 4 <= |Sealed(suite, key, address, inner)| && Sealed(suite, key, address, inner)[..4] == address
  {}

  lemma WireAddress(suite: Suite, key: seq<byte>, address: seq<byte>, opts: byte, nonce: byte, payload: seq<byte>, trailer: seq<byte>)
    requires |address| == 4
    ensures var wire := Wire(suite, key, address, opts, nonce, payload, trailer); 5 <= |wire| && wire[..4] == address
  {}

  /** The published plaintext frame, fed back in for a model that allows plaintext, gives the same
      uplink payload exactly when it does not look like a ciphertext (or, looking like one, happens
      to open to that payload). */
  lemma PublishedFrameDecodesAgain(config: Config, device: Device, address: seq<byte>, opts: byte, nonce: byte, payload: seq<byte>, trailer: seq<byte>)
    requires |address| == 4 && |trailer| == 2 && |payload| <= 255
    requires config.getDevice(address) == Some(device) && device.described && device.keyDecodes && device.isLoRaRaw && device.allowUnencrypted
    ensures var frame := PlainFrame(address, opts, nonce, payload, trailer);
            if |payload| == 1 || |payload| % 16 != 1 then Outcome(config, frame) == Accepted(device, Some(Uplink(payload)), frame, false)
            else !Outcome(config, frame).Dropped? <==> OpensWith(config.suite, device.key, frame)
  {
    hide OpensWith, Outcome;
    var frame := PlainFrame(address, opts, nonce, payload, trailer);
    assert frame[..4] == address && frame[6] == |payload|;
    assert frame[7..7 + |payload|] == payload;
    PlaintextPath(config, frame, device);
  }
}
