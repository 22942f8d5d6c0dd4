/** The LoRaRAW frame layout, with the classifiers the dispatcher uses and the plaintext frame it
    republishes. */
module LoRaRawFrame {
  import opened Words
  import opened Wrappers
  import opened Cbc
  import opened AesUtils
  import opened Slices

  const LORARAW_OPTS_POSITION: nat := 4
  const LORARAW_NONCE_POSITION: nat := 5
  const LORARAW_LENGTH_POSITION: nat := 6
  const LORARAW_PAYLOAD_START: nat := 7

  const LORARAW_OPTS_UNCONFIRMED_UPLINK: byte := 0
  const LORARAW_OPTS_CONFIRMED_UPLINK: byte := 1
  const LORARAW_OPTS_REQUEST: byte := 3
  const LORARAW_OPTS_RESPONSE: byte := 4

  function InnerPayloadLength(data: seq<byte>): nat
    requires LORARAW_LENGTH_POSITION < |data|
  {
    data[LORARAW_LENGTH_POSITION]
  }

  /** The inner length fits the frame, counted as if only RSSI and SNR followed the payload. */
  predicate CheckPayloadLength(data: seq<byte>)
    requires LORARAW_LENGTH_POSITION < |data|
  {
    InnerPayloadLength(data) <= |data| - 9
  }

  function StripPayload(data: seq<byte>): seq<byte>
    requires LORARAW_LENGTH_POSITION < |data| && LORARAW_PAYLOAD_START + InnerPayloadLength(data) <= |data|
  {
    data[LORARAW_PAYLOAD_START..LORARAW_PAYLOAD_START + InnerPayloadLength(data)]
  }

  /** After address, MAC, RSSI and SNR, a positive whole number of blocks is left. */
  predicate IsEncryptionShaped(data: seq<byte>)
  {
    var inner := |data| - 2 - LORA_RAW_HEADER_LEN - LORA_RAW_CMAC_LEN;
    inner > 0 && inner % BLOCK_SIZE == 0
  }

  /** The frame is exactly header, payload of the inner length, RSSI and SNR. */
  predicate IsUnencryptedLoRaRaw(data: seq<byte>)
  {
    |data| >= LORARAW_PAYLOAD_START + 2 && |data| == LORARAW_PAYLOAD_START + InnerPayloadLength(data) + 2
  }

  /** tryDecryptLoRaRAWPkt: a frame with RSSI and SNR at its end, decrypted in place. */
  method TryDecryptLoRaRawPkt(suite: Suite, frame: array<byte>, key: seq<byte>) returns (plain: Result<Slice>)
    modifies frame
    ensures plain.Ok? <==> OpensWith(suite, key, old(frame[..]))
    ensures plain.Err? ==> frame[..] == old(frame[..])
    ensures plain.Ok? ==>
              && plain.value == Slice(frame, 0, frame.Length - 2)
              && plain.value.Bytes() == Opened(suite, key, old(frame[..frame.Length - 2]))
              && frame[..4] == old(frame[..4])
              && frame[frame.Length - 6..] == old(frame[frame.Length - 6..])
  {
    if !IsEncryptionShaped(frame[..]) {
      return Err;
    }
    assert frame[..][..frame.Length - 2] == frame[0..frame.Length - 2];
    plain := Decrypt(suite, Slice(frame, 0, frame.Length - 2), key);
    assert plain.Ok? ==> frame[frame.Length - 6..] == old(frame[frame.Length - 6..]) by {
      assert frame.Length - 6 == 0 + (frame.Length - 2) - 4;
    }
  }

  /** The frame is shaped like a ciphertext and its MAC verifies under the key. */
  predicate OpensWith(suite: Suite, key: seq<byte>, frame: seq<byte>)
  {
    IsEncryptionShaped(frame) && ValidKey(key) && MacVerifies(suite, key, frame[..|frame| - 2])
  }

  /** The plaintext frame: decrypted header and payload, then the trailer of the frame received. */
  function Rebuilt(decoded: seq<byte>, original: seq<byte>): Result<seq<byte>>
  {
    if |original| < 2 || |decoded| < LORARAW_PAYLOAD_START then Err
    else if |decoded| < LORARAW_PAYLOAD_START + InnerPayloadLength(decoded) then Err
    else Ok(decoded[..LORARAW_PAYLOAD_START + InnerPayloadLength(decoded)] + original[|original| - 2..])
  }

  /** Reads both frames as they are when it is called, decrypted in place or not. */
  method BuildUnencryptedRawFrame(decoded: Slice, original: array<byte>) returns (frame: Result<seq<byte>>)
    requires decoded.Valid()
    ensures frame == Rebuilt(decoded.Bytes(), original[..])
  {
    if original.Length < 2 {
      return Err;
    }
    if decoded.len < LORARAW_PAYLOAD_START {
      return Err;
    }
    var innerLen := decoded.arr[decoded.off + LORARAW_LENGTH_POSITION];
    assert innerLen == decoded.Bytes()[LORARAW_LENGTH_POSITION];
    if decoded.len < LORARAW_PAYLOAD_START + innerLen {
      return Err;
    }
    var out: seq<byte> := [];
    ghost var all := decoded.arr[..];
    assert decoded.Bytes() == all[decoded.off..decoded.off + decoded.len];
    WindowPrefix(all, decoded.off, decoded.len, LORARAW_PAYLOAD_START + innerLen);
    assert decoded.arr[decoded.off..decoded.off + (LORARAW_PAYLOAD_START + innerLen)]
           == decoded.Bytes()[..LORARAW_PAYLOAD_START + innerLen];
    out := out + decoded.arr[decoded.off..decoded.off + (LORARAW_PAYLOAD_START + innerLen)];
    assert out == decoded.Bytes()[..LORARAW_PAYLOAD_START + innerLen];
    assert original[..][original.Length - 2..] == original[original.Length - 2..];
    out := out + original[original.Length - 2..];
    frame := Ok(out);
  }

  lemma WindowPrefix(whole: seq<byte>, o: nat, n: nat, k: nat)
    requires o + n <= |whole| && k <= n
    ensures whole[o..o + n][..k] == whole[o..o + k]
  {}

  /** The plaintext frame a source without encryption would have sent. */
  function PlainFrame(address: seq<byte>, opts: byte, nonce: byte, payload: seq<byte>, trailer: seq<byte>): seq<byte>
  {
    address + [opts, nonce, ToByte(|payload|)] + payload + trailer
  }

  /** An encrypted frame with a radio trailer, as it arrives. */
  function Wire(suite: Suite, key: seq<byte>, address: seq<byte>, opts: byte, nonce: byte, payload: seq<byte>, trailer: seq<byte>): seq<byte>
  {
    Sealed(suite, key, address, Inner(opts, nonce, payload)) + trailer
  }

  // ------------------------------------------------------------------ round trips

  /** Opening a sealed frame: the MAC verifies and the inner bytes are back between address and MAC. */
  lemma SealedOpens(suite: Suite, key: seq<byte>, address: seq<byte>, inner: seq<byte>)
    requires Inverts(suite, key) && |address| == 4 && |inner| % 16 == 0 && 16 <= |inner|
    ensures var frame := Sealed(suite, key, address, inner);
            && |frame| == |inner| + 8
            && MacVerifies(suite, key, frame)
            && Opened(suite, key, frame) == address + inner + frame[|frame| - 4..]
  {
    var frame := Sealed(suite, key, address, inner);
    var body := address + CbcEncrypt(suite, key, IV, inner);
    assert frame[..|frame| - 4] == body && frame[|frame| - 4..] == Mac4(suite, key, body);
    assert frame[..4] == address;
    assert frame[4..|frame| - 4] == CbcEncrypt(suite, key, IV, inner);
    CbcRoundTrip(suite, key, IV, inner);
  }

  /** Decrypting what Encrypt built: the MAC verifies, opts and nonce come back, the length check
      passes, and stripping gives the payload back exactly when it is at most 255 bytes long. */
  lemma FrameRoundTrip(suite: Suite, key: seq<byte>, address: seq<byte>, opts: byte, nonce: byte, payload: seq<byte>)
    requires Inverts(suite, key) && |address| == 4
    ensures var frame := Sealed(suite, key, address, Inner(opts, nonce, payload));
            && 24 <= |frame| && (|frame| - 8) % 16 == 0 && MacVerifies(suite, key, frame)
            && var plain := Opened(suite, key, frame);
            && plain[..4] == address && plain[4] == opts && plain[5] == nonce
            && CheckPayloadLength(plain)
            && (StripPayload(plain) == payload <==> |payload| <= 255)
            && (|payload| <= 255 ==> plain[..7 + |payload|] == address + [opts, nonce, ToByte(|payload|)] + payload)
  {
    hide Sealed, Opened, MacVerifies, PadLength;
    var inner := Inner(opts, nonce, payload);
    SealedOpens(suite, key, address, inner);
    var frame := Sealed(suite, key, address, inner);
    var plain := Opened(suite, key, frame);
    var header: seq<byte> := [opts, nonce, ToByte(|payload|)];
    PlainParts(plain, address, header, payload, inner[3 + |payload|..], frame[|frame| - 4..]);
  }

  /** The parts of a decrypted frame. */
  lemma PlainParts(plain: seq<byte>, address: seq<byte>, header: seq<byte>, payload: seq<byte>, pad: seq<byte>, mac: seq<byte>)
    requires plain == address + (header + payload + pad) + mac && |address| == 4 && |header| == 3
    ensures plain[..4] == address && plain[4] == header[0] && plain[5] == header[1] && plain[6] == header[2]
    ensures plain[7..7 + |payload|] == payload && plain[..7 + |payload|] == address + header + payload
  {
    assert plain == address + header + payload + (pad + mac);
  }

  /** A decrypted frame with these opts, nonce and payload. */
  predicate Contains(plain: seq<byte>, opts: byte, nonce: byte, payload: seq<byte>)
  {
    && 9 <= |plain| && CheckPayloadLength(plain)
    && plain[LORARAW_OPTS_POSITION] == opts && plain[LORARAW_NONCE_POSITION] == nonce && StripPayload(plain) == payload
  }

  /** A frame built by Encrypt and received with its trailer opens under the same key, and the frame
      republished for it is the plaintext frame: recognised as one, and stripping to the payload. */
  lemma RepublishedIsPlain(suite: Suite, key: seq<byte>, address: seq<byte>, opts: byte, nonce: byte, payload: seq<byte>, trailer: seq<byte>)
    requires Inverts(suite, key) && ValidKey(key) && |address| == 4 && |trailer| == 2 && |payload| <= 255
    ensures var wire := Wire(suite, key, address, opts, nonce, payload, trailer);
            && OpensWith(suite, key, wire)
            && var plain := Opened(suite, key, wire[..|wire| - 2]);
            && Contains(plain, opts, nonce, payload)
            && Rebuilt(plain, wire) == Ok(PlainFrame(address, opts, nonce, payload, trailer))
    ensures var frame := PlainFrame(address, opts, nonce, payload, trailer);
            IsUnencryptedLoRaRaw(frame) && StripPayload(frame) == payload
  {
    hide Sealed, Opened, Inner, MacVerifies;
    var wire := Wire(suite, key, address, opts, nonce, payload, trailer);
    var frame := Sealed(suite, key, address, Inner(opts, nonce, payload));
    FrameRoundTrip(suite, key, address, opts, nonce, payload);
    assert wire[..|wire| - 2] == frame && wire[|wire| - 2..] == trailer;
    var republished := PlainFrame(address, opts, nonce, payload, trailer);
    assert republished[6] == |payload|;
    assert republished[7..7 + |payload|] == payload;
  }

  /** Which plaintext frames are taken for ciphertexts: those of payload length 17, 33, 49, ... */
  lemma PlainLookingEncrypted(frame: seq<byte>)
    requires IsUnencryptedLoRaRaw(frame)
    ensures var n := InnerPayloadLength(frame);
            IsEncryptionShaped(frame) <==> n != 1 && n % 16 == 1
  {
    var n: int := InnerPayloadLength(frame);
    assert |frame| - 10 == n - 1;
  }

  /** The length check on a decrypted frame lets a payload reach two bytes into the MAC, no further. */
  lemma LengthCheckSlack(plain: seq<byte>)
    requires 24 <= |plain|
    ensures CheckPayloadLength(plain) <==> LORARAW_PAYLOAD_START + InnerPayloadLength(plain) <= (|plain| - 4) + 2
  {}
}
