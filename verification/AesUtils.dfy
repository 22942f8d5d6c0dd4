/** Building and opening encrypted LoRaRAW frames:
    address | CBC(opts, nonce, length, payload, zero padding) | first four bytes of the CMAC. */
module AesUtils {
  import opened Words
  import opened Wrappers
  import opened Cbc
  import opened Slices

  const LORA_RAW_CMAC_LEN: nat := 4
  const LORA_RAW_HEADER_LEN: nat := 4

  /** The bytes that get encrypted: the inner header with the payload's length modulo 256, the
      payload, and zeros up to a whole block. */
  function Inner(opts: byte, nonce: byte, payload: seq<byte>): (inner: seq<byte>)
    ensures |inner| % 16 == 0 && |payload| + 3 <= |inner| < |payload| + 19
  {
    var data: seq<byte> := [opts, nonce, ToByte(|payload|)] + payload;
    WholeBlock(|data|);
    data + seq(PadLength(|data|), _ => 0)
  }

  /** The bytes that get encrypted, one by one. */
  lemma InnerBytes(opts: byte, nonce: byte, payload: seq<byte>)
    ensures var inner := Inner(opts, nonce, payload);
            && inner[0] == opts && inner[1] == nonce && inner[2] == |payload| % 256
            && (forall i | 0 <= i < |payload| :: inner[3 + i] == payload[i])
            && (forall i | 3 + |payload| <= i < |inner| :: inner[i] == 0)
  {
    hide PadLength;
  }

  /** Bytes missing to a whole number of blocks. */
  function PadLength(n: nat): nat
  {
    (16 - n % 16) % 16
  }

  lemma WholeBlock(n: nat)
    ensures (n + PadLength(n)) % 16 == 0 && PadLength(n) < 16
  {
    var q, r := n / 16, n % 16;
    if r > 0 {
      assert n + PadLength(n) == 16 * (q + 1);
    }
  }

  /** The frame without its MAC, then with it. */
  function Sealed(suite: Suite, key: seq<byte>, address: seq<byte>, inner: seq<byte>): seq<byte>
    requires |inner| % 16 == 0 && 16 <= |inner|
  {
    var body := address + CbcEncrypt(suite, key, IV, inner);
    body + Mac4(suite, key, body)
  }

  method Encrypt(suite: Suite, address: seq<byte>, payload: seq<byte>, key: seq<byte>, opts: byte, nonce: byte)
    returns (frame: Result<seq<byte>>)
    ensures frame == if ValidKey(key) then Ok(Sealed(suite, key, address, Inner(opts, nonce, payload))) else Err
    ensures frame.Ok? ==>
              && 20 <= |frame.value|
              && frame.value[..|frame.value| - 4] == address + CbcEncrypt(suite, key, IV, Inner(opts, nonce, payload))
              && EndsInMac(suite, key, frame.value)
  {
    var lengthInByte: seq<byte> := [ToByte(|payload|)];
    var optsInByte := [opts];
    var nonceInByte := [nonce];
    var data := optsInByte + (nonceInByte + (lengthInByte + payload));
    if !ValidKey(key) {
      return Err;
    }
    if |data| % BLOCK_SIZE != 0 {
      var padding: seq<byte> := seq(BLOCK_SIZE - |data| % BLOCK_SIZE, _ => 0);
      data := data + padding;
    }
    assert data == Inner(opts, nonce, payload);
    var encrypted := CbcEncrypt(suite, key, IV, data);
    var encryptedData := address + encrypted;
    var mac := Mac4(suite, key, encryptedData);
    encryptedData := encryptedData + mac;
    frame := Ok(encryptedData);
    assert encryptedData[..|encryptedData| - 4] == address + encrypted;
    MacVerifiesByBytes(suite, key, encryptedData);
  }

  /** Whether the last four bytes are the MAC of the rest. */
  predicate MacVerifies(suite: Suite, key: seq<byte>, frame: seq<byte>)
    requires 20 <= |frame|
  {
    frame[|frame| - 4..] == Mac4(suite, key, frame[..|frame| - 4])
  }

  /** The last four bytes are the first four of the CMAC of the rest, fed as IsMacInput says. */
  ghost predicate EndsInMac(suite: Suite, key: seq<byte>, frame: seq<byte>)
    requires 20 <= |frame|
  {
    forall s | IsMacInput(s, frame[..|frame| - 4]) :: frame[|frame| - 4..] == suite.cmac(key, s)[..4]
  }

  lemma MacVerifiesByBytes(suite: Suite, key: seq<byte>, frame: seq<byte>)
    requires 20 <= |frame|
    ensures MacVerifies(suite, key, frame) <==> EndsInMac(suite, key, frame)
  {
    hide MacInput, IsMacInput;
    var body := frame[..|frame| - 4];
    forall s: seq<byte>
      ensures IsMacInput(s, body) <==> s == MacInput(body)
    {
      MacInputBytes(s, body);
    }
    assert IsMacInput(MacInput(body), body);
  }

  /** A frame with everything between address and MAC decrypted. */
  function Opened(suite: Suite, key: seq<byte>, frame: seq<byte>): (plain: seq<byte>)
    requires 8 <= |frame| && (|frame| - 8) % 16 == 0
    ensures |plain| == |frame| && plain[..4] == frame[..4] && plain[|frame| - 4..] == frame[|frame| - 4..]
  {
    frame[..4] + CbcDecrypt(suite, key, IV, frame[4..|frame| - 4]) + frame[|frame| - 4..]
  }

  /** Decrypts in place. A valid MAC rewrites exactly the bytes between address and MAC, through the
      caller's own array; anything else changes nothing. Whatever follows the frame in that array
      stays as it was. The caller must offer a whole number of blocks, at least one. */
  method Decrypt(suite: Suite, data: Slice, key: seq<byte>) returns (plain: Result<Slice>)
    requires data.Valid() && 24 <= data.len && (data.len - 8) % 16 == 0
    modifies data.arr
    ensures plain.Ok? <==> ValidKey(key) && MacVerifies(suite, key, old(data.Bytes()))
    ensures plain.Ok? <==> ValidKey(key) && EndsInMac(suite, key, old(data.Bytes()))
    ensures plain.Err? ==> data.arr[..] == old(data.arr[..])
    ensures plain.Ok? ==>
              && plain.value == data
              && data.Bytes() == Opened(suite, key, old(data.Bytes()))
              && data.arr[..data.off + 4] == old(data.arr[..data.off + 4])
              && data.arr[data.off + data.len - 4..] == old(data.arr[data.off + data.len - 4..])
  {
    hide CbcDecrypt, Mac4, MacInput;
    hide CbcDecrypt, Mac4, MacVerifies, Opened, EndsInMac;
    MacVerifiesByBytes(suite, key, data.Bytes());
    if !ValidKey(key) {
      return Err;
    }
    var genuine := CheckMac(suite, data, key);
    if !genuine {
      return Err;
    }
    ghost var before, o, n := data.arr[..], data.off, data.len;
    var cm := data.Sub(data.len - LORA_RAW_CMAC_LEN, data.len);
    var inner := data.Sub(LORA_RAW_HEADER_LEN, data.len - LORA_RAW_CMAC_LEN);
    var decrypted := CbcDecrypt(suite, key, IV, inner.arr[inner.off..inner.off + inner.len]);
    var result := Reassemble(data, cm, decrypted);
    ghost var after := data.arr[..];
    assert after == before[..o + 4] + decrypted + before[o + 4 + |decrypted|..];
    DecryptedWindow(suite, key, before, after, o, n);
    assert data.Bytes() == after[o..o + n];
    plain := Ok(result);
  }

  /** The comparison of the frame's last four bytes with the MAC of the rest. */
  method CheckMac(suite: Suite, data: Slice, key: seq<byte>) returns (genuine: bool)
    requires data.Valid() && 24 <= data.len
    ensures genuine == MacVerifies(suite, key, data.Bytes())
  {
    hide Mac4;
    var cm := data.Sub(data.len - LORA_RAW_CMAC_LEN, data.len);
    var body := data.Sub(0, data.len - LORA_RAW_CMAC_LEN);
    ghost var whole := data.arr[..];
    WindowParts(whole, data.off, data.len);
    assert data.Bytes() == whole[data.off..data.off + data.len];
    assert body.arr[body.off..body.off + body.len] == whole[data.off..data.off + (data.len - 4)];
    assert cm.arr[cm.off..cm.off + cm.len] == whole[data.off + (data.len - 4)..data.off + data.len];
    var cmacTest := Mac4(suite, key, body.arr[body.off..body.off + body.len]);
    genuine := cm.arr[cm.off..cm.off + cm.len] == cmacTest;
  }

  /** An array whose window [o, o + n) has been decrypted in place. */
  lemma DecryptedWindow(suite: Suite, key: seq<byte>, before: seq<byte>, after: seq<byte>, o: nat, n: nat)
    requires o + n <= |before| && 8 <= n && (n - 8) % 16 == 0
    requires var decrypted := CbcDecrypt(suite, key, IV, before[o + 4..o + (n - 4)]);
             after == before[..o + 4] + decrypted + before[o + 4 + |decrypted|..]
    ensures |after| == |before| && after[o..o + n] == Opened(suite, key, before[o..o + n])
    ensures after[..o + 4] == before[..o + 4] && after[o + (n - 4)..] == before[o + (n - 4)..]
  {
    hide CbcDecrypt;
    Rewritten(before, after, o, n, CbcDecrypt(suite, key, IV, before[o + 4..o + (n - 4)]));
    WindowParts(before, o, n);
  }

  /** The header, the decrypted bytes and the MAC appended to each other, in the array they came from. */
  method Reassemble(data: Slice, cm: Slice, decrypted: seq<byte>) returns (result: Slice)
    requires data.Valid() && data.len == |decrypted| + 8 && cm == data.Sub(data.len - LORA_RAW_CMAC_LEN, data.len)
    modifies data.arr
    ensures result == data
    ensures data.arr[..] == old(data.arr[..])[..data.off + 4] + decrypted + old(data.arr[..])[data.off + 4 + |decrypted|..]
  {
    ghost var o, n := data.off, data.len;
    result := Append(data.Sub(0, LORA_RAW_HEADER_LEN), decrypted);
    ghost var middle := data.arr[..];
    assert cm.arr[cm.off..cm.off + cm.len] == middle[o + (n - 4)..o + n];
    result := Append(result, cm.arr[cm.off..cm.off + cm.len]);
    Joined(middle, o, o + 4, o + (n - 4), o + n);
  }

  /** The header, the body and the trailer of a window [o, o + n) of an array. */
  lemma WindowParts(whole: seq<byte>, o: nat, n: nat)
    requires o + n <= |whole| && 8 <= n
    ensures whole[o..o + n][..n - 4] == whole[o..o + (n - 4)]
    ensures whole[o..o + n][n - 4..] == whole[o + (n - 4)..o + n]
    ensures whole[o..o + n][..4] == whole[o..o + 4]
    ensures whole[o..o + n][4..n - 4] == whole[o + 4..o + (n - 4)]
  {}

  lemma Rewritten(before: seq<byte>, after: seq<byte>, o: nat, n: nat, middle: seq<byte>)
    requires o + n <= |before| && |middle| + 8 == n
    requires after == before[..o + 4] + middle + before[o + 4 + |middle|..]
    ensures |after| == |before|
    ensures after[o..o + n] == before[o..o + 4] + middle + before[o + (n - 4)..o + n]
    ensures after[..o + 4] == before[..o + 4] && after[o + (n - 4)..] == before[o + (n - 4)..]
    ensures after[..o + (n - 4)] + after[o + (n - 4)..o + n] + after[o + n..] == after
  {
    assert after[..o + 4] == before[..o + 4];
    assert after[o + 4..o + (n - 4)] == middle;
    assert after[o + (n - 4)..] == before[o + (n - 4)..];
    assert after[o..o + 4] == after[..o + 4][o..] == before[o..o + 4];
    assert after[o + (n - 4)..o + n] == after[o + (n - 4)..][..4] == before[o + (n - 4)..o + n];
    Joined(after, o, o + 4, o + (n - 4), o + n);
  }

  lemma Joined(s: seq<byte>, a: nat, b: nat, c: nat, d: nat)
    requires a <= b <= c <= d <= |s|
    ensures s[a..d] == s[a..b] + s[b..c] + s[c..d]
    ensures s[..c] + s[c..d] + s[d..] == s
  {}

  /** DecryptLegacy: whole blocks decrypted, a shorter tail copied, no MAC. */
  function LegacyOpened(suite: Suite, key: seq<byte>, data: seq<byte>): Result<seq<byte>>
  {
    if |data| < 16 || !ValidKey(key) then Err
    else
      var decLength := |data| - |data| % 16;
      Ok(CbcDecrypt(suite, key, IV, data[..decLength]) + data[decLength..])
  }
}
