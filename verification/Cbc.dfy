/** Cipher block chaining (section 6.2 of NIST SP 800-38A) and the frame MAC, over an abstract
    block cipher. */
module Cbc {
  import opened Words

  const BLOCK_SIZE: nat := 16

  type Block = b: seq<byte> | |b| == 16 witness [0, 0, 0, 0, 0, 0, 0, 0, 0, 0, 0, 0, 0, 0, 0, 0]

  const IV: Block := [0, 0, 0, 0, 0, 0, 0, 0, 0, 0, 0, 0, 0, 0, 0, 0]

  /** The cryptography the frames are built on, one function per primitive and key: nothing is known
      of it but the lengths in these types. */
  datatype Suite = Suite(
    encrypt: (seq<byte>, Block) -> Block,
    decrypt: (seq<byte>, Block) -> Block,
    cmac: (seq<byte>, seq<byte>) -> Block)

  /** Block decryption undoes block encryption under the same key. */
  ghost predicate Inverts(suite: Suite, key: seq<byte>)
  {
    forall block: Block :: suite.decrypt(key, suite.encrypt(key, block)) == block
  }

  /** aes.NewCipher accepts keys of these lengths only. */
  predicate ValidKey(key: seq<byte>)
  {
    |key| == 16 || |key| == 24 || |key| == 32
  }

  function XorByte(a: byte, b: byte): byte
  {
    ToByte(Xor(a, b))
  }

  function XorBlocks(a: Block, b: Block): Block
  {
    seq(16, i requires 0 <= i < 16 => XorByte(a[i], b[i]))
  }

  function CbcEncrypt(suite: Suite, key: seq<byte>, chain: Block, data: seq<byte>): (out: seq<byte>)
    requires |data| % 16 == 0
    ensures |out| == |data|
    decreases |data|
  {
    if data == [] then []
    else
      var block := suite.encrypt(key, XorBlocks(data[..16], chain));
      block + CbcEncrypt(suite, key, block, data[16..])
  }

  function CbcDecrypt(suite: Suite, key: seq<byte>, chain: Block, data: seq<byte>): (out: seq<byte>)
    requires |data| % 16 == 0
    ensures |out| == |data|
    decreases |data|
  {
    if data == [] then []
    else XorBlocks(suite.decrypt(key, data[..16]), chain) + CbcDecrypt(suite, key, data[..16], data[16..])
  }

  lemma XorByteTwice(a: byte, b: byte)
    ensures XorByte(XorByte(a, b), b) == a
  {
    assert Pow2(8) == 256;
    forall j: nat | j < 8
      ensures Bit(XorByte(XorByte(a, b), b), j) == Bit(a, j)
    {
      BitOfToByte(Xor(XorByte(a, b), b), j);
      BitOfXor(XorByte(a, b), b, j);
      BitOfToByte(Xor(a, b), j);
      BitOfXor(a, b, j);
    }
    SameBitsSameWord(XorByte(XorByte(a, b), b), a, 8);
  }

  lemma XorBlocksTwice(a: Block, b: Block)
    ensures XorBlocks(XorBlocks(a, b), b) == a
  {
    hide XorByte;
    forall i | 0 <= i < 16
      ensures XorBlocks(XorBlocks(a, b), b)[i] == a[i]
    {
      XorByteTwice(a[i], b[i]);
    }
  }

  /** CBC decryption undoes CBC encryption from the same chaining block, for any number of blocks. */
  lemma {:induction false} CbcRoundTrip(suite: Suite, key: seq<byte>, chain: Block, data: seq<byte>)
    requires Inverts(suite, key) && |data| % 16 == 0
    ensures CbcDecrypt(suite, key, chain, CbcEncrypt(suite, key, chain, data)) == data
    decreases |data|
  {
    if data != [] {
      hide XorBlocks;
      var block := suite.encrypt(key, XorBlocks(data[..16], chain));
      var out := CbcEncrypt(suite, key, chain, data);
      assert out[..16] == block && out[16..] == CbcEncrypt(suite, key, block, data[16..]);
      XorBlocksTwice(data[..16], chain);
      CbcRoundTrip(suite, key, block, data[16..]);
      assert data == data[..16] + data[16..];
    }
  }

  /** Cipher block chaining, block by block: each block of the output is the cipher of the input block
      xor the output block before it, the first one of the input block xor the chaining block. */
  lemma {:induction false} ChainedBlock(suite: Suite, key: seq<byte>, chain: Block, data: seq<byte>, i: nat)
    requires |data| % 16 == 0 && 16 * (i + 1) <= |data|
    ensures var out := CbcEncrypt(suite, key, chain, data);
            out[16 * i..16 * (i + 1)]
            == suite.encrypt(key, XorBlocks(data[16 * i..16 * (i + 1)], if i == 0 then chain else out[16 * (i - 1)..16 * i]))
    decreases i
  {
    hide XorBlocks;
    var out := CbcEncrypt(suite, key, chain, data);
    var block := suite.encrypt(key, XorBlocks(data[..16], chain));
    var rest := CbcEncrypt(suite, key, block, data[16..]);
    assert out == block + rest && out[..16] == block;
    if i > 0 {
      ChainedBlock(suite, key, block, data[16..], i - 1);
      Shifted(data, data[..16], data[16..], 16 * (i - 1));
      Shifted(out, block, rest, 16 * (i - 1));
      if i > 1 {
        Shifted(out, block, rest, 16 * (i - 2));
      }
    }
  }

  /** And decryption: each block of the output is the deciphered input block xor the input block before. */
  lemma {:induction false} UnchainedBlock(suite: Suite, key: seq<byte>, chain: Block, data: seq<byte>, i: nat)
    requires |data| % 16 == 0 && 16 * (i + 1) <= |data|
    ensures CbcDecrypt(suite, key, chain, data)[16 * i..16 * (i + 1)]
            == XorBlocks(suite.decrypt(key, data[16 * i..16 * (i + 1)]), if i == 0 then chain else data[16 * (i - 1)..16 * i])
    decreases i
  {
    hide XorBlocks;
    var out := CbcDecrypt(suite, key, chain, data);
    var block := XorBlocks(suite.decrypt(key, data[..16]), chain);
    var rest := CbcDecrypt(suite, key, data[..16], data[16..]);
    assert out == block + rest && out[..16] == block;
    if i > 0 {
      UnchainedBlock(suite, key, data[..16], data[16..], i - 1);
      Shifted(data, data[..16], data[16..], 16 * (i - 1));
      Shifted(out, block, rest, 16 * (i - 1));
      if i > 1 {
        Shifted(data, data[..16], data[16..], 16 * (i - 2));
      }
    }
  }

  lemma Shifted(whole: seq<byte>, first: seq<byte>, rest: seq<byte>, from: nat)
    requires whole == first + rest && |first| == 16 && from + 16 <= |rest|
    ensures whole[16 + from..16 + from + 16] == rest[from..from + 16]
  {}

  /** Exclusive or of blocks, bit by bit. */
  lemma XorBlocksBits(a: Block, b: Block, i: nat, j: nat)
    requires i < 16 && j < 8
    ensures Bit(XorBlocks(a, b)[i], j) == (Bit(a[i], j) != Bit(b[i], j))
  {
    BitOfToByte(Xor(a[i], b[i]), j);
    BitOfXor(a[i], b[i], j);
  }

  /** What prepareCMAC feeds the MAC: the first block, then everything after the address, so that
      bytes 4 to 15 are fed twice. */
  function MacInput(data: seq<byte>): seq<byte>
    requires 16 <= |data|
  {
    data[..16] + data[4..]
  }

  /** s is the frame body with its first block in front and its address left out the second time: the
      sixteen bytes of `data[:16]`, then `data[4:]`. */
  ghost predicate IsMacInput(s: seq<byte>, body: seq<byte>)
  {
    && 16 <= |body| && |s| == |body| + 12
    && (forall i | 0 <= i < 16 :: s[i] == body[i])
    && (forall i | 16 <= i < |s| :: s[i] == body[i - 12])
  }

  /** The bytes the MAC is computed over, one by one. */
  lemma MacInputBytes(s: seq<byte>, body: seq<byte>)
    requires 16 <= |body|
    ensures IsMacInput(s, body) <==> s == MacInput(body)
  {
    var t := MacInput(body);
    assert forall i | 16 <= i < |t| :: t[i] == body[4..][i - 16];
    if IsMacInput(s, body) {
      assert forall i | 0 <= i < |s| :: s[i] == t[i];
    }
  }

  function Mac4(suite: Suite, key: seq<byte>, data: seq<byte>): (mac: seq<byte>)
    requires 16 <= |data|
    ensures |mac| == 4
  {
    suite.cmac(key, MacInput(data))[..4]
  }

  /** The MAC covers the whole frame body: different frames of one length give it different input. */
  lemma MacInputInjective(a: seq<byte>, b: seq<byte>)
    requires 16 <= |a| && 16 <= |b|
    ensures MacInput(a) == MacInput(b) <==> a == b
  {
    if MacInput(a) == MacInput(b) {
      assert a[..16] == MacInput(a)[..16] == MacInput(b)[..16] == b[..16];
      assert a[4..] == MacInput(a)[16..] == MacInput(b)[16..] == b[4..];
      assert a == a[..4] + a[4..] && b == b[..4] + b[4..];
      assert a[..4] == a[..16][..4] && b[..4] == b[..16][..4];
    }
  }
}
