/**
The known datagram that pins the implementations to each other: "hello" for the topic "home/x", sealed with the
passphrase "hunter2". Encoding it is proved to give those bytes, from the definitions of the digest, the cipher,
the tag and the checksum.
*/
module PacketVector {
  import opened Options
  import opened Bits
  import opened Words
  import opened MachineWords
  import opened ChaCha20
  import opened ChaChaMachine
  import opened CrcMachine
  import opened Wire
  import opened ShaVectors
  import opened PacketKeystream
  import Aead
  import P = Poly1305
  import L = Poly1305Limbs
  import Sha256
  import TopicHash

  const TOPIC: seq<byte> := [0x68, 0x6f, 0x6d, 0x65, 0x2f, 0x78]
  const PAYLOAD: seq<byte> := [0x68, 0x65, 0x6c, 0x6c, 0x6f]
  const TIMESTAMP: int := 1700000000

  // ---------------------------------------------------------------- the checksum of the topic

  lemma Byte0()
    ensures TopicHash.Steps(Xor(0xffffffff, 0x68), 8) == 0x6e94f918
  {
    hide TopicHash.Steps, Xor;
    ByteMeans(0xffffffff, 0x68,
              0xffffff97, 0x92477ceb, 0xa49b3d55, 0xbff51d8a, 0x5ffa8ec5, 0xc245c442, 0x6122e221, 0xdd29f230, 0x6e94f918);
  }

  lemma Byte1()
    ensures TopicHash.Steps(Xor(0x6e94f918, 0x6f), 8) == 0xce0f7066
  {
    hide TopicHash.Steps, Xor;
    ByteMeans(0x6e94f918, 0x6f,
              0x6e94f977, 0xdaf2ff9b, 0x80c1fced, 0xadd87d56, 0x56ec3eab, 0xc6ce9c75, 0x8edfcd1a, 0x476fe68d, 0xce0f7066);
  }

  lemma Byte2()
    ensures TopicHash.Steps(Xor(0xce0f7066, 0x6d), 8) == 0x971cd6f8
  {
    hide TopicHash.Steps, Xor;
    ByteMeans(0xce0f7066, 0x6d,
              0xce0f700b, 0x8abf3b25, 0xa8e71eb2, 0x54738f59, 0xc781448c, 0x63c0a246, 0x31e05123, 0xf548abb1, 0x971cd6f8);
  }

  lemma Byte3()
    ensures TopicHash.Steps(Xor(0x971cd6f8, 0x65), 8) == 0x8e29f32f
  {
    hide TopicHash.Steps, Xor;
    ByteMeans(0x971cd6f8, 0x65,
              0x971cd69d, 0xa636e86e, 0x531b7437, 0xc435393b, 0x8fa21fbd, 0xaa698cfe, 0x5534c67f, 0xc722e01f, 0x8e29f32f);
  }

  lemma Byte4()
    ensures TopicHash.Steps(Xor(0x8e29f32f, 0x2f), 8) == 0x008e29f3
  {
    hide TopicHash.Steps, Xor;
    ByteMeans(0x8e29f32f, 0x2f,
              0x8e29f300, 0x4714f980, 0x238a7cc0, 0x11c53e60, 0x08e29f30, 0x04714f98, 0x0238a7cc, 0x011c53e6, 0x008e29f3);
  }

  lemma Byte5()
    ensures TopicHash.Steps(Xor(0x008e29f3, 0x78), 8) == 0x7a6ad481
  {
    hide TopicHash.Steps, Xor;
    ByteMeans(0x008e29f3, 0x78,
              0x008e298b, 0xedff97e5, 0x9b4748d2, 0x4da3a469, 0xcb695114, 0x65b4a88a, 0x32da5445, 0xf4d5a902, 0x7a6ad481);
  }

  lemma TopicChecksum()
    ensures TopicHash.Crc32(TOPIC) == 0x85952b7e
  {
    hide TopicHash.Steps, Xor;
    Byte0();
    Byte1();
    Byte2();
    Byte3();
    Byte4();
    Byte5();
    var s := TOPIC;
    assert TopicHash.Fold(0xffffffff, s[0..]) == TopicHash.Fold(0x6e94f918, s[1..]);
    assert TopicHash.Fold(0x6e94f918, s[1..]) == TopicHash.Fold(0xce0f7066, s[2..]);
    assert TopicHash.Fold(0xce0f7066, s[2..]) == TopicHash.Fold(0x971cd6f8, s[3..]);
    assert TopicHash.Fold(0x971cd6f8, s[3..]) == TopicHash.Fold(0x8e29f32f, s[4..]);
    assert TopicHash.Fold(0x8e29f32f, s[4..]) == TopicHash.Fold(0x008e29f3, s[5..]);
    assert TopicHash.Fold(0x008e29f3, s[5..]) == TopicHash.Fold(0x7a6ad481, s[6..]);
  }

  // ---------------------------------------------------------------- the ciphertext

  const PLAINTEXT: seq<byte> := [0x7e, 0x2b, 0x95, 0x85, 0x00, 0xf1, 0x53, 0x65, 0x68, 0x65, 0x6c, 0x6c, 0x6f]
  const CIPHERTEXT: seq<byte> := [0x70, 0xf0, 0x80, 0x85, 0x03, 0x62, 0x61, 0x95, 0x0d, 0x74, 0x97, 0xb3, 0x7a]

  lemma PlaintextIs()
    ensures Plaintext(0x85952b7e, TIMESTAMP, PAYLOAD) == PLAINTEXT
  {
    hide ToLe;
    ToLe4(0x85952b7e);
    ToLe4(TIMESTAMP);
  }

  lemma CiphertextIs()
    ensures XorStream(KEY, 1, NONCE, PLAINTEXT) == CIPHERTEXT
  {
    hide Block, Xor;
    TextBlock();
    MachineXor(0x7e, 0x0e);
    MachineXor(0x2b, 0xdb);
    MachineXor(0x95, 0x15);
    MachineXor(0x85, 0x00);
    MachineXor(0x00, 0x03);
    MachineXor(0xf1, 0x93);
    MachineXor(0x53, 0x32);
    MachineXor(0x65, 0xf0);
    MachineXor(0x68, 0x65);
    MachineXor(0x65, 0x11);
    MachineXor(0x6c, 0xfb);
    MachineXor(0x6c, 0xdf);
    MachineXor(0x6f, 0x15);
    forall i | 0 <= i < 13
      ensures KeystreamByte(KEY, 1, NONCE, i) == TEXT_BLOCK_0[i]
    {
      assert U32(1 + i / 64) == 1 && i % 64 == i;
    }
  }

  // ---------------------------------------------------------------- the tag

  const HEADER: seq<byte> := [0x4d, 0x50, 0x01, 0x00, 0x00, 0x00, 0x00, 0x00, 0x05, 0x00, 0x01, 0x00]
  const MAC_0: seq<byte> := [0x4d, 0x50, 0x01, 0x00, 0x00, 0x00, 0x00, 0x00, 0x05, 0x00, 0x01, 0x00, 0x00, 0x00, 0x00, 0x00]
  const MAC_16: seq<byte> := [0x70, 0xf0, 0x80, 0x85, 0x03, 0x62, 0x61, 0x95, 0x0d, 0x74, 0x97, 0xb3, 0x7a, 0x00, 0x00, 0x00]
  const MAC_32: seq<byte> := [0x0c, 0x00, 0x00, 0x00, 0x00, 0x00, 0x00, 0x00, 0x0d, 0x00, 0x00, 0x00, 0x00, 0x00, 0x00, 0x00]
  const TAG: seq<byte> := [0x76, 0x18, 0x4b, 0x46, 0x59, 0xc2, 0xe3, 0x78, 0xab, 0x63, 0x52, 0x11, 0x55, 0x16, 0xec, 0x59]

  lemma HeaderIs()
    ensures Header(0, RAW, 5, MODE_AEAD) == HEADER
  {
    HeaderBytes(0, RAW, 5, MODE_AEAD);
  }

  lemma MacDataIs()
    ensures Aead.MacData(HEADER, CIPHERTEXT) == MAC_0 + MAC_16 + MAC_32
  {
    hide ToLe;
    assert Aead.Pad16(HEADER) == Zeros(4) && Aead.Pad16(CIPHERTEXT) == Zeros(3);
    FirstPart();
    SecondPart();
    ThirdPart();
    Parts(HEADER, Zeros(4), CIPHERTEXT, Zeros(3), ToLe(12, 8), ToLe(13, 8));
  }

  lemma Parts(a: seq<byte>, b: seq<byte>, c: seq<byte>, d: seq<byte>, e: seq<byte>, f: seq<byte>)
    ensures a + b + c + d + e + f == (a + b) + (c + d) + (e + f)
  {
  }

  lemma FirstPart()
    ensures HEADER + Zeros(4) == MAC_0
  {
  }

  lemma SecondPart()
    ensures CIPHERTEXT + Zeros(3) == MAC_16
  {
  }

  lemma ThirdPart()
    ensures ToLe(12, 8) + ToLe(13, 8) == MAC_32
  {
    LengthIs(12);
    LengthIs(13);
  }

  lemma LengthIs(n: byte)
    ensures ToLe(n, 8) == [n, 0, 0, 0, 0, 0, 0, 0]
  {
    hide ToLe;
    assert ToLe(0, 7) == [0, 0, 0, 0, 0, 0, 0] by {
      ZeroLe(7);
    }
    ToLeStep(n, 8);
    assert n / 256 == 0 && n % 256 == n;
  }

  lemma {:induction false} ZeroLe(n: nat)
    ensures ToLe(0, n) == Zeros(n)
  {
    if n > 0 {
      ZeroLe(n - 1);
    }
  }

  // The clamp, word by word.
  lemma ClampWords(w0: u32, w1: u32, w2: u32, w3: u32)
    ensures And(w0 + TWO32 * (w1 + TWO32 * (w2 + TWO32 * (w3 as int))), L.CLAMP)
            == And(w0, 0x0fff_ffff) + TWO32 * (And(w1, 0x0fff_fffc) + TWO32 * (And(w2, 0x0fff_fffc) + TWO32 * And(w3, 0x0fff_fffc)))
  {
    hide And;
    var x2 := w2 + TWO32 * (w3 as int);
    var x1 := w1 + TWO32 * x2;
    var m2 := 0x0fff_fffc + TWO32 * 0x0fff_fffc;
    var m1 := 0x0fff_fffc + TWO32 * m2;
    AndWords(w2, 0x0fff_fffc, w3, 0x0fff_fffc);
    AndWords(w1, 0x0fff_fffc, x2, m2);
    AndWords(w0, 0x0fff_ffff, x1, m1);
    assert L.CLAMP == 0x0fff_ffff + TWO32 * m1;
  }

  lemma AndWords(a: u32, b: u32, c: nat, d: nat)
    ensures And(a + TWO32 * c, b + TWO32 * d) == And(a, b) + TWO32 * And(c, d)
  {
    hide And, Pow2;
    Pow2Values();
    AndSplit(a, b, c, d, 32);
  }

  lemma MasksAre()
    ensures And(0xeda2ed90, 0x0fff_ffff) == 0x0da2ed90 && And(0x23b3b1f6, 0x0fff_fffc) == 0x03b3b1f4
    ensures And(0xcd299f05, 0x0fff_fffc) == 0x0d299f04 && And(0xb40d20d5, 0x0fff_fffc) == 0x040d20d4
  {
    hide And;
    MachineAnd(0xeda2ed90, 0x0fff_ffff);
    MachineAnd(0x23b3b1f6, 0x0fff_fffc);
    MachineAnd(0xcd299f05, 0x0fff_fffc);
    MachineAnd(0xb40d20d5, 0x0fff_fffc);
  }

  lemma ClampedIs(otk: seq<byte>)
    requires |otk| == 32 && otk[..16] == KEY_BLOCK_0
    ensures P.ClampedKey(otk) == 0x40d20d40d299f0403b3b1f40da2ed90
  {
    hide And, Load32, FromLe;
    L.FromLeSixteen(KEY_BLOCK_0);
    KeyWords();
    ClampWords(0xeda2ed90, 0x23b3b1f6, 0xcd299f05, 0xb40d20d5);
    MasksAre();
  }

  lemma KeyWords()
    ensures Load32(KEY_BLOCK_0, 0) == 0xeda2ed90 && Load32(KEY_BLOCK_0, 4) == 0x23b3b1f6
    ensures Load32(KEY_BLOCK_0, 8) == 0xcd299f05 && Load32(KEY_BLOCK_0, 12) == 0xb40d20d5
  {
  }

  // One block of the tag's sum, by its words.
  lemma AbsorbIs(r: nat, acc: nat, b: seq<byte>, w0: nat, w1: nat, w2: nat, w3: nat)
    requires |b| == 16 && Load32(b, 0) == w0 && Load32(b, 4) == w1 && Load32(b, 8) == w2 && Load32(b, 12) == w3
    ensures P.AbsorbBlock(r, acc, b)
            == (acc + (w0 + 0x1_0000_0000 * w1 + 0x1_0000_0000_0000_0000 * w2 + 0x1_0000_0000_0000_0000_0000_0000 * w3
                       + 0x1_0000_0000_0000_0000_0000_0000_0000_0000)) * r % L.P
  {
    hide FromLe, Pow2, Load32;
    P.FromLeWithOne(b);
    L.FromLeSixteen(b);
    Pow2Values();
  }

  lemma Quads0()
    ensures Words.Quad(0x7a, 0x00, 0x00, 0x00) == 0x0000007a
    ensures Words.Quad(0x70, 0xf0, 0x80, 0x85) == 0x8580f070
  {
  }

  lemma Quads2()
    ensures Words.Quad(0x4d, 0x50, 0x01, 0x00) == 0x0001504d
    ensures Words.Quad(0x0d, 0x74, 0x97, 0xb3) == 0xb397740d
  {
  }

  lemma Quads4()
    ensures Words.Quad(0x0d, 0x00, 0x00, 0x00) == 0x0000000d
    ensures Words.Quad(0x0c, 0x00, 0x00, 0x00) == 0x0000000c
  {
  }

  lemma Quads6()
    ensures Words.Quad(0x05, 0x00, 0x01, 0x00) == 0x00010005
    ensures Words.Quad(0x03, 0x62, 0x61, 0x95) == 0x95616203
  {
  }

  lemma Quads8()
    ensures Words.Quad(0x00, 0x00, 0x00, 0x00) == 0x00000000
  {
  }

  lemma Loads0()
    ensures Load32(MAC_0, 0) == 0x0001504d && Load32(MAC_0, 4) == 0x00000000 && Load32(MAC_0, 8) == 0x00010005 && Load32(MAC_0, 12) == 0x00000000
  {
    hide Words.Quad;
    Quads2();
    Quads6();
    Quads8();
    var b := MAC_0;
    assert Load32(b, 0) == Words.Quad(0x4d, 0x50, 0x01, 0x00);
    assert Load32(b, 4) == Words.Quad(0x00, 0x00, 0x00, 0x00);
    assert Load32(b, 8) == Words.Quad(0x05, 0x00, 0x01, 0x00);
    assert Load32(b, 12) == Words.Quad(0x00, 0x00, 0x00, 0x00);
  }

  lemma Absorb0()
    ensures P.AbsorbBlock(0x40d20d40d299f0403b3b1f40da2ed90, 0x0, MAC_0) == 0x23c90217ed86cc8b67d9894605be34a62
  {
    hide P.AbsorbBlock, Load32;
    Loads0();
    AbsorbIs(0x40d20d40d299f0403b3b1f40da2ed90, 0x0, MAC_0, 0x0001504d, 0x00000000, 0x00010005, 0x00000000);
  }

  lemma Loads1()
    ensures Load32(MAC_16, 0) == 0x8580f070 && Load32(MAC_16, 4) == 0x95616203 && Load32(MAC_16, 8) == 0xb397740d && Load32(MAC_16, 12) == 0x0000007a
  {
    hide Words.Quad;
    Quads0();
    Quads2();
    Quads6();
    var b := MAC_16;
    assert Load32(b, 0) == Words.Quad(0x70, 0xf0, 0x80, 0x85);
    assert Load32(b, 4) == Words.Quad(0x03, 0x62, 0x61, 0x95);
    assert Load32(b, 8) == Words.Quad(0x0d, 0x74, 0x97, 0xb3);
    assert Load32(b, 12) == Words.Quad(0x7a, 0x00, 0x00, 0x00);
  }

  lemma Absorb1()
    ensures P.AbsorbBlock(0x40d20d40d299f0403b3b1f40da2ed90, 0x23c90217ed86cc8b67d9894605be34a62, MAC_16) == 0x26fb7998dc41457a31c9b79fbacd8a6ec
  {
    hide P.AbsorbBlock, Load32;
    Loads1();
    AbsorbIs(0x40d20d40d299f0403b3b1f40da2ed90, 0x23c90217ed86cc8b67d9894605be34a62, MAC_16, 0x8580f070, 0x95616203, 0xb397740d, 0x0000007a);
  }

  lemma Loads2()
    ensures Load32(MAC_32, 0) == 0x0000000c && Load32(MAC_32, 4) == 0x00000000 && Load32(MAC_32, 8) == 0x0000000d && Load32(MAC_32, 12) == 0x00000000
  {
    hide Words.Quad;
    Quads4();
    Quads8();
    var b := MAC_32;
    assert Load32(b, 0) == Words.Quad(0x0c, 0x00, 0x00, 0x00);
    assert Load32(b, 4) == Words.Quad(0x00, 0x00, 0x00, 0x00);
    assert Load32(b, 8) == Words.Quad(0x0d, 0x00, 0x00, 0x00);
    assert Load32(b, 12) == Words.Quad(0x00, 0x00, 0x00, 0x00);
  }

  lemma Absorb2()
    ensures P.AbsorbBlock(0x40d20d40d299f0403b3b1f40da2ed90, 0x26fb7998dc41457a31c9b79fbacd8a6ec, MAC_32) == 0x7c270da0fb860f47204c2b918456c0aa
  {
    hide P.AbsorbBlock, Load32;
    Loads2();
    AbsorbIs(0x40d20d40d299f0403b3b1f40da2ed90, 0x26fb7998dc41457a31c9b79fbacd8a6ec, MAC_32, 0x0000000c, 0x00000000, 0x0000000d, 0x00000000);
  }

  lemma TagIs(otk: seq<byte>)
    requires |otk| == 32 && otk[..16] == KEY_BLOCK_0 && otk[16..] == KEY_BLOCK_16
    ensures P.PolyTag(otk, MAC_0 + MAC_16 + MAC_32) == TAG
  {
    hide P.AbsorbBlock, P.ClampedKey, ToLe, FromLe, Load32;
    ClampedIs(otk);
    Absorb0();
    Absorb1();
    Absorb2();
    ThreeBlocks(0x40d20d40d299f0403b3b1f40da2ed90, MAC_0, MAC_16, MAC_32);
    LastWords();
    L.FromLeSixteen(KEY_BLOCK_16);
    L.FromLeSixteen(TAG);
    ToLeFromLe(TAG);
    assert (0x7c270da0fb860f47204c2b918456c0aa + 0xddc508b415cc5464589796c7c1f457cc) % L.TWO128 == 0x59ec1655115263ab78e3c259464b1876;
  }

  lemma LastWords()
    ensures Load32(KEY_BLOCK_16, 0) == 0xc1f457cc && Load32(KEY_BLOCK_16, 4) == 0x589796c7
    ensures Load32(KEY_BLOCK_16, 8) == 0x15cc5464 && Load32(KEY_BLOCK_16, 12) == 0xddc508b4
    ensures Load32(TAG, 0) == 0x464b1876 && Load32(TAG, 4) == 0x78e3c259 && Load32(TAG, 8) == 0x115263ab && Load32(TAG, 12) == 0x59ec1655
  {
  }

  lemma ThreeBlocks(r: nat, a: seq<byte>, b: seq<byte>, c: seq<byte>)
    requires |a| == |b| == |c| == 16
    ensures P.Absorb(r, 0, a + b + c) == P.AbsorbBlock(r, P.AbsorbBlock(r, P.AbsorbBlock(r, 0, a), b), c)
  {
    hide P.AbsorbBlock;
    P.AbsorbAppend(r, 0, a + b, c);
    P.AbsorbAppend(r, 0, a, b);
    OneBlock(r, 0, a);
    OneBlock(r, P.AbsorbBlock(r, 0, a), b);
    OneBlock(r, P.AbsorbBlock(r, P.AbsorbBlock(r, 0, a), b), c);
  }

  lemma OneBlock(r: nat, acc: nat, b: seq<byte>)
    requires |b| == 16
    ensures P.Absorb(r, acc, b) == P.AbsorbBlock(r, acc, b)
  {
    hide P.AbsorbBlock;
    assert b[..16] == b && b[16..] == [];
    assert P.Absorb(r, P.AbsorbBlock(r, acc, b), []) == P.AbsorbBlock(r, acc, b);
  }

  // ---------------------------------------------------------------- a group

  // The first 14 bytes of a known digest, behind the site-local prefix.
  lemma KnownGroup()
    ensures TopicHash.Group(PASSPHRASE, 5)
            == [0xff, 0x15, 0xf5, 0x2f, 0xbd, 0x32, 0xb2, 0xb3, 0xb8, 0x6f, 0xf8, 0x8e, 0xf6, 0xc4, 0x90, 0x62]
  {
    hide Sha256.Hash;
    PassphraseDigest();
  }

  // ---------------------------------------------------------------- the datagram

  // The same message without a key: the checksum of the topic, low byte first, is in the header.
  lemma PlainDatagram()
    ensures Encode(TOPIC, PAYLOAD, RAW, None, TIMESTAMP, NONCE)
            == Some([0x4d, 0x50, 1, 0, 0x7e, 0x2b, 0x95, 0x85, 5, 0, 0, 0] + PAYLOAD)
  {
    hide TopicHash.Crc32, Header;
    TopicChecksum();
    HeaderBytes(0x85952b7e, RAW, 5, MODE_NONE);
  }

  // "hello" for "home/x", sealed with the passphrase "hunter2": header, nonce, ciphertext and tag.
  lemma KnownDatagram()
    ensures Encode(TOPIC, PAYLOAD, RAW, Some(Sha256.Hash(PASSPHRASE)), TIMESTAMP, NONCE)
            == Some(HEADER + NONCE + CIPHERTEXT + TAG)
  {
    hide TopicHash.Crc32, Header, Plaintext, XorStream, P.PolyTag, Aead.MacData, Block, Sha256.Hash;
    PassphraseDigest();
    TopicChecksum();
    HeaderIs();
    PlaintextIs();
    CiphertextIs();
    MacDataIs();
    KeyBlock();
    OneTimeKeyIs();
    TagIs(Aead.PolyKey(KEY, NONCE));
  }

  lemma OneTimeKeyIs()
    ensures var otk := Aead.PolyKey(KEY, NONCE); otk[..16] == KEY_BLOCK_0 && otk[16..] == KEY_BLOCK_16
  {
    hide Block;
    KeyBlock();
  }
}
