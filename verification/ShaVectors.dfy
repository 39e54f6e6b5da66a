/**
The digest of the passphrase "hunter2", proved of the definition. The words that each round and each step of the
schedule brings in are written out, eight to a lemma.
*/
module ShaVectors {
  import opened Bits
  import opened Words
  import opened MachineWords
  import opened Sha256
  import opened ShaMachine

  const PASSPHRASE: seq<byte> := [0x68, 0x75, 0x6e, 0x74, 0x65, 0x72, 0x32]

  const DIGEST_0: seq<byte> := [0xf5, 0x2f, 0xbd, 0x32, 0xb2, 0xb3, 0xb8, 0x6f, 0xf8, 0x8e, 0xf6, 0xc4, 0x90, 0x62, 0x82, 0x85]
  const DIGEST_16: seq<byte> := [0xf4, 0x82, 0xaf, 0x15, 0xdd, 0xcb, 0x29, 0x54, 0x1f, 0x94, 0xbc, 0xf5, 0x26, 0xa3, 0xf6, 0xc7]

  // The one block of the padded passphrase.
  lemma Padded(block: seq<byte>)
    requires block == Pad(PASSPHRASE)
    ensures block == PASSPHRASE + [0x80] + Zeros(48) + [0, 0, 0, 0, 0, 0, 0, 0x38]
  {
    hide ToBe;
    assert ToBe(0, 7) == [0, 0, 0, 0, 0, 0, 0] by {
      ZeroBytes(7);
    }
    ToBeStep(0x38, 8);
  }

  lemma ToBeStep(v: nat, n: nat)
    requires n > 0
    ensures ToBe(v, n) == ToBe(v / 256, n - 1) + [v % 256]
  {
  }

  lemma {:induction false} ZeroBytes(n: nat)
    ensures ToBe(0, n) == Zeros(n)
  {
    if n > 0 {
      ZeroBytes(n - 1);
    }
  }

  lemma FirstWords(block: seq<byte>)
    requires block == PASSPHRASE + [0x80] + Zeros(48) + [0, 0, 0, 0, 0, 0, 0, 0x38]
    ensures Octet(block, 0, 0x68756e74, 0x65723280, 0x00000000, 0x00000000, 0x00000000, 0x00000000, 0x00000000, 0x00000000)
    ensures Octet(block, 8, 0x00000000, 0x00000000, 0x00000000, 0x00000000, 0x00000000, 0x00000000, 0x00000000, 0x00000038)
  {
    hide Scheduled;
    Layout(block);
    TextWord(block);
    ZeroWords(block);
    LengthWord(block);
  }

  lemma Layout(block: seq<byte>)
    requires block == PASSPHRASE + [0x80] + Zeros(48) + [0, 0, 0, 0, 0, 0, 0, 0x38]
    ensures |block| == 64 && block[0..8] == PASSPHRASE + [0x80] && block[63] == 0x38
    ensures forall i :: 8 <= i < 63 ==> block[i] == 0
  {
  }

  lemma ZeroWords(block: seq<byte>)
    requires |block| == 64 && forall i :: 8 <= i < 63 ==> block[i] == 0
    ensures forall t :: 2 <= t < 15 ==> Scheduled(block, t, 0)
  {
    hide Scheduled;
    forall t | 2 <= t < 15
      ensures Scheduled(block, t, 0)
    {
      ZeroWord(block, t);
    }
  }

  lemma TextWord(block: seq<byte>)
    requires |block| == 64 && block[0..8] == PASSPHRASE + [0x80]
    ensures Scheduled(block, 0, 0x68756e74) && Scheduled(block, 1, 0x65723280)
  {
    var text := block[0..8];
    assert text[0] == 0x68 && text[1] == 0x75 && text[2] == 0x6e && text[3] == 0x74;
    assert text[4] == 0x65 && text[5] == 0x72 && text[6] == 0x32 && text[7] == 0x80;
  }

  lemma ZeroWord(block: seq<byte>, t: nat)
    requires |block| == 64 && t < 16 && block[4 * t] == block[4 * t + 1] == block[4 * t + 2] == block[4 * t + 3] == 0
    ensures Scheduled(block, t, 0)
  {
  }

  lemma LengthWord(block: seq<byte>)
    requires |block| == 64 && block[60] == block[61] == block[62] == 0 && block[63] == 0x38
    ensures Scheduled(block, 15, 0x00000038)
  {
  }

  lemma Words16(block: seq<byte>)
    requires Octet(block, 0, 0x68756e74, 0x65723280, 0x00000000, 0x00000000, 0x00000000, 0x00000000, 0x00000000, 0x00000000)
    requires Octet(block, 8, 0x00000000, 0x00000000, 0x00000000, 0x00000000, 0x00000000, 0x00000000, 0x00000000, 0x00000038)
    ensures Octet(block, 16, 0xe93a29dd, 0x658d3280, 0x51ef0730, 0x3f095d3b, 0x636a590b, 0x85353a32, 0x67bc0786, 0x23b8894f)
  {
    hide Octet;
    EightWords(block, 0,
      0x68756e74, 0x65723280, 0x00000000, 0x00000000, 0x00000000, 0x00000000, 0x00000000, 0x00000000,
      0x00000000, 0x00000000, 0x00000000, 0x00000000, 0x00000000, 0x00000000, 0x00000000, 0x00000038,
      0xe93a29dd, 0x658d3280, 0x51ef0730, 0x3f095d3b, 0x636a590b, 0x85353a32, 0x67bc0786, 0x23b8894f);
  }

  lemma Words24(block: seq<byte>)
    requires Octet(block, 8, 0x00000000, 0x00000000, 0x00000000, 0x00000000, 0x00000000, 0x00000000, 0x00000000, 0x00000038)
    requires Octet(block, 16, 0xe93a29dd, 0x658d3280, 0x51ef0730, 0x3f095d3b, 0x636a590b, 0x85353a32, 0x67bc0786, 0x23b8894f)
    ensures Octet(block, 24, 0xe8b742a8, 0xa775a2b9, 0x8844a1d8, 0xc88c9347, 0x4a2a7e34, 0x43b545f9, 0x0494b025, 0x1f8cf303)
  {
    hide Octet;
    EightWords(block, 8,
      0x00000000, 0x00000000, 0x00000000, 0x00000000, 0x00000000, 0x00000000, 0x00000000, 0x00000038,
      0xe93a29dd, 0x658d3280, 0x51ef0730, 0x3f095d3b, 0x636a590b, 0x85353a32, 0x67bc0786, 0x23b8894f,
      0xe8b742a8, 0xa775a2b9, 0x8844a1d8, 0xc88c9347, 0x4a2a7e34, 0x43b545f9, 0x0494b025, 0x1f8cf303);
  }

  lemma Words32(block: seq<byte>)
    requires Octet(block, 16, 0xe93a29dd, 0x658d3280, 0x51ef0730, 0x3f095d3b, 0x636a590b, 0x85353a32, 0x67bc0786, 0x23b8894f)
    requires Octet(block, 24, 0xe8b742a8, 0xa775a2b9, 0x8844a1d8, 0xc88c9347, 0x4a2a7e34, 0x43b545f9, 0x0494b025, 0x1f8cf303)
    ensures Octet(block, 32, 0x9fa179e0, 0x810a0df6, 0xd53945d0, 0x5d82f4df, 0x6ca749ed, 0xb0867133, 0x8d7cd573, 0x565b4ffb)
  {
    hide Octet;
    EightWords(block, 16,
      0xe93a29dd, 0x658d3280, 0x51ef0730, 0x3f095d3b, 0x636a590b, 0x85353a32, 0x67bc0786, 0x23b8894f,
      0xe8b742a8, 0xa775a2b9, 0x8844a1d8, 0xc88c9347, 0x4a2a7e34, 0x43b545f9, 0x0494b025, 0x1f8cf303,
      0x9fa179e0, 0x810a0df6, 0xd53945d0, 0x5d82f4df, 0x6ca749ed, 0xb0867133, 0x8d7cd573, 0x565b4ffb);
  }

  lemma Words40(block: seq<byte>)
    requires Octet(block, 24, 0xe8b742a8, 0xa775a2b9, 0x8844a1d8, 0xc88c9347, 0x4a2a7e34, 0x43b545f9, 0x0494b025, 0x1f8cf303)
    requires Octet(block, 32, 0x9fa179e0, 0x810a0df6, 0xd53945d0, 0x5d82f4df, 0x6ca749ed, 0xb0867133, 0x8d7cd573, 0x565b4ffb)
    ensures Octet(block, 40, 0x69046f91, 0xd3347f27, 0x5239e8dd, 0xe3d3c5c7, 0x6fa20f61, 0xd229130f, 0xda45b32b, 0xc11745d0)
  {
    hide Octet;
    EightWords(block, 24,
      0xe8b742a8, 0xa775a2b9, 0x8844a1d8, 0xc88c9347, 0x4a2a7e34, 0x43b545f9, 0x0494b025, 0x1f8cf303,
      0x9fa179e0, 0x810a0df6, 0xd53945d0, 0x5d82f4df, 0x6ca749ed, 0xb0867133, 0x8d7cd573, 0x565b4ffb,
      0x69046f91, 0xd3347f27, 0x5239e8dd, 0xe3d3c5c7, 0x6fa20f61, 0xd229130f, 0xda45b32b, 0xc11745d0);
  }

  lemma Words48(block: seq<byte>)
    requires Octet(block, 32, 0x9fa179e0, 0x810a0df6, 0xd53945d0, 0x5d82f4df, 0x6ca749ed, 0xb0867133, 0x8d7cd573, 0x565b4ffb)
    requires Octet(block, 40, 0x69046f91, 0xd3347f27, 0x5239e8dd, 0xe3d3c5c7, 0x6fa20f61, 0xd229130f, 0xda45b32b, 0xc11745d0)
    ensures Octet(block, 48, 0x60faf5f4, 0x081fa3ca, 0xe5a61a88, 0xf7fa43ab, 0xfa3993c2, 0xb853204b, 0x79d4d278, 0xdf6fe546)
  {
    hide Octet;
    EightWords(block, 32,
      0x9fa179e0, 0x810a0df6, 0xd53945d0, 0x5d82f4df, 0x6ca749ed, 0xb0867133, 0x8d7cd573, 0x565b4ffb,
      0x69046f91, 0xd3347f27, 0x5239e8dd, 0xe3d3c5c7, 0x6fa20f61, 0xd229130f, 0xda45b32b, 0xc11745d0,
      0x60faf5f4, 0x081fa3ca, 0xe5a61a88, 0xf7fa43ab, 0xfa3993c2, 0xb853204b, 0x79d4d278, 0xdf6fe546);
  }

  lemma Words56(block: seq<byte>)
    requires Octet(block, 40, 0x69046f91, 0xd3347f27, 0x5239e8dd, 0xe3d3c5c7, 0x6fa20f61, 0xd229130f, 0xda45b32b, 0xc11745d0)
    requires Octet(block, 48, 0x60faf5f4, 0x081fa3ca, 0xe5a61a88, 0xf7fa43ab, 0xfa3993c2, 0xb853204b, 0x79d4d278, 0xdf6fe546)
    ensures Octet(block, 56, 0xae9a6e16, 0x91eb2396, 0x27e27854, 0x209e97a3, 0xdc41240c, 0x05628512, 0xd93b74c6, 0xdb7f820d)
  {
    hide Octet;
    EightWords(block, 40,
      0x69046f91, 0xd3347f27, 0x5239e8dd, 0xe3d3c5c7, 0x6fa20f61, 0xd229130f, 0xda45b32b, 0xc11745d0,
      0x60faf5f4, 0x081fa3ca, 0xe5a61a88, 0xf7fa43ab, 0xfa3993c2, 0xb853204b, 0x79d4d278, 0xdf6fe546,
      0xae9a6e16, 0x91eb2396, 0x27e27854, 0x209e97a3, 0xdc41240c, 0x05628512, 0xd93b74c6, 0xdb7f820d);
  }

  lemma Rounds0(block: seq<byte>)
    requires Stands(IV, block, 0, Working(0x6a09e667, 0xbb67ae85, 0x3c6ef372, 0xa54ff53a, 0x510e527f, 0x9b05688c, 0x1f83d9ab, 0x5be0cd19))
    requires Octet(block, 0, 0x68756e74, 0x65723280, 0x00000000, 0x00000000, 0x00000000, 0x00000000, 0x00000000, 0x00000000)
    ensures Stands(IV, block, 8, Working(0x60c05c17, 0x24c9f3c8, 0x3bf861f9, 0x2ada896d, 0x6a4c17e7, 0xe6f7272d, 0x1a106dcb, 0xe04e36e2))
  {
    hide Stands, Octet;
    EightRounds(IV, block, 0,
      0x6a09e667, 0xbb67ae85, 0x3c6ef372, 0xa54ff53a, 0x510e527f, 0x9b05688c, 0x1f83d9ab, 0x5be0cd19,
      0x428a2f98, 0x71374491, 0xb5c0fbcf, 0xe9b5dba5, 0x3956c25b, 0x59f111f1, 0x923f82a4, 0xab1c5ed5,
      0x68756e74, 0x65723280, 0x00000000, 0x00000000, 0x00000000, 0x00000000, 0x00000000, 0x00000000,
      0x647df6c1, 0xf8e365db, 0x8ed558a4, 0xe52117e7, 0x2ada896d, 0x3bf861f9, 0x24c9f3c8, 0x60c05c17,
      0x013d5116, 0xb21516ba, 0x8462aed8, 0xae41d6d5, 0xe04e36e2, 0x1a106dcb, 0xe6f7272d, 0x6a4c17e7);
  }

  lemma Rounds8(block: seq<byte>)
    requires Stands(IV, block, 8, Working(0x60c05c17, 0x24c9f3c8, 0x3bf861f9, 0x2ada896d, 0x6a4c17e7, 0xe6f7272d, 0x1a106dcb, 0xe04e36e2))
    requires Octet(block, 8, 0x00000000, 0x00000000, 0x00000000, 0x00000000, 0x00000000, 0x00000000, 0x00000000, 0x00000038)
    ensures Stands(IV, block, 16, Working(0x3291e579, 0x0a623288, 0x6ee2b780, 0xce00cf7a, 0xdf1193e8, 0x21bff704, 0x2a96969b, 0xc9b646e9))
  {
    hide Stands, Octet;
    EightRounds(IV, block, 8,
      0x60c05c17, 0x24c9f3c8, 0x3bf861f9, 0x2ada896d, 0x6a4c17e7, 0xe6f7272d, 0x1a106dcb, 0xe04e36e2,
      0xd807aa98, 0x12835b01, 0x243185be, 0x550c7dc3, 0x72be5d74, 0x80deb1fe, 0x9bdc06a7, 0xc19bf174,
      0x00000000, 0x00000000, 0x00000000, 0x00000000, 0x00000000, 0x00000000, 0x00000000, 0x00000038,
      0xccbd996c, 0x21c44f55, 0x93a4875a, 0x18f56591, 0xce00cf7a, 0x6ee2b780, 0x0a623288, 0x3291e579,
      0x9cd4647c, 0xeac6277d, 0x33c4d45d, 0xebf05b90, 0xc9b646e9, 0x2a96969b, 0x21bff704, 0xdf1193e8);
  }

  lemma Rounds16(block: seq<byte>)
    requires Stands(IV, block, 16, Working(0x3291e579, 0x0a623288, 0x6ee2b780, 0xce00cf7a, 0xdf1193e8, 0x21bff704, 0x2a96969b, 0xc9b646e9))
    requires Octet(block, 16, 0xe93a29dd, 0x658d3280, 0x51ef0730, 0x3f095d3b, 0x636a590b, 0x85353a32, 0x67bc0786, 0x23b8894f)
    ensures Stands(IV, block, 24, Working(0x2f33b6e0, 0x4fb8d46a, 0x36d8b8b1, 0x174d86e6, 0xcb7ac773, 0x43edb9c1, 0x81d0bc7e, 0x9f39bb89))
  {
    hide Stands, Octet;
    EightRounds(IV, block, 16,
      0x3291e579, 0x0a623288, 0x6ee2b780, 0xce00cf7a, 0xdf1193e8, 0x21bff704, 0x2a96969b, 0xc9b646e9,
      0xe49b69c1, 0xefbe4786, 0x0fc19dc6, 0x240ca1cc, 0x2de92c6f, 0x4a7484aa, 0x5cb0a9dc, 0x76f988da,
      0xe93a29dd, 0x658d3280, 0x51ef0730, 0x3f095d3b, 0x636a590b, 0x85353a32, 0x67bc0786, 0x23b8894f,
      0x5bac824f, 0x653dce1b, 0xf55fc880, 0x880d8757, 0x174d86e6, 0x36d8b8b1, 0x4fb8d46a, 0x2f33b6e0,
      0xddd29126, 0x42e722b9, 0x2d57fcb1, 0x3eef47ba, 0x9f39bb89, 0x81d0bc7e, 0x43edb9c1, 0xcb7ac773);
  }

  lemma Rounds24(block: seq<byte>)
    requires Stands(IV, block, 24, Working(0x2f33b6e0, 0x4fb8d46a, 0x36d8b8b1, 0x174d86e6, 0xcb7ac773, 0x43edb9c1, 0x81d0bc7e, 0x9f39bb89))
    requires Octet(block, 24, 0xe8b742a8, 0xa775a2b9, 0x8844a1d8, 0xc88c9347, 0x4a2a7e34, 0x43b545f9, 0x0494b025, 0x1f8cf303)
    ensures Stands(IV, block, 32, Working(0xcbd291ce, 0xd06efa1d, 0xe947e1e3, 0x04acbd91, 0x1e8ef1e2, 0x9e681b91, 0xab020247, 0x290be4d9))
  {
    hide Stands, Octet;
    EightRounds(IV, block, 24,
      0x2f33b6e0, 0x4fb8d46a, 0x36d8b8b1, 0x174d86e6, 0xcb7ac773, 0x43edb9c1, 0x81d0bc7e, 0x9f39bb89,
      0x983e5152, 0xa831c66d, 0xb00327c8, 0xbf597fc7, 0xc6e00bf3, 0xd5a79147, 0x06ca6351, 0x14292967,
      0xe8b742a8, 0xa775a2b9, 0x8844a1d8, 0xc88c9347, 0x4a2a7e34, 0x43b545f9, 0x0494b025, 0x1f8cf303,
      0xa21e0fe9, 0xf11c1388, 0xd90f0529, 0x3248a456, 0x04acbd91, 0xe947e1e3, 0xd06efa1d, 0xcbd291ce,
      0x179ccd56, 0x88c4ffcf, 0xb55b11e5, 0x0d44a537, 0x290be4d9, 0xab020247, 0x9e681b91, 0x1e8ef1e2);
  }

  lemma Rounds32(block: seq<byte>)
    requires Stands(IV, block, 32, Working(0xcbd291ce, 0xd06efa1d, 0xe947e1e3, 0x04acbd91, 0x1e8ef1e2, 0x9e681b91, 0xab020247, 0x290be4d9))
    requires Octet(block, 32, 0x9fa179e0, 0x810a0df6, 0xd53945d0, 0x5d82f4df, 0x6ca749ed, 0xb0867133, 0x8d7cd573, 0x565b4ffb)
    ensures Stands(IV, block, 40, Working(0x0a72a0d2, 0x36abe23b, 0x81de0337, 0xe21279aa, 0x46b5382c, 0x5425bcf4, 0x53c266ba, 0xa6d6cd1f))
  {
    hide Stands, Octet;
    EightRounds(IV, block, 32,
      0xcbd291ce, 0xd06efa1d, 0xe947e1e3, 0x04acbd91, 0x1e8ef1e2, 0x9e681b91, 0xab020247, 0x290be4d9,
      0x27b70a85, 0x2e1b2138, 0x4d2c6dfc, 0x53380d13, 0x650a7354, 0x766a0abb, 0x81c2c92e, 0x92722c85,
      0x9fa179e0, 0x810a0df6, 0xd53945d0, 0x5d82f4df, 0x6ca749ed, 0xb0867133, 0x8d7cd573, 0x565b4ffb,
      0xe2ba4b70, 0x7033e494, 0x621b4695, 0x52d89ba0, 0xe21279aa, 0x81de0337, 0x36abe23b, 0x0a72a0d2,
      0xa75a556a, 0x0c7ca697, 0x589a5564, 0xbb3851e3, 0xa6d6cd1f, 0x53c266ba, 0x5425bcf4, 0x46b5382c);
  }

  lemma Rounds40(block: seq<byte>)
    requires Stands(IV, block, 40, Working(0x0a72a0d2, 0x36abe23b, 0x81de0337, 0xe21279aa, 0x46b5382c, 0x5425bcf4, 0x53c266ba, 0xa6d6cd1f))
    requires Octet(block, 40, 0x69046f91, 0xd3347f27, 0x5239e8dd, 0xe3d3c5c7, 0x6fa20f61, 0xd229130f, 0xda45b32b, 0xc11745d0)
    ensures Stands(IV, block, 48, Working(0x5fcead5b, 0x7fc91f91, 0x60f0db18, 0xe43ffc2e, 0x07ca8217, 0x3c656033, 0xc34c5160, 0xf5aa0b16))
  {
    hide Stands, Octet;
    EightRounds(IV, block, 40,
      0x0a72a0d2, 0x36abe23b, 0x81de0337, 0xe21279aa, 0x46b5382c, 0x5425bcf4, 0x53c266ba, 0xa6d6cd1f,
      0xa2bfe8a1, 0xa81a664b, 0xc24b8b70, 0xc76c51a3, 0xd192e819, 0xd6990624, 0xf40e3585, 0x106aa070,
      0x69046f91, 0xd3347f27, 0x5239e8dd, 0xe3d3c5c7, 0x6fa20f61, 0xd229130f, 0xda45b32b, 0xc11745d0,
      0x479b0e26, 0xab2193d3, 0xa12d8993, 0x93fdb027, 0xe43ffc2e, 0x60f0db18, 0x7fc91f91, 0x5fcead5b,
      0xd8233215, 0x99578e89, 0xda8b75a8, 0xe8569fda, 0xf5aa0b16, 0xc34c5160, 0x3c656033, 0x07ca8217);
  }

  lemma Rounds48(block: seq<byte>)
    requires Stands(IV, block, 48, Working(0x5fcead5b, 0x7fc91f91, 0x60f0db18, 0xe43ffc2e, 0x07ca8217, 0x3c656033, 0xc34c5160, 0xf5aa0b16))
    requires Octet(block, 48, 0x60faf5f4, 0x081fa3ca, 0xe5a61a88, 0xf7fa43ab, 0xfa3993c2, 0xb853204b, 0x79d4d278, 0xdf6fe546)
    ensures Stands(IV, block, 56, Working(0x666471db, 0x4b14c13f, 0x6813275a, 0xf7da2bff, 0x0d4ca401, 0xd58be5b3, 0x7c8cce83, 0x3422336c))
  {
    hide Stands, Octet;
    EightRounds(IV, block, 48,
      0x5fcead5b, 0x7fc91f91, 0x60f0db18, 0xe43ffc2e, 0x07ca8217, 0x3c656033, 0xc34c5160, 0xf5aa0b16,
      0x19a4c116, 0x1e376c08, 0x2748774c, 0x34b0bcb5, 0x391c0cb3, 0x4ed8aa4a, 0x5b9cca4f, 0x682e6ff3,
      0x60faf5f4, 0x081fa3ca, 0xe5a61a88, 0xf7fa43ab, 0xfa3993c2, 0xb853204b, 0x79d4d278, 0xdf6fe546,
      0x37b1c3e3, 0xd1f59f19, 0x70d530dd, 0x9a35eb6a, 0xf7da2bff, 0x6813275a, 0x4b14c13f, 0x666471db,
      0x148ce89c, 0x9d22a8b6, 0x3dd931e6, 0xf9f1458f, 0x3422336c, 0x7c8cce83, 0xd58be5b3, 0x0d4ca401);
  }

  lemma Rounds56(block: seq<byte>)
    requires Stands(IV, block, 56, Working(0x666471db, 0x4b14c13f, 0x6813275a, 0xf7da2bff, 0x0d4ca401, 0xd58be5b3, 0x7c8cce83, 0x3422336c))
    requires Octet(block, 56, 0xae9a6e16, 0x91eb2396, 0x27e27854, 0x209e97a3, 0xdc41240c, 0x05628512, 0xd93b74c6, 0xdb7f820d)
    ensures Stands(IV, block, 64, Working(0x8b25d6cb, 0xf74c09ea, 0xbc200352, 0xeb128d4b, 0xa3745c96, 0x42c5c0c8, 0x0010e34a, 0xcac329ae))
  {
    hide Stands, Octet;
    EightRounds(IV, block, 56,
      0x666471db, 0x4b14c13f, 0x6813275a, 0xf7da2bff, 0x0d4ca401, 0xd58be5b3, 0x7c8cce83, 0x3422336c,
      0x748f82ee, 0x78a5636f, 0x84c87814, 0x8cc70208, 0x90befffa, 0xa4506ceb, 0xbef9a3f7, 0xc67178f2,
      0xae9a6e16, 0x91eb2396, 0x27e27854, 0x209e97a3, 0xdc41240c, 0x05628512, 0xd93b74c6, 0xdb7f820d,
      0x1fb5529c, 0x19d259be, 0x7a3ae55c, 0xd9f1a2dc, 0xeb128d4b, 0xbc200352, 0xf74c09ea, 0x8b25d6cb,
      0xe6f5da74, 0xec695606, 0xa278b463, 0x44aba9b3, 0xcac329ae, 0x0010e34a, 0x42c5c0c8, 0xa3745c96);
  }

  lemma Start(block: seq<byte>)
    requires |block| == 64
    ensures Stands(IV, block, 0, Working(0x6a09e667, 0xbb67ae85, 0x3c6ef372, 0xa54ff53a, 0x510e527f, 0x9b05688c, 0x1f83d9ab, 0x5be0cd19))
  {
  }

  lemma End(block: seq<byte>)
    requires Stands(IV, block, 64, Working(0x8b25d6cb, 0xf74c09ea, 0xbc200352, 0xeb128d4b, 0xa3745c96, 0x42c5c0c8, 0x0010e34a, 0xcac329ae))
    ensures Compress(IV, block) == Vars(0xf52fbd32, 0xb2b3b86f, 0xf88ef6c4, 0x90628285, 0xf482af15, 0xddcb2954, 0x1f94bcf5, 0x26a3f6c7)
  {
    hide Rounds;
  }

  lemma Output()
    ensures Digest(Vars(0xf52fbd32, 0xb2b3b86f, 0xf88ef6c4, 0x90628285, 0xf482af15, 0xddcb2954, 0x1f94bcf5, 0x26a3f6c7)) == DIGEST_0 + DIGEST_16
  {
    hide Digest;
    DigestLoaded(Vars(0xf52fbd32, 0xb2b3b86f, 0xf88ef6c4, 0x90628285, 0xf482af15, 0xddcb2954, 0x1f94bcf5, 0x26a3f6c7), DIGEST_0, DIGEST_16);
  }

  // The digest of the passphrase "hunter2".
  lemma PassphraseDigest()
    ensures Hash(PASSPHRASE) == DIGEST_0 + DIGEST_16
  {
    hide Octet, Stands, Compress, Digest, Fold, Pad;
    var block := Pad(PASSPHRASE);
    Padded(block);
    FirstWords(block);
    Words16(block);
    Words24(block);
    Words32(block);
    Words40(block);
    Words48(block);
    Words56(block);
    Start(block);
    Rounds0(block);
    Rounds8(block);
    Rounds16(block);
    Rounds24(block);
    Rounds32(block);
    Rounds40(block);
    Rounds48(block);
    Rounds56(block);
    End(block);
    FoldOne(IV, block);
    Output();
  }
}
