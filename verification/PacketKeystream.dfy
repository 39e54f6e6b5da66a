/**
Blocks 0 and 1 of the keystream for the known datagram of module PacketVector.
*/
module PacketKeystream {
  import opened Words
  import opened MachineWords
  import opened ChaCha20
  import opened ChaChaMachine
  import opened ShaVectors

  const KEY: seq<byte> := DIGEST_0 + DIGEST_16
  const NONCE: seq<byte> := [0x00, 0x01, 0x02, 0x03, 0x04, 0x05, 0x06, 0x07, 0x08, 0x09, 0x0a, 0x0b]

  lemma KeyBlockRounds0(s: Matrix)
    requires Rounds(s, 0)
             == Entries(0x61707865, 0x3320646e, 0x79622d32, 0x6b206574, 0x32bd2ff5, 0x6fb8b3b2, 0xc4f68ef8, 0x85826290,
                        0x15af82f4, 0x5429cbdd, 0xf5bc941f, 0xc7f6a326, 0x00000000, 0x03020100, 0x07060504, 0x0b0a0908)
    ensures Rounds(s, 2)
            == Entries(0x87619d78, 0x3ad13b02, 0x328224f4, 0x42747872, 0x4aa811b1, 0xcac8d070, 0xbd697408, 0xfc228793,
                       0x1549e51c, 0x8745c57e, 0xa11dc916, 0x81df24ff, 0xa5c0bf05, 0x9a19c4d3, 0x38170ae5, 0xfde1c2d0)
  {
    hide Rounds, Entries;
    TwoDoubles(s, 0,
      0x61707865, 0x3320646e, 0x79622d32, 0x6b206574, 0x32bd2ff5, 0x6fb8b3b2, 0xc4f68ef8, 0x85826290,
      0x15af82f4, 0x5429cbdd, 0xf5bc941f, 0xc7f6a326, 0x00000000, 0x03020100, 0x07060504, 0x0b0a0908,
      0x07baf125, 0xd0b9b84f, 0x029112cb, 0x1068a8cc, 0xf12b8df6, 0xc2515715, 0x171accd5, 0x4971abf9,
      0x9e6f1fd0, 0x06640281, 0x6e166338, 0xed57039f, 0xe06508af, 0x991994c9, 0xbf2b95bb, 0x645364d1,
      0xfe746dcf, 0x744cdc03, 0x21f3e6d4, 0x665f9c51, 0x65eac55a, 0x56c3fe07, 0x62f44b67, 0xa0f5f309,
      0xc6b0c3f6, 0xd000b005, 0x3ac5a269, 0x42bdbe49, 0xc7dbb2f9, 0xfe33cf0b, 0x2622eec5, 0x9fc390d2,
      0x1e8135ff, 0xecc3d546, 0x85cd798e, 0x41b2fb85, 0x1af0e790, 0x28580ec3, 0xbd676fa5, 0x7a030b53,
      0x9a17e319, 0xa7e24b21, 0x4b9f898c, 0x9ca96a3d, 0x51967b9f, 0xc2e065f9, 0x33db4459, 0x3a63135e,
      0x87619d78, 0x3ad13b02, 0x328224f4, 0x42747872, 0x4aa811b1, 0xcac8d070, 0xbd697408, 0xfc228793,
      0x1549e51c, 0x8745c57e, 0xa11dc916, 0x81df24ff, 0xa5c0bf05, 0x9a19c4d3, 0x38170ae5, 0xfde1c2d0);
  }

  lemma KeyBlockRounds2(s: Matrix)
    requires Rounds(s, 2)
             == Entries(0x87619d78, 0x3ad13b02, 0x328224f4, 0x42747872, 0x4aa811b1, 0xcac8d070, 0xbd697408, 0xfc228793,
                        0x1549e51c, 0x8745c57e, 0xa11dc916, 0x81df24ff, 0xa5c0bf05, 0x9a19c4d3, 0x38170ae5, 0xfde1c2d0)
    ensures Rounds(s, 4)
            == Entries(0x48ca35fd, 0xabaef7b2, 0x33a4672a, 0xd11dc47e, 0xbf752aa2, 0xde58135f, 0x20af62ec, 0xc652902e,
                       0xb968c474, 0xad78d43f, 0xff0a9cda, 0x20849161, 0x40444baa, 0x7fd19626, 0x685ce271, 0x1b5d48c7)
  {
    hide Rounds, Entries;
    TwoDoubles(s, 2,
      0x87619d78, 0x3ad13b02, 0x328224f4, 0x42747872, 0x4aa811b1, 0xcac8d070, 0xbd697408, 0xfc228793,
      0x1549e51c, 0x8745c57e, 0xa11dc916, 0x81df24ff, 0xa5c0bf05, 0x9a19c4d3, 0x38170ae5, 0xfde1c2d0,
      0xb6def626, 0x00f12534, 0xdd3d41e1, 0xa5956b8e, 0x96853b79, 0x7a82892e, 0x4e0b425d, 0xd1c5aaf1,
      0x17f84c8b, 0xa7a21cd0, 0x57cdbe61, 0x855de0dc, 0xf281efa6, 0x50bab7cf, 0x24961d4f, 0x40a8f867,
      0x6cf1c9ac, 0x3cecabca, 0xed6e16ff, 0x2cfd067d, 0xf5bcc273, 0x14ee26cd, 0xae889a02, 0x4a5cea6c,
      0xe6ff93f9, 0x170926f2, 0xa1b99615, 0xe8ad550d, 0xdb17b7b4, 0x73e947b6, 0xb51ef196, 0xc2b865eb,
      0xdbaaa990, 0x98d95e23, 0x21e6a5ce, 0x45621467, 0xa3b571ad, 0x2c695f71, 0x1a0fc9eb, 0x2cd96008,
      0x23bb7792, 0xa4a65932, 0x53dbeb5e, 0xde5191be, 0x011029e0, 0xf87c100d, 0x718b2661, 0x60a186d0,
      0x48ca35fd, 0xabaef7b2, 0x33a4672a, 0xd11dc47e, 0xbf752aa2, 0xde58135f, 0x20af62ec, 0xc652902e,
      0xb968c474, 0xad78d43f, 0xff0a9cda, 0x20849161, 0x40444baa, 0x7fd19626, 0x685ce271, 0x1b5d48c7);
  }

  lemma KeyBlockRounds4(s: Matrix)
    requires Rounds(s, 4)
             == Entries(0x48ca35fd, 0xabaef7b2, 0x33a4672a, 0xd11dc47e, 0xbf752aa2, 0xde58135f, 0x20af62ec, 0xc652902e,
                        0xb968c474, 0xad78d43f, 0xff0a9cda, 0x20849161, 0x40444baa, 0x7fd19626, 0x685ce271, 0x1b5d48c7)
    ensures Rounds(s, 6)
            == Entries(0xfabffc1a, 0x3cee207a, 0x7cfe86dd, 0xcb80fffd, 0x8fbb51cf, 0xa2f7ab32, 0x3795bd26, 0x979e9de4,
                       0x96434c4f, 0x0bc91a20, 0x08baaace, 0x8b982e2f, 0x1248f6d8, 0xf0e64b0f, 0x2b6e8a3b, 0xf7a9571a)
  {
    hide Rounds, Entries;
    TwoDoubles(s, 4,
      0x48ca35fd, 0xabaef7b2, 0x33a4672a, 0xd11dc47e, 0xbf752aa2, 0xde58135f, 0x20af62ec, 0xc652902e,
      0xb968c474, 0xad78d43f, 0xff0a9cda, 0x20849161, 0x40444baa, 0x7fd19626, 0x685ce271, 0x1b5d48c7,
      0xbaa4365d, 0x179bb45f, 0x3ff41a93, 0xc04a6456, 0x3c731f62, 0xb37d68bd, 0x9c12bea8, 0x014b603b,
      0x761c3380, 0xf6f2539f, 0xba987500, 0x5ed8996a, 0x917e2691, 0xac41898a, 0x93269c17, 0x21e87bdc,
      0xa8e8e1dc, 0x73d7958e, 0xe54bd150, 0x2a830665, 0x6721e137, 0x65cc6bfa, 0x079c739b, 0x488ccb6e,
      0x789d4f14, 0x430bc16f, 0xce0cda15, 0xf6261a60, 0x41b75e26, 0x0f3c2e16, 0x2c69fe35, 0x2eae154c,
      0x44292a42, 0x48e3d2fe, 0x6b791de2, 0x0e46d0f7, 0x2863c283, 0x48978c40, 0x2c134827, 0xb218f787,
      0x324ea0aa, 0xefaefe6e, 0x30c8fe67, 0x9452cecb, 0x1c7bffd9, 0x7d046667, 0xa7dd63d1, 0xd98d56ca,
      0xfabffc1a, 0x3cee207a, 0x7cfe86dd, 0xcb80fffd, 0x8fbb51cf, 0xa2f7ab32, 0x3795bd26, 0x979e9de4,
      0x96434c4f, 0x0bc91a20, 0x08baaace, 0x8b982e2f, 0x1248f6d8, 0xf0e64b0f, 0x2b6e8a3b, 0xf7a9571a);
  }

  lemma KeyBlockRounds6(s: Matrix)
    requires Rounds(s, 6)
             == Entries(0xfabffc1a, 0x3cee207a, 0x7cfe86dd, 0xcb80fffd, 0x8fbb51cf, 0xa2f7ab32, 0x3795bd26, 0x979e9de4,
                        0x96434c4f, 0x0bc91a20, 0x08baaace, 0x8b982e2f, 0x1248f6d8, 0xf0e64b0f, 0x2b6e8a3b, 0xf7a9571a)
    ensures Rounds(s, 8)
            == Entries(0x548f0a71, 0xa08d5538, 0x7af2c2b9, 0x1ae686f4, 0x30a374df, 0x6f217396, 0xcf95ea82, 0x1da38632,
                       0x5e859499, 0xd753e96c, 0x46dddfc6, 0xaf52cea5, 0xe37738bd, 0x5a155acc, 0x96aae0b8, 0x53aafce2)
  {
    hide Rounds, Entries;
    TwoDoubles(s, 6,
      0xfabffc1a, 0x3cee207a, 0x7cfe86dd, 0xcb80fffd, 0x8fbb51cf, 0xa2f7ab32, 0x3795bd26, 0x979e9de4,
      0x96434c4f, 0x0bc91a20, 0x08baaace, 0x8b982e2f, 0x1248f6d8, 0xf0e64b0f, 0x2b6e8a3b, 0xf7a9571a,
      0x85d02bd5, 0x9e06de95, 0x24133219, 0x390fb9f1, 0x3e0b9664, 0x3e66d446, 0xefe05236, 0x988b644f,
      0x3328cac0, 0x325ddf41, 0x02a12eb2, 0x4ac10ad8, 0xe1b3e63e, 0xa5f1961e, 0x2bade3ea, 0xf42d47f3,
      0xbcdfa769, 0xf038ddb0, 0x14a4a119, 0xe1f48dd6, 0x9bd0e42d, 0x443ac4bd, 0x9cfbdbc6, 0x28a8792f,
      0x06575a43, 0x31ee9c49, 0x8220d2c7, 0xef685b52, 0xcdb1e426, 0xd2b87614, 0x4bd16052, 0x379773fb,
      0xc9672a73, 0x58ee3692, 0x03105d04, 0xf8b43bd1, 0xb8ff9b9e, 0x212442dd, 0x9cd13936, 0x3d239220,
      0x4dc761ea, 0x9e38dca0, 0x3c564257, 0xae6d73e8, 0xd7bf72a6, 0x97d0598c, 0x9da7751f, 0x4a06db8c,
      0x548f0a71, 0xa08d5538, 0x7af2c2b9, 0x1ae686f4, 0x30a374df, 0x6f217396, 0xcf95ea82, 0x1da38632,
      0x5e859499, 0xd753e96c, 0x46dddfc6, 0xaf52cea5, 0xe37738bd, 0x5a155acc, 0x96aae0b8, 0x53aafce2);
  }

  lemma KeyBlockRounds8(s: Matrix)
    requires Rounds(s, 8)
             == Entries(0x548f0a71, 0xa08d5538, 0x7af2c2b9, 0x1ae686f4, 0x30a374df, 0x6f217396, 0xcf95ea82, 0x1da38632,
                        0x5e859499, 0xd753e96c, 0x46dddfc6, 0xaf52cea5, 0xe37738bd, 0x5a155acc, 0x96aae0b8, 0x53aafce2)
    ensures Rounds(s, 10)
            == Entries(0x8c32752b, 0xf0934d88, 0x53c771d3, 0x48ecbb61, 0x8f3727d7, 0xe8dee315, 0x50d5c56c, 0x5842a624,
                       0x61f99cb3, 0xba7723f8, 0x3dfc1ec7, 0x398032b8, 0xd0800770, 0x084169d2, 0xf7f9b319, 0x532fe432)
  {
    hide Rounds, Entries;
    TwoDoubles(s, 8,
      0x548f0a71, 0xa08d5538, 0x7af2c2b9, 0x1ae686f4, 0x30a374df, 0x6f217396, 0xcf95ea82, 0x1da38632,
      0x5e859499, 0xd753e96c, 0x46dddfc6, 0xaf52cea5, 0xe37738bd, 0x5a155acc, 0x96aae0b8, 0x53aafce2,
      0x9e1298bd, 0x8479d935, 0x8f9f52fa, 0x848988f1, 0x48f56d5f, 0x14eead48, 0xf3188afa, 0x823878d2,
      0xa671f3b7, 0xe4e2cd3d, 0xb0f094aa, 0xeefb0b3a, 0xfffef8d9, 0x7b8c8e16, 0x1c8ed8c2, 0x4de3d175,
      0xa6ed8bcd, 0x09282bbd, 0x5443d2b3, 0xdca61c08, 0xb25ed3a3, 0x1d43ba8b, 0x80515afd, 0x34a06262,
      0x86054623, 0x4843981f, 0xe5d6c2bd, 0x6a95653b, 0xdea3d195, 0x99b8e811, 0x34cdf8f2, 0x9d752f31,
      0x9b2779db, 0x15437b05, 0x6433b164, 0x1a77475f, 0x190c264b, 0xdadd584f, 0xfa2e3951, 0xc64aa670,
      0xd7e90227, 0x71622e0d, 0x2c6adfc6, 0xe8bc5db9, 0xc2fe3415, 0x1ac4d61b, 0x71513cb1, 0x2ccb6c4b,
      0x8c32752b, 0xf0934d88, 0x53c771d3, 0x48ecbb61, 0x8f3727d7, 0xe8dee315, 0x50d5c56c, 0x5842a624,
      0x61f99cb3, 0xba7723f8, 0x3dfc1ec7, 0x398032b8, 0xd0800770, 0x084169d2, 0xf7f9b319, 0x532fe432);
  }

  lemma KeyBlockStart()
    ensures var s := InitialMatrix(KEY, 0, NONCE);
      s == Rounds(s, 0) == Entries(0x61707865, 0x3320646e, 0x79622d32, 0x6b206574, 0x32bd2ff5, 0x6fb8b3b2, 0xc4f68ef8, 0x85826290,
                                   0x15af82f4, 0x5429cbdd, 0xf5bc941f, 0xc7f6a326, 0x00000000, 0x03020100, 0x07060504, 0x0b0a0908)
  {
  }

  lemma KeyBlockSum()
    ensures AddMatrix(Entries(0x8c32752b, 0xf0934d88, 0x53c771d3, 0x48ecbb61, 0x8f3727d7, 0xe8dee315, 0x50d5c56c, 0x5842a624,
                              0x61f99cb3, 0xba7723f8, 0x3dfc1ec7, 0x398032b8, 0xd0800770, 0x084169d2, 0xf7f9b319, 0x532fe432),
                      Entries(0x61707865, 0x3320646e, 0x79622d32, 0x6b206574, 0x32bd2ff5, 0x6fb8b3b2, 0xc4f68ef8, 0x85826290,
                              0x15af82f4, 0x5429cbdd, 0xf5bc941f, 0xc7f6a326, 0x00000000, 0x03020100, 0x07060504, 0x0b0a0908))
            == Entries(0xeda2ed90, 0x23b3b1f6, 0xcd299f05, 0xb40d20d5, 0xc1f457cc, 0x589796c7, 0x15cc5464, 0xddc508b4,
                       0x77a91fa7, 0x0ea0efd5, 0x33b8b2e6, 0x0176d5de, 0xd0800770, 0x0b436ad2, 0xfeffb81d, 0x5e39ed3a)
  {
    hide Entries, AddMatrix;
    SumsAre(0x8c32752b, 0xf0934d88, 0x53c771d3, 0x48ecbb61, 0x8f3727d7, 0xe8dee315, 0x50d5c56c, 0x5842a624,
            0x61f99cb3, 0xba7723f8, 0x3dfc1ec7, 0x398032b8, 0xd0800770, 0x084169d2, 0xf7f9b319, 0x532fe432,
            0x61707865, 0x3320646e, 0x79622d32, 0x6b206574, 0x32bd2ff5, 0x6fb8b3b2, 0xc4f68ef8, 0x85826290,
            0x15af82f4, 0x5429cbdd, 0xf5bc941f, 0xc7f6a326, 0x00000000, 0x03020100, 0x07060504, 0x0b0a0908,
            0xeda2ed90, 0x23b3b1f6, 0xcd299f05, 0xb40d20d5, 0xc1f457cc, 0x589796c7, 0x15cc5464, 0xddc508b4,
            0x77a91fa7, 0x0ea0efd5, 0x33b8b2e6, 0x0176d5de, 0xd0800770, 0x0b436ad2, 0xfeffb81d, 0x5e39ed3a);
  }

  const KEY_BLOCK_0: seq<byte> := [0x90, 0xed, 0xa2, 0xed, 0xf6, 0xb1, 0xb3, 0x23, 0x05, 0x9f, 0x29, 0xcd, 0xd5, 0x20, 0x0d, 0xb4]
  const KEY_BLOCK_16: seq<byte> := [0xcc, 0x57, 0xf4, 0xc1, 0xc7, 0x96, 0x97, 0x58, 0x64, 0x54, 0xcc, 0x15, 0xb4, 0x08, 0xc5, 0xdd]
  const KEY_BLOCK_32: seq<byte> := [0xa7, 0x1f, 0xa9, 0x77, 0xd5, 0xef, 0xa0, 0x0e, 0xe6, 0xb2, 0xb8, 0x33, 0xde, 0xd5, 0x76, 0x01]
  const KEY_BLOCK_48: seq<byte> := [0x70, 0x07, 0x80, 0xd0, 0xd2, 0x6a, 0x43, 0x0b, 0x1d, 0xb8, 0xff, 0xfe, 0x3a, 0xed, 0x39, 0x5e]

  lemma KeyBlockRows()
    ensures var s := Entries(0xeda2ed90, 0x23b3b1f6, 0xcd299f05, 0xb40d20d5, 0xc1f457cc, 0x589796c7, 0x15cc5464, 0xddc508b4,
                             0x77a91fa7, 0x0ea0efd5, 0x33b8b2e6, 0x0176d5de, 0xd0800770, 0x0b436ad2, 0xfeffb81d, 0x5e39ed3a);
      LoadsRow(s, 0, KEY_BLOCK_0) && LoadsRow(s, 1, KEY_BLOCK_16) && LoadsRow(s, 2, KEY_BLOCK_32) && LoadsRow(s, 3, KEY_BLOCK_48)
  {
  }

  // The block that the one-time key is cut from.
  lemma KeyBlock()
    ensures Block(KEY, 0, NONCE) == KEY_BLOCK_0 + KEY_BLOCK_16 + KEY_BLOCK_32 + KEY_BLOCK_48
  {
    hide Rounds, Entries, AddMatrix, Serialize, LoadsRow, InitialMatrix;
    var s := InitialMatrix(KEY, 0, NONCE);
    KeyBlockStart();
    KeyBlockRounds0(s);
    KeyBlockRounds2(s);
    KeyBlockRounds4(s);
    KeyBlockRounds6(s);
    KeyBlockRounds8(s);
    KeyBlockSum();
    KeyBlockRows();
    SerializeRows(AddMatrix(Rounds(s, 10), s), KEY_BLOCK_0, KEY_BLOCK_16, KEY_BLOCK_32, KEY_BLOCK_48);
  }

  lemma TextBlockRounds0(s: Matrix)
    requires Rounds(s, 0)
             == Entries(0x61707865, 0x3320646e, 0x79622d32, 0x6b206574, 0x32bd2ff5, 0x6fb8b3b2, 0xc4f68ef8, 0x85826290,
                        0x15af82f4, 0x5429cbdd, 0xf5bc941f, 0xc7f6a326, 0x00000001, 0x03020100, 0x07060504, 0x0b0a0908)
    ensures Rounds(s, 2)
            == Entries(0x6735c733, 0x8fea2e08, 0xb45b0bd3, 0x84a768be, 0x163a6345, 0xe772f9f5, 0x818a4656, 0x905274d3,
                       0xef6cfa17, 0xdca32747, 0x37d933aa, 0x36163736, 0x11521135, 0x45be39e8, 0x704a4c1c, 0x85bfccfd)
  {
    hide Rounds, Entries;
    TwoDoubles(s, 0,
      0x61707865, 0x3320646e, 0x79622d32, 0x6b206574, 0x32bd2ff5, 0x6fb8b3b2, 0xc4f68ef8, 0x85826290,
      0x15af82f4, 0x5429cbdd, 0xf5bc941f, 0xc7f6a326, 0x00000001, 0x03020100, 0x07060504, 0x0b0a0908,
      0xf7baf125, 0xd0b9b84f, 0x029112cb, 0x1068a8cc, 0x7eaba5fe, 0xc2515715, 0x171accd5, 0x4971abf9,
      0x9f701f80, 0x06640281, 0x6e166338, 0xed57039f, 0xe165085f, 0x991994c9, 0xbf2b95bb, 0x645364d1,
      0xeb746dcf, 0x743cdc00, 0x11f8e6c4, 0x788838c1, 0xd6ec4a19, 0xeefbe585, 0x62754aa7, 0xa3fdeb3d,
      0xbeb1d3d6, 0xdade3163, 0x3ab5d25e, 0xc2acbc49, 0x47dab1f9, 0xf533df3b, 0xf908fea3, 0x9fb390c7,
      0xb399490a, 0xd56772fb, 0x25c467eb, 0xd9ca615f, 0x544db3de, 0xd784a7d0, 0x1f6d9753, 0x464a44ea,
      0x4d900a45, 0xd381b839, 0x1768edae, 0x69c8a9e8, 0x88ccb0b5, 0xd9e4f0cb, 0x0cea8dea, 0xf3e26a6a,
      0x6735c733, 0x8fea2e08, 0xb45b0bd3, 0x84a768be, 0x163a6345, 0xe772f9f5, 0x818a4656, 0x905274d3,
      0xef6cfa17, 0xdca32747, 0x37d933aa, 0x36163736, 0x11521135, 0x45be39e8, 0x704a4c1c, 0x85bfccfd);
  }

  lemma TextBlockRounds2(s: Matrix)
    requires Rounds(s, 2)
             == Entries(0x6735c733, 0x8fea2e08, 0xb45b0bd3, 0x84a768be, 0x163a6345, 0xe772f9f5, 0x818a4656, 0x905274d3,
                        0xef6cfa17, 0xdca32747, 0x37d933aa, 0x36163736, 0x11521135, 0x45be39e8, 0x704a4c1c, 0x85bfccfd)
    ensures Rounds(s, 4)
            == Entries(0xe6e182fd, 0xeee78d8d, 0xc3657001, 0x5680f1a0, 0x9a6f79f5, 0xa141cb94, 0x4b2cd926, 0x4a6600ea,
                       0x13579cc3, 0x4e0e4ebf, 0x57de7705, 0x47309778, 0xb672f7ca, 0xa1508fa3, 0xa48e57a7, 0xc1b93191)
  {
    hide Rounds, Entries;
    TwoDoubles(s, 2,
      0x6735c733, 0x8fea2e08, 0xb45b0bd3, 0x84a768be, 0x163a6345, 0xe772f9f5, 0x818a4656, 0x905274d3,
      0xef6cfa17, 0xdca32747, 0x37d933aa, 0x36163736, 0x11521135, 0x45be39e8, 0x704a4c1c, 0x85bfccfd,
      0x7dc7ee40, 0x219b19d9, 0x79d64fa1, 0x20c4db0e, 0xb585dbda, 0x6f32da91, 0x743d5c3d, 0x03f6e872,
      0xb53cc87f, 0x88e39469, 0x391887c0, 0xefcd10ad, 0x8a826246, 0x8e2b3a3f, 0xe30a0e67, 0xa84a4831,
      0x8e68e63d, 0x9c9c1d18, 0x730eb35c, 0x4771f637, 0x88bf7398, 0xfaa20971, 0x6e6ac6eb, 0x7586cf96,
      0xd9aa76d6, 0x403641a8, 0x429b597e, 0xd01f728f, 0xcc024288, 0x2240ba71, 0xfec377ff, 0x88a28d0e,
      0x8941e1b0, 0x67239901, 0x7d76ae2a, 0x0390bca3, 0xadb5a4b1, 0xdf02acbb, 0x7c1d25c2, 0x7e2b7115,
      0x1142ec92, 0xb85b7721, 0x1f0509a8, 0x6c6ba034, 0x1c3a9a92, 0xdb2c7ffb, 0xceb19070, 0x5388f94b,
      0xe6e182fd, 0xeee78d8d, 0xc3657001, 0x5680f1a0, 0x9a6f79f5, 0xa141cb94, 0x4b2cd926, 0x4a6600ea,
      0x13579cc3, 0x4e0e4ebf, 0x57de7705, 0x47309778, 0xb672f7ca, 0xa1508fa3, 0xa48e57a7, 0xc1b93191);
  }

  lemma TextBlockRounds4(s: Matrix)
    requires Rounds(s, 4)
             == Entries(0xe6e182fd, 0xeee78d8d, 0xc3657001, 0x5680f1a0, 0x9a6f79f5, 0xa141cb94, 0x4b2cd926, 0x4a6600ea,
                        0x13579cc3, 0x4e0e4ebf, 0x57de7705, 0x47309778, 0xb672f7ca, 0xa1508fa3, 0xa48e57a7, 0xc1b93191)
    ensures Rounds(s, 6)
            == Entries(0xf28b3902, 0x18a99bb9, 0xf9435530, 0x1250390a, 0xcdcf9efb, 0xd0b45d26, 0x60696f81, 0xe055f0c0,
                       0xf63f9bef, 0xb8d1a7ab, 0x57ff8b97, 0xc2edb58b, 0x6705f22f, 0x4f76bdf7, 0x3219ea01, 0xe0fd32e7)
  {
    hide Rounds, Entries;
    TwoDoubles(s, 4,
      0xe6e182fd, 0xeee78d8d, 0xc3657001, 0x5680f1a0, 0x9a6f79f5, 0xa141cb94, 0x4b2cd926, 0x4a6600ea,
      0x13579cc3, 0x4e0e4ebf, 0x57de7705, 0x47309778, 0xb672f7ca, 0xa1508fa3, 0xa48e57a7, 0xc1b93191,
      0x8bf20540, 0xa4e4217e, 0x4e12bcfe, 0x806ac68c, 0x319f15f1, 0x0d27fbcf, 0xfb38531b, 0x380c0c52,
      0xe8c23665, 0x8aa087aa, 0x08760371, 0x7bf3cc1a, 0xca326280, 0x66100772, 0x9216e250, 0x71a7d343,
      0xea981e8d, 0xf671ab2c, 0x17c0e23e, 0xdd2d6c12, 0x1d1d1cf1, 0x63808c7f, 0x4d87ddd6, 0xa2afd104,
      0x98e7474c, 0xc919b5ac, 0xafb91c66, 0xface3928, 0x68c102e0, 0xe20230d9, 0x004c0de3, 0xd4f63038,
      0x92585877, 0x29d072db, 0xdb148317, 0xb332b76b, 0x0fd34909, 0x45d3fd5e, 0x2eabc18a, 0xa62fa20b,
      0x98bcba6b, 0x73559cca, 0x61969480, 0x24192511, 0xc63703ab, 0xa2c92b2e, 0xe3e61316, 0x1c1c40be,
      0xf28b3902, 0x18a99bb9, 0xf9435530, 0x1250390a, 0xcdcf9efb, 0xd0b45d26, 0x60696f81, 0xe055f0c0,
      0xf63f9bef, 0xb8d1a7ab, 0x57ff8b97, 0xc2edb58b, 0x6705f22f, 0x4f76bdf7, 0x3219ea01, 0xe0fd32e7);
  }

  lemma TextBlockRounds6(s: Matrix)
    requires Rounds(s, 6)
             == Entries(0xf28b3902, 0x18a99bb9, 0xf9435530, 0x1250390a, 0xcdcf9efb, 0xd0b45d26, 0x60696f81, 0xe055f0c0,
                        0xf63f9bef, 0xb8d1a7ab, 0x57ff8b97, 0xc2edb58b, 0x6705f22f, 0x4f76bdf7, 0x3219ea01, 0xe0fd32e7)
    ensures Rounds(s, 8)
            == Entries(0xdec56cf1, 0x8115b682, 0xc8ce3bbb, 0xeabd4c47, 0xc79add59, 0xefe31713, 0xc8254142, 0x5f6c0af7,
                       0xd63ad14d, 0xbbcb940e, 0xf92ad7c3, 0x8c539369, 0x64f9773a, 0xff4bd880, 0x88011353, 0xfbddf878)
  {
    hide Rounds, Entries;
    TwoDoubles(s, 6,
      0xf28b3902, 0x18a99bb9, 0xf9435530, 0x1250390a, 0xcdcf9efb, 0xd0b45d26, 0x60696f81, 0xe055f0c0,
      0xf63f9bef, 0xb8d1a7ab, 0x57ff8b97, 0xc2edb58b, 0x6705f22f, 0x4f76bdf7, 0x3219ea01, 0xe0fd32e7,
      0x9e36351a, 0xca6cfbb3, 0xc339a31d, 0xe6188dae, 0xbfea0a6e, 0xac7258d1, 0xfa3f2abc, 0x646f03f0,
      0x00a48909, 0x4257e665, 0x1078a039, 0x13babde3, 0xe49245bb, 0x445d988f, 0x89c8a8ed, 0x359ff5fd,
      0x1f22a03a, 0xe3f5ff4a, 0xc6998951, 0xd7c6b4e6, 0x902fee4d, 0x8a1f4c34, 0x13c53d43, 0x70b9d9e1,
      0x5c1191f7, 0xaae44316, 0xbd6e2cd7, 0x996e52a1, 0x21df7480, 0x1beaa4f9, 0x379b2ce7, 0x34df0d67,
      0x1c3f2aea, 0xbd675c85, 0x4cdcc1d6, 0xb9eea5a2, 0x288a04f1, 0xe391301a, 0xb9ea8012, 0x436d708d,
      0x8ebd886a, 0x7a953367, 0x570e2e42, 0x6be8cc3a, 0x38a467e6, 0xe0297a52, 0xaf2c13a6, 0x4ed9fd3a,
      0xdec56cf1, 0x8115b682, 0xc8ce3bbb, 0xeabd4c47, 0xc79add59, 0xefe31713, 0xc8254142, 0x5f6c0af7,
      0xd63ad14d, 0xbbcb940e, 0xf92ad7c3, 0x8c539369, 0x64f9773a, 0xff4bd880, 0x88011353, 0xfbddf878);
  }

  lemma TextBlockRounds8(s: Matrix)
    requires Rounds(s, 8)
             == Entries(0xdec56cf1, 0x8115b682, 0xc8ce3bbb, 0xeabd4c47, 0xc79add59, 0xefe31713, 0xc8254142, 0x5f6c0af7,
                        0xd63ad14d, 0xbbcb940e, 0xf92ad7c3, 0x8c539369, 0x64f9773a, 0xff4bd880, 0x88011353, 0xfbddf878)
    ensures Rounds(s, 10)
            == Entries(0x9ea562a9, 0xbd122e95, 0x6698e433, 0xbc3625a1, 0x9246ddc5, 0xc2787227, 0x8eddb3a3, 0xd3619606,
                       0xf19a58dc, 0x5c7344e2, 0x727c4378, 0x39563f5d, 0x04a87185, 0x26c17623, 0x76869ef5, 0x4e4f772f)
  {
    hide Rounds, Entries;
    TwoDoubles(s, 8,
      0xdec56cf1, 0x8115b682, 0xc8ce3bbb, 0xeabd4c47, 0xc79add59, 0xefe31713, 0xc8254142, 0x5f6c0af7,
      0xd63ad14d, 0xbbcb940e, 0xf92ad7c3, 0x8c539369, 0x64f9773a, 0xff4bd880, 0x88011353, 0xfbddf878,
      0xbb4c478d, 0x9445f185, 0x6c12f70c, 0xaf23fd8d, 0x6daa97a2, 0x093cd901, 0x6bca5bff, 0x0e0c0962,
      0x5030a86c, 0x215f5a42, 0x25c8eeb8, 0xa0e6be5d, 0x3c851486, 0x507e3681, 0xbceffe03, 0x654c7900,
      0x7920e7f4, 0x2a2126a6, 0xb7d9f8ff, 0x33aab341, 0x21a25482, 0x85037dcc, 0x89fba39b, 0x2444efc0,
      0xbdf2714e, 0x129f5abb, 0x2d9dc19d, 0x1d032e65, 0x231a3373, 0x36d29e81, 0x86136058, 0xae463120,
      0x42bd9b4b, 0xc7bc80fb, 0xf48526d3, 0x746c8bb7, 0x7071d091, 0x1def13c2, 0x770a2960, 0x75d72170,
      0x851abd74, 0x9cac02ae, 0x72419e6b, 0xfc9746f4, 0xb822924d, 0x4f190dfd, 0x47e11508, 0x4d721ee6,
      0x9ea562a9, 0xbd122e95, 0x6698e433, 0xbc3625a1, 0x9246ddc5, 0xc2787227, 0x8eddb3a3, 0xd3619606,
      0xf19a58dc, 0x5c7344e2, 0x727c4378, 0x39563f5d, 0x04a87185, 0x26c17623, 0x76869ef5, 0x4e4f772f);
  }

  lemma TextBlockStart()
    ensures var s := InitialMatrix(KEY, 1, NONCE);
      s == Rounds(s, 0) == Entries(0x61707865, 0x3320646e, 0x79622d32, 0x6b206574, 0x32bd2ff5, 0x6fb8b3b2, 0xc4f68ef8, 0x85826290,
                                   0x15af82f4, 0x5429cbdd, 0xf5bc941f, 0xc7f6a326, 0x00000001, 0x03020100, 0x07060504, 0x0b0a0908)
  {
  }

  lemma TextBlockSum()
    ensures AddMatrix(Entries(0x9ea562a9, 0xbd122e95, 0x6698e433, 0xbc3625a1, 0x9246ddc5, 0xc2787227, 0x8eddb3a3, 0xd3619606,
                              0xf19a58dc, 0x5c7344e2, 0x727c4378, 0x39563f5d, 0x04a87185, 0x26c17623, 0x76869ef5, 0x4e4f772f),
                      Entries(0x61707865, 0x3320646e, 0x79622d32, 0x6b206574, 0x32bd2ff5, 0x6fb8b3b2, 0xc4f68ef8, 0x85826290,
                              0x15af82f4, 0x5429cbdd, 0xf5bc941f, 0xc7f6a326, 0x00000001, 0x03020100, 0x07060504, 0x0b0a0908))
            == Entries(0x0015db0e, 0xf0329303, 0xdffb1165, 0x27568b15, 0xc5040dba, 0x323125d9, 0x53d4429b, 0x58e3f896,
                       0x0749dbd0, 0xb09d10bf, 0x6838d797, 0x014ce283, 0x04a87186, 0x29c37723, 0x7d8ca3f9, 0x59598037)
  {
    hide Entries, AddMatrix;
    SumsAre(0x9ea562a9, 0xbd122e95, 0x6698e433, 0xbc3625a1, 0x9246ddc5, 0xc2787227, 0x8eddb3a3, 0xd3619606,
            0xf19a58dc, 0x5c7344e2, 0x727c4378, 0x39563f5d, 0x04a87185, 0x26c17623, 0x76869ef5, 0x4e4f772f,
            0x61707865, 0x3320646e, 0x79622d32, 0x6b206574, 0x32bd2ff5, 0x6fb8b3b2, 0xc4f68ef8, 0x85826290,
            0x15af82f4, 0x5429cbdd, 0xf5bc941f, 0xc7f6a326, 0x00000001, 0x03020100, 0x07060504, 0x0b0a0908,
            0x0015db0e, 0xf0329303, 0xdffb1165, 0x27568b15, 0xc5040dba, 0x323125d9, 0x53d4429b, 0x58e3f896,
            0x0749dbd0, 0xb09d10bf, 0x6838d797, 0x014ce283, 0x04a87186, 0x29c37723, 0x7d8ca3f9, 0x59598037);
  }

  const TEXT_BLOCK_0: seq<byte> := [0x0e, 0xdb, 0x15, 0x00, 0x03, 0x93, 0x32, 0xf0, 0x65, 0x11, 0xfb, 0xdf, 0x15, 0x8b, 0x56, 0x27]
  const TEXT_BLOCK_16: seq<byte> := [0xba, 0x0d, 0x04, 0xc5, 0xd9, 0x25, 0x31, 0x32, 0x9b, 0x42, 0xd4, 0x53, 0x96, 0xf8, 0xe3, 0x58]
  const TEXT_BLOCK_32: seq<byte> := [0xd0, 0xdb, 0x49, 0x07, 0xbf, 0x10, 0x9d, 0xb0, 0x97, 0xd7, 0x38, 0x68, 0x83, 0xe2, 0x4c, 0x01]
  const TEXT_BLOCK_48: seq<byte> := [0x86, 0x71, 0xa8, 0x04, 0x23, 0x77, 0xc3, 0x29, 0xf9, 0xa3, 0x8c, 0x7d, 0x37, 0x80, 0x59, 0x59]

  lemma TextBlockRows()
    ensures var s := Entries(0x0015db0e, 0xf0329303, 0xdffb1165, 0x27568b15, 0xc5040dba, 0x323125d9, 0x53d4429b, 0x58e3f896,
                             0x0749dbd0, 0xb09d10bf, 0x6838d797, 0x014ce283, 0x04a87186, 0x29c37723, 0x7d8ca3f9, 0x59598037);
      LoadsRow(s, 0, TEXT_BLOCK_0) && LoadsRow(s, 1, TEXT_BLOCK_16) && LoadsRow(s, 2, TEXT_BLOCK_32) && LoadsRow(s, 3, TEXT_BLOCK_48)
  {
  }

  // The block that the plaintext is sealed with.
  lemma TextBlock()
    ensures Block(KEY, 1, NONCE) == TEXT_BLOCK_0 + TEXT_BLOCK_16 + TEXT_BLOCK_32 + TEXT_BLOCK_48
  {
    hide Rounds, Entries, AddMatrix, Serialize, LoadsRow, InitialMatrix;
    var s := InitialMatrix(KEY, 1, NONCE);
    TextBlockStart();
    TextBlockRounds0(s);
    TextBlockRounds2(s);
    TextBlockRounds4(s);
    TextBlockRounds6(s);
    TextBlockRounds8(s);
    TextBlockSum();
    TextBlockRows();
    SerializeRows(AddMatrix(Rounds(s, 10), s), TEXT_BLOCK_0, TEXT_BLOCK_16, TEXT_BLOCK_32, TEXT_BLOCK_48);
  }
}
