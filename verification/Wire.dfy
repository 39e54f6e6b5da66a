/**
The datagram envelope: encoding and decoding as the Python reference does it, and the header routines of
the C++ component.
*/
module Wire {
  import opened Options
  import opened Bits
  import opened Words
  import Aead
  import TopicHash

  const HEADER_LEN: nat := 12
  const MAX_DATAGRAM: nat := 1232
  const MAX_PAYLOAD: nat := 1220
  const PREFIX_LEN: nat := 8
  const VERSION: byte := 1

  const RAW: byte := 0
  const PROTOBUF: byte := 1
  const MODE_NONE: byte := 0
  const MODE_AEAD: byte := 1

  type u16 = x: int | 0 <= x < 0x1_0000

  predicate KnownEncoding(e: int) { e == RAW || e == PROTOBUF }

  predicate KnownMode(m: int) { m == MODE_NONE || m == MODE_AEAD }

  function AeadBodyLen(n: nat): nat { 12 + PREFIX_LEN + n + 16 }

  // ---------------------------------------------------------------- the header

  function Header(crc: u32, encoding: byte, len: u16, mode: byte): (h: seq<byte>)
    ensures |h| == HEADER_LEN
  {
    [0x4d, 0x50, VERSION, encoding] + ToLe(crc, 4) + ToLe(len, 2) + [mode, 0]
  }

  function HeaderCrc(data: seq<byte>): u32
    requires |data| >= HEADER_LEN
  {
    Load32(data, 4)
  }

  function HeaderLen(data: seq<byte>): u16
    requires |data| >= HEADER_LEN
  {
    Pair(data[8], data[9])
  }

  function Pair(lo: byte, hi: byte): u16 { lo + 0x100 * (hi as int) }

  lemma ToLe4(v: u32)
    ensures var s := ToLe(v, 4); Quad(s[0], s[1], s[2], s[3]) == v
    ensures ToLe(v, 4) == [v % 256, v / 0x100 % 256, v / 0x1_0000 % 256, v / 0x100_0000]
  {
    assert v / 0x100 / 256 == v / 0x1_0000 && v / 0x1_0000 / 256 == v / 0x100_0000;
    assert ToLe(v / 0x100_0000, 1) == [v / 0x100_0000];
    assert ToLe(v / 0x1_0000, 2) == [v / 0x1_0000 % 256] + ToLe(v / 0x100_0000, 1);
    assert ToLe(v / 0x100, 3) == [v / 0x100 % 256] + ToLe(v / 0x1_0000, 2);
  }

  lemma ToLe2(v: u16)
    ensures var s := ToLe(v, 2); Pair(s[0], s[1]) == v
    ensures ToLe(v, 2) == [v % 256, v / 0x100]
  {
    assert ToLe(v / 256, 1) == [v / 256];
  }

  lemma HeaderBytes(crc: u32, encoding: byte, len: u16, mode: byte)
    ensures Header(crc, encoding, len, mode)
            == [0x4d, 0x50, VERSION, encoding, crc % 256, crc / 0x100 % 256, crc / 0x1_0000 % 256, crc / 0x100_0000,
                len % 256, len / 0x100, mode, 0]
  {
    ToLe4(crc);
    ToLe2(len);
  }

  lemma HeaderFields(crc: u32, encoding: byte, len: u16, mode: byte, body: seq<byte>)
    ensures var d := Header(crc, encoding, len, mode) + body;
      && d[0] == 0x4d && d[1] == 0x50 && d[2] == VERSION && d[3] == encoding && d[10] == mode && d[11] == 0
      && HeaderCrc(d) == crc && HeaderLen(d) == len
      && d[..HEADER_LEN] == Header(crc, encoding, len, mode) && d[HEADER_LEN..] == body
  {
    ToLe4(crc);
    ToLe2(len);
  }

  // ---------------------------------------------------------------- Python: encode and decode

  datatype Decoded = Decoded(crc: u32, encoding: byte, payload: seq<byte>, timestamp: Option<u32>, nonce: Option<u32>, wasEncrypted: bool)

  // What encode admits; everything else raises.
  predicate Encodable(payload: seq<byte>, encoding: int, key: Option<seq<byte>>, nonce: seq<byte>)
  {
    && |payload| <= MAX_PAYLOAD && KnownEncoding(encoding)
    && (key.Some? ==> |key.value| == 32 && |nonce| == 12 && HEADER_LEN + AeadBodyLen(|payload|) <= MAX_DATAGRAM)
  }

  function Plaintext(crc: u32, timestamp: int, payload: seq<byte>): seq<byte>
  {
    ToLe(crc, 4) + ToLe(timestamp % 0x1_0000_0000, 4) + payload
  }

  function Encode(topic: seq<byte>, payload: seq<byte>, encoding: int, key: Option<seq<byte>>, timestamp: int,
      nonce: seq<byte>): (r: Option<seq<byte>>)
    ensures r.Some? <==> Encodable(payload, encoding, key, nonce)
    ensures r.Some? ==> HEADER_LEN <= |r.value| <= MAX_DATAGRAM
  {
    if |payload| > MAX_PAYLOAD then None
    else if !KnownEncoding(encoding) then None
    else
      var crc := TopicHash.Crc32(topic);
      match key
      case None => Some(Header(crc, encoding, |payload|, MODE_NONE) + payload)
      case Some(k) =>
        if |k| != 32 then None
        else if |nonce| != 12 then None
        else if HEADER_LEN + AeadBodyLen(|payload|) > MAX_DATAGRAM then None
        else
          var header := Header(0, encoding, |payload|, MODE_AEAD);
          var s := Aead.Seal(k, nonce, Plaintext(crc, timestamp, payload), header);
          Some(header + nonce + s.ct + s.tag)
  }

  // Up to 1220 bytes can be sent plain, up to 1184 sealed.
  lemma EncodesUpTo(topic: seq<byte>, payload: seq<byte>, encoding: int, key: Option<seq<byte>>, timestamp: int,
      nonce: seq<byte>)
    requires key.Some? ==> |key.value| == 32 && |nonce| == 12
    ensures Encode(topic, payload, encoding, key, timestamp, nonce).Some?
            <==> (encoding == 0 || encoding == 1) && |payload| <= if key.Some? then 1184 else 1220
  {
    hide Encode;
  }

  function Decode(data: seq<byte>, key: Option<seq<byte>>): Option<Decoded>
  {
    if |data| < HEADER_LEN then None
    else if data[0..2] != [0x4d, 0x50] then None
    else if data[2] != VERSION then None
    else if !KnownEncoding(data[3]) then None
    else if !KnownMode(data[10]) then None
    else
      var len := HeaderLen(data);
      if data[10] == MODE_AEAD then
        if |data| != HEADER_LEN + AeadBodyLen(len) then None
        else if key.None? || |key.value| != 32 then None
        else
          var nonce := data[HEADER_LEN..HEADER_LEN + 12];
          var s := Aead.Sealed(data[HEADER_LEN + 12..|data| - 16], data[|data| - 16..]);
          match Aead.Open(key.value, nonce, s, data[0..HEADER_LEN])
          case None => None
          case Some(plaintext) =>
            Some(Decoded(Load32(plaintext, 0), data[3], plaintext[PREFIX_LEN..], Some(Load32(plaintext, 4)),
                         Some(Load32(nonce, 0)), true))
      else if HEADER_LEN + len != |data| then None
      else Some(Decoded(HeaderCrc(data), data[3], data[HEADER_LEN..], None, None, false))
  }

  // In both modes, what encode admits decodes to what was encoded.
  lemma DecodeEncodePlain(topic: seq<byte>, payload: seq<byte>, encoding: int, timestamp: int,
      nonce: seq<byte>, anyKey: Option<seq<byte>>)
    requires Encodable(payload, encoding, None, nonce)
    ensures Decode(Encode(topic, payload, encoding, None, timestamp, nonce).value, anyKey)
            == Some(Decoded(TopicHash.Crc32(topic), encoding, payload, None, None, false))
  {
    hide TopicHash.Crc32, Header, HeaderLen, HeaderCrc;
    HeaderFields(TopicHash.Crc32(topic), encoding, |payload|, MODE_NONE, payload);
  }

  lemma PlaintextFields(crc: u32, timestamp: int, payload: seq<byte>)
    ensures var p := Plaintext(crc, timestamp, payload);
      && |p| == PREFIX_LEN + |payload|
      && Load32(p, 0) == crc && Load32(p, 4) == timestamp % 0x1_0000_0000 && p[PREFIX_LEN..] == payload
  {
    ToLe4(crc);
    ToLe4(timestamp % 0x1_0000_0000);
  }

  // The pieces of an encrypted datagram.
  lemma SealedPieces(header: seq<byte>, nonce: seq<byte>, ct: seq<byte>, tag: seq<byte>)
    requires |header| == HEADER_LEN && |nonce| == 12 && |tag| == 16
    ensures var d := header + nonce + ct + tag;
      && d == header + (nonce + ct + tag)
      && d[0..HEADER_LEN] == header && d[HEADER_LEN..HEADER_LEN + 12] == nonce
      && d[HEADER_LEN + 12..|d| - 16] == ct && d[|d| - 16..] == tag
  {
  }

  lemma DecodeEncodeSealed(topic: seq<byte>, payload: seq<byte>, encoding: int, key: seq<byte>, timestamp: int,
      nonce: seq<byte>)
    requires Encodable(payload, encoding, Some(key), nonce)
    ensures Decode(Encode(topic, payload, encoding, Some(key), timestamp, nonce).value, Some(key))
            == Some(Decoded(TopicHash.Crc32(topic), encoding, payload, Some(timestamp % 0x1_0000_0000), Some(Load32(nonce, 0)), true))
  {
    hide TopicHash.Crc32, Header, HeaderLen, HeaderCrc, Aead.Seal, Aead.Open, Plaintext, Load32;
    var header := Header(0, encoding, |payload|, MODE_AEAD);
    var plaintext := Plaintext(TopicHash.Crc32(topic), timestamp, payload);
    PlaintextFields(TopicHash.Crc32(topic), timestamp, payload);
    var s := Aead.Seal(key, nonce, plaintext, header);
    SealedPieces(header, nonce, s.ct, s.tag);
    HeaderFields(0, encoding, |payload|, MODE_AEAD, nonce + s.ct + s.tag);
    Aead.OpenIffSealed(key, nonce, plaintext, s, header);
  }

  // ---------------------------------------------------------------- C++: encode_header and decode

  // The real CRC never appears in the header of an encrypted datagram.
  method EncodeHeader(crc: u32, encoding: byte, len: u16, out: array<byte>, mode: byte)
    requires out.Length >= HEADER_LEN
    modifies out
    ensures out[..] == Header(if mode != MODE_NONE then 0 else crc, encoding, len, mode) + old(out[HEADER_LEN..])
  {
    hide Header;
    var topicCrc: u32 := crc;
    if mode != MODE_NONE {
      topicCrc := 0;
    }
    HeaderBytes(topicCrc, encoding, len, mode);
    out[0] := 0x4d;
    out[1] := 0x50;
    out[2] := VERSION;
    out[3] := encoding;
    out[4] := topicCrc % 256;
    out[5] := topicCrc / 0x100 % 256;
    out[6] := topicCrc / 0x1_0000 % 256;
    out[7] := topicCrc / 0x100_0000;
    out[8] := len % 256;
    out[9] := len / 0x100;
    out[10] := mode;
    out[11] := 0;
    assert out[..] == out[..HEADER_LEN] + old(out[HEADER_LEN..]);
  }

  datatype DecodeError =
    | TOO_SHORT | BAD_MAGIC | BAD_VERSION | UNKNOWN_ENCODING | LENGTH_MISMATCH | UNKNOWN_ENC_MODE | CIPHERTEXT_TOO_SHORT

  datatype Packet = Packet(crc: u32, encoding: byte, mode: byte, plaintextLen: u16, payload: seq<byte>)

  datatype Parsed = Bad(error: DecodeError) | Good(packet: Packet)

  function Parse(data: seq<byte>): (r: Parsed)
    ensures r.Good? ==> |data| >= HEADER_LEN && |r.packet.payload| == |data| - HEADER_LEN
    ensures r.Good? && r.packet.mode == MODE_AEAD ==> |r.packet.payload| == AeadBodyLen(r.packet.plaintextLen)
  {
    if |data| < HEADER_LEN then Bad(TOO_SHORT)
    else if data[0] != 0x4d || data[1] != 0x50 then Bad(BAD_MAGIC)
    else if data[2] != VERSION then Bad(BAD_VERSION)
    else if !KnownEncoding(data[3]) then Bad(UNKNOWN_ENCODING)
    else if !KnownMode(data[10]) then Bad(UNKNOWN_ENC_MODE)
    else if data[10] == MODE_AEAD && |data| != HEADER_LEN + AeadBodyLen(HeaderLen(data)) then Bad(CIPHERTEXT_TOO_SHORT)
    else if data[10] != MODE_AEAD && HEADER_LEN + HeaderLen(data) != |data| then Bad(LENGTH_MISMATCH)
    else Good(Packet(HeaderCrc(data), data[3], data[10], HeaderLen(data), data[HEADER_LEN..]))
  }

  // The rules of validation, with their numbers: magic, version, encoding, mode, and a length that is that of
  // the datagram.
  lemma ParseAccepts(data: seq<byte>)
    ensures Parse(data).Good?
            <==> && |data| >= 12 && data[0] == 0x4d && data[1] == 0x50 && data[2] == 1
                 && (data[3] == 0 || data[3] == 1)
                 && var len := data[8] + 0x100 * (data[9] as int);
                    (data[10] == 0 && |data| == 12 + len) || (data[10] == 1 && |data| == 48 + len)
  {
    hide HeaderCrc;
  }

  // Re-encoding what was parsed gives the datagram back, with the reserved byte zeroed -- and, when it was
  // encrypted, with the CRC field zeroed too.
  lemma ParseThenEncode(data: seq<byte>)
    requires Parse(data).Good?
    ensures var p := Parse(data).packet;
      Header(if p.mode == MODE_NONE then p.crc else 0, p.encoding, p.plaintextLen, p.mode) + p.payload
      == if p.mode == MODE_NONE then data[11 := 0] else data[4 := 0][5 := 0][6 := 0][7 := 0][11 := 0]
  {
    hide Header, Quad, Pair;
    var p := Parse(data).packet;
    HeaderBytes(if p.mode == MODE_NONE then p.crc else 0, p.encoding, p.plaintextLen, p.mode);
    FourBytes(data[4], data[5], data[6], data[7]);
    TwoBytes(data[8], data[9]);
  }

  lemma TwoBytes(a: byte, b: byte)
    ensures var v := Pair(a, b); v % 256 == a && v / 0x100 == b
  {
  }

  lemma FourBytes(a: byte, b: byte, c: byte, d: byte)
    ensures var v := Quad(a, b, c, d); v % 256 == a && v / 0x100 % 256 == b && v / 0x1_0000 % 256 == c && v / 0x100_0000 == d
  {
    var v, w := Quad(a, b, c, d), b + 0x100 * c + 0x1_0000 * (d as int);
    LowByte(a, w);
    LowByte(b, c + 0x100 * (d as int));
    LowByte(c, d);
    assert v == a + 0x100 * w;
    assert v / 0x1_0000 == w / 0x100 && v / 0x100_0000 == w / 0x100 / 0x100;
  }

  lemma LowByte(a: byte, rest: nat)
    ensures (a + 0x100 * rest) % 0x100 == a && (a + 0x100 * rest) / 0x100 == rest
  {
  }

  // The C++ parser and the Python decoder accept the same datagrams: all of them when plain, and the
  // authentic ones when encrypted.
  lemma ParsersAgreePlain(data: seq<byte>, key: Option<seq<byte>>)
    requires |data| >= HEADER_LEN && data[10] != MODE_AEAD
    ensures Decode(data, key)
            == match Parse(data)
               case Bad(_) => None
               case Good(p) => Some(Decoded(p.crc, p.encoding, p.payload, None, None, false))
  {
    hide HeaderCrc, HeaderLen;
    assert data[0..2] == [data[0], data[1]];
  }

  lemma ParsersAgreeSealed(data: seq<byte>, key: Option<seq<byte>>)
    requires |data| >= HEADER_LEN && data[10] == MODE_AEAD
    requires key.Some? ==> |key.value| == 32
    ensures Decode(data, key).Some? <==>
            Parse(data).Good? && key.Some?
            && Aead.Tag(key.value, data[12..24], data[24..|data| - 16], data[..12]) == data[|data| - 16..]
  {
    hide HeaderCrc, HeaderLen, Aead.Tag, Load32;
    assert data[0..2] == [data[0], data[1]];
    assert data[0..HEADER_LEN] == data[..12];
  }
}
