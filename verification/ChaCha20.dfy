/**
ChaCha20 (sections 2.1 to 2.4 of RFC 8439): the block function and the keystream, which is exclusive-ored
into data in place.
*/
module ChaCha20 {
  import opened Bits
  import opened Words

  // ---------------------------------------------------------------- the block function

  function Rotl32(x: u32, n: nat): u32
    requires 0 < n < 32
  {
    var hi, lo := U32(Shl(x, n)), Shr(x, 32 - n);
    Pow2Values();
    ShrBound(x, 32 - n);
    OrBound(hi, lo, 32);
    Or(hi, lo)
  }

  function XorWord(a: u32, b: u32): u32
  {
    Pow2Values();
    XorBound(a, b, 32);
    Xor(a, b)
  }

  function XorByte(a: byte, b: byte): byte
  {
    Pow2Values();
    XorBound(a, b, 8);
    Xor(a, b)
  }

  function AddWord(a: u32, b: u32): u32 { U32(a + b as int) }

  datatype Quad = Quad(a: u32, b: u32, c: u32, d: u32)

  // Half a quarter round: a += b; d ^= a; d <<<= m; c += d; b ^= c; b <<<= n
  function Half(q: Quad, m: nat, n: nat): Quad
    requires 0 < m < 32 && 0 < n < 32
  {
    var a := AddWord(q.a, q.b);
    var d := Rotl32(XorWord(q.d, a), m);
    var c := AddWord(q.c, d);
    Quad(a, Rotl32(XorWord(q.b, c), n), c, d)
  }

  function QuarterRound(q: Quad): Quad
  {
    Half(Half(q, 16, 12), 8, 7)
  }

  type Matrix = s: seq<u32> | |s| == 16 witness seq(16, _ => 0)

  function QuarterRoundAt(s: Matrix, a: nat, b: nat, c: nat, d: nat): Matrix
    requires a < 16 && b < 16 && c < 16 && d < 16
  {
    var q := QuarterRound(Quad(s[a], s[b], s[c], s[d]));
    s[a := q.a][b := q.b][c := q.c][d := q.d]
  }

  function DoubleRound(s: Matrix): Matrix
  {
    var s1 := QuarterRoundAt(QuarterRoundAt(s, 0, 4, 8, 12), 1, 5, 9, 13);
    var s2 := QuarterRoundAt(QuarterRoundAt(s1, 2, 6, 10, 14), 3, 7, 11, 15);
    var s3 := QuarterRoundAt(QuarterRoundAt(s2, 0, 5, 10, 15), 1, 6, 11, 12);
    QuarterRoundAt(QuarterRoundAt(s3, 2, 7, 8, 13), 3, 4, 9, 14)
  }

  function Rounds(s: Matrix, n: nat): Matrix
  {
    if n == 0 then s else DoubleRound(Rounds(s, n - 1))
  }

  function InitialMatrix(key: seq<byte>, counter: u32, nonce: seq<byte>): Matrix
    requires |key| == 32 && |nonce| == 12
  {
    [0x61707865, 0x3320646E, 0x79622D32, 0x6B206574,
     Load32(key, 0), Load32(key, 4), Load32(key, 8), Load32(key, 12),
     Load32(key, 16), Load32(key, 20), Load32(key, 24), Load32(key, 28),
     counter, Load32(nonce, 0), Load32(nonce, 4), Load32(nonce, 8)]
  }

  function AddMatrix(w: Matrix, s: Matrix): Matrix
  {
    seq(16, i requires 0 <= i < 16 => AddWord(w[i], s[i]))
  }

  function Serialize(s: seq<u32>): (out: seq<byte>)
    ensures |out| == 4 * |s|
  {
    if s == [] then [] else ToLe(s[0], 4) + Serialize(s[1..])
  }

  function Block(key: seq<byte>, counter: u32, nonce: seq<byte>): (out: seq<byte>)
    requires |key| == 32 && |nonce| == 12
    ensures |out| == 64
  {
    var s := InitialMatrix(key, counter, nonce);
    Serialize(AddMatrix(Rounds(s, 10), s))
  }

  // ---------------------------------------------------------------- what the shifts amount to

  // The or of two shifts is a rotation: the low bits move up, the high bits come round.
  lemma Rotl32Rotates(x: u32, n: nat)
    requires 0 < n < 32
    ensures Rotl32(x, n) == Pow2(n) * (x % Pow2(32 - n)) + Shr(x, 32 - n)
  {
    hide Pow2, Or;
    var hi, lo := U32(Shl(x, n)), Shr(x, 32 - n);
    ShlWord(x, n);
    ShrBelow(x, n);
    OrComm(hi, lo);
    OrDisjoint(lo, x % Pow2(32 - n), n);
  }

  // Serializing undoes loading.
  lemma {:induction false} SerializeLoaded(s: seq<u32>, b: seq<byte>)
    requires |b| == 4 * |s| && forall i :: 0 <= i < |s| ==> s[i] == Load32(b, 4 * i)
    ensures Serialize(s) == b
    decreases |s|
  {
    hide Load32, ToLe;
    if s != [] {
      var t := b[4..];
      forall i | 0 <= i < |s| - 1
        ensures s[1..][i] == Load32(t, 4 * i)
      {
        LoadLater(b, 4 * (i + 1));
      }
      SerializeLoaded(s[1..], t);
      Load32IsFromLe(b, 0);
      ToLeFromLe(b[0..4]);
      assert b == b[0..4] + t;
    }
  }

  lemma LoadLater(b: seq<byte>, i: nat)
    requires 4 <= i && i + 4 <= |b|
    ensures Load32(b, i) == Load32(b[4..], i - 4)
  {
  }

  lemma {:induction false} SerializeConcat(s: seq<u32>, t: seq<u32>)
    ensures Serialize(s + t) == Serialize(s) + Serialize(t)
    decreases |s|
  {
    hide ToLe;
    if s == [] {
      assert s + t == t;
    } else {
      SerializeConcat(s[1..], t);
      assert (s + t)[1..] == s[1..] + t;
    }
  }

  ghost predicate LoadsRow(s: Matrix, row: nat, b: seq<byte>)
  {
    && |b| == 16 && row < 4
    && s[4 * row] == Load32(b, 0) && s[4 * row + 1] == Load32(b, 4)
    && s[4 * row + 2] == Load32(b, 8) && s[4 * row + 3] == Load32(b, 12)
  }

  lemma SerializeRow(s: Matrix, row: nat, b: seq<byte>)
    requires LoadsRow(s, row, b)
    ensures Serialize(s[4 * row..4 * row + 4]) == b
  {
    hide Load32, Serialize;
    SerializeLoaded(s[4 * row..4 * row + 4], b);
  }

  lemma SerializeRows(s: Matrix, a: seq<byte>, b: seq<byte>, c: seq<byte>, d: seq<byte>)
    requires LoadsRow(s, 0, a) && LoadsRow(s, 1, b) && LoadsRow(s, 2, c) && LoadsRow(s, 3, d)
    ensures Serialize(s) == a + b + c + d
  {
    hide LoadsRow, Serialize;
    SerializeRow(s, 0, a);
    SerializeRow(s, 1, b);
    SerializeRow(s, 2, c);
    SerializeRow(s, 3, d);
    SerializeConcat(s[0..4], s[4..8]);
    SerializeConcat(s[0..4] + s[4..8], s[8..12]);
    SerializeConcat(s[0..4] + s[4..8] + s[8..12], s[12..16]);
    assert s == s[0..4] + s[4..8] + s[8..12] + s[12..16];
  }

  // Four characters as a word.
  function Ascii(s: string): nat
    requires |s| == 4
  {
    s[0] as int + 0x100 * s[1] as int + 0x1_0000 * s[2] as int + 0x100_0000 * s[3] as int
  }

  // The constant words spell "expand 32-byte k".
  lemma InitialPhrase(key: seq<byte>, counter: u32, nonce: seq<byte>)
    requires |key| == 32 && |nonce| == 12
    ensures var s := InitialMatrix(key, counter, nonce);
      s[0] == Ascii("expa") && s[1] == Ascii("nd 3") && s[2] == Ascii("2-by") && s[3] == Ascii("te k")
  {
    hide Load32;
  }

  // ---------------------------------------------------------------- the double round, by position

  function Part(q: Quad, row: nat): u32
  {
    if row == 0 then q.a else if row == 1 then q.b else if row == 2 then q.c else q.d
  }

  function Column(s: Matrix, j: nat): Quad
    requires j < 4
  {
    Quad(s[j], s[4 + j], s[8 + j], s[12 + j])
  }

  // The quarter round on each of the four columns.
  function Columns(s: Matrix): Matrix
  {
    seq(16, k requires 0 <= k < 16 => Part(QuarterRound(Column(s, k % 4)), k / 4))
  }

  // Each row turned to the left, by t times its number.
  function Turn(s: Matrix, t: nat): Matrix
  {
    seq(16, k requires 0 <= k < 16 => s[k / 4 * 4 + (k % 4 + t * (k / 4)) % 4])
  }

  // The first four quarter rounds are those of the columns.
  lemma ColumnRound(s: Matrix)
    ensures QuarterRoundAt(QuarterRoundAt(QuarterRoundAt(QuarterRoundAt(s, 0, 4, 8, 12), 1, 5, 9, 13), 2, 6, 10, 14), 3, 7, 11, 15)
            == Columns(s)
  {
    hide QuarterRound;
  }

  lemma TurnOnce(s: Matrix)
    ensures Turn(s, 1)
            == [s[0], s[1], s[2], s[3], s[5], s[6], s[7], s[4], s[10], s[11], s[8], s[9], s[15], s[12], s[13], s[14]]
  {
  }

  lemma TurnThrice(s: Matrix)
    ensures Turn(s, 3)
            == [s[0], s[1], s[2], s[3], s[7], s[4], s[5], s[6], s[10], s[11], s[8], s[9], s[13], s[14], s[15], s[12]]
  {
  }

  lemma ColumnsOf(s: Matrix)
    ensures var p, q := QuarterRound(Column(s, 0)), QuarterRound(Column(s, 1));
      var u, v := QuarterRound(Column(s, 2)), QuarterRound(Column(s, 3));
      Columns(s) == [p.a, q.a, u.a, v.a, p.b, q.b, u.b, v.b, p.c, q.c, u.c, v.c, p.d, q.d, u.d, v.d]
  {
    hide QuarterRound;
  }

  // The last four are those of the columns of the turned matrix, turned back: those of the diagonals.
  lemma DiagonalRound(s: Matrix)
    ensures QuarterRoundAt(QuarterRoundAt(QuarterRoundAt(QuarterRoundAt(s, 0, 5, 10, 15), 1, 6, 11, 12), 2, 7, 8, 13), 3, 4, 9, 14)
            == Turn(Columns(Turn(s, 1)), 3)
  {
    hide QuarterRound, Columns, Turn;
    TurnOnce(s);
    ColumnsOf(Turn(s, 1));
    TurnThrice(Columns(Turn(s, 1)));
  }

  lemma DoubleRoundTurns(s: Matrix)
    ensures DoubleRound(s) == Turn(Columns(Turn(Columns(s), 1)), 3)
  {
    hide QuarterRoundAt, Columns, Turn;
    ColumnRound(s);
    DiagonalRound(Columns(s));
  }

  // ---------------------------------------------------------------- the block function, in place

  method QuarterRoundInPlace(w: array<u32>, a: nat, b: nat, c: nat, d: nat)
    requires w.Length == 16 && a < 16 && b < 16 && c < 16 && d < 16
    requires a != b && a != c && a != d && b != c && b != d && c != d
    modifies w
    ensures w[..] == QuarterRoundAt(old(w[..]), a, b, c, d)
  {
    hide Rotl32, XorWord, AddWord;
    ghost var s := w[..];
    w[a] := AddWord(w[a], w[b]);
    w[d] := XorWord(w[d], w[a]);
    w[d] := Rotl32(w[d], 16);
    w[c] := AddWord(w[c], w[d]);
    w[b] := XorWord(w[b], w[c]);
    w[b] := Rotl32(w[b], 12);
    assert Quad(w[a], w[b], w[c], w[d]) == Half(Quad(s[a], s[b], s[c], s[d]), 16, 12);
    w[a] := AddWord(w[a], w[b]);
    w[d] := XorWord(w[d], w[a]);
    w[d] := Rotl32(w[d], 8);
    w[c] := AddWord(w[c], w[d]);
    w[b] := XorWord(w[b], w[c]);
    w[b] := Rotl32(w[b], 7);
    assert Quad(w[a], w[b], w[c], w[d]) == QuarterRound(Quad(s[a], s[b], s[c], s[d]));
    assert w[..] == QuarterRoundAt(s, a, b, c, d);
  }

  method DoubleRoundInPlace(w: array<u32>)
    requires w.Length == 16
    modifies w
    ensures w[..] == DoubleRound(old(w[..]))
  {
    hide QuarterRoundAt;
    QuarterRoundInPlace(w, 0, 4, 8, 12);
    QuarterRoundInPlace(w, 1, 5, 9, 13);
    QuarterRoundInPlace(w, 2, 6, 10, 14);
    QuarterRoundInPlace(w, 3, 7, 11, 15);
    QuarterRoundInPlace(w, 0, 5, 10, 15);
    QuarterRoundInPlace(w, 1, 6, 11, 12);
    QuarterRoundInPlace(w, 2, 7, 8, 13);
    QuarterRoundInPlace(w, 3, 4, 9, 14);
  }

  // chacha20_block
  method ComputeBlock(key: seq<byte>, counter: u32, nonce: seq<byte>) returns (out: seq<byte>)
    requires |key| == 32 && |nonce| == 12
    ensures out == Block(key, counter, nonce)
  {
    hide InitialMatrix, DoubleRound, AddWord, ToLe;
    var s := InitialMatrix(key, counter, nonce);
    var w := new u32[16](i requires 0 <= i < 16 => s[i]);
    assert w[..] == s;
    for i := 0 to 10
      invariant w[..] == Rounds(s, i)
    {
      DoubleRoundInPlace(w);
    }
    ghost var sum := AddMatrix(w[..], s);
    out := [];
    for i := 0 to 16
      invariant out + Serialize(sum[i..]) == Serialize(sum)
    {
      assert sum[i..][1..] == sum[i + 1..];
      out := out + ToLe(AddWord(w[i], s[i]), 4);
    }
    assert sum[16..] == [];
  }

  // ---------------------------------------------------------------- the keystream

  function KeystreamByte(key: seq<byte>, counter: u32, nonce: seq<byte>, i: nat): byte
    requires |key| == 32 && |nonce| == 12
  {
    Block(key, U32(counter + i / 64), nonce)[i % 64]
  }

  function XorStream(key: seq<byte>, counter: u32, nonce: seq<byte>, data: seq<byte>): (out: seq<byte>)
    requires |key| == 32 && |nonce| == 12
    ensures |out| == |data|
  {
    seq(|data|, i requires 0 <= i < |data| => XorByte(data[i], KeystreamByte(key, counter, nonce, i)))
  }

  // Encryption and decryption are the same operation.
  lemma XorStreamInvolution(key: seq<byte>, counter: u32, nonce: seq<byte>, data: seq<byte>)
    requires |key| == 32 && |nonce| == 12
    ensures XorStream(key, counter, nonce, XorStream(key, counter, nonce, data)) == data
  {
    hide KeystreamByte, Xor;
    forall i | 0 <= i < |data|
      ensures XorByte(XorByte(data[i], KeystreamByte(key, counter, nonce, i)), KeystreamByte(key, counter, nonce, i))
              == data[i]
    {
      XorCancel(data[i], KeystreamByte(key, counter, nonce, i));
    }
  }

  // The counter moves on by one with each 64 bytes, and wraps: a stream can be taken up at any block.
  lemma XorStreamSeek(key: seq<byte>, counter: u32, nonce: seq<byte>, a: seq<byte>, b: seq<byte>)
    requires |key| == 32 && |nonce| == 12 && |a| % 64 == 0
    ensures XorStream(key, counter, nonce, a + b)
            == XorStream(key, counter, nonce, a) + XorStream(key, U32(counter + |a| / 64), nonce, b)
  {
    hide KeystreamByte, XorByte, U32;
    forall i | 0 <= i < |a + b|
      ensures XorStream(key, counter, nonce, a + b)[i]
              == (XorStream(key, counter, nonce, a) + XorStream(key, U32(counter + |a| / 64), nonce, b))[i]
    {
      if i >= |a| {
        SeekByte(key, counter, nonce, |a|, i - |a|);
      }
    }
  }

  lemma SeekByte(key: seq<byte>, counter: u32, nonce: seq<byte>, n: nat, i: nat)
    requires |key| == 32 && |nonce| == 12 && n % 64 == 0
    ensures KeystreamByte(key, counter, nonce, n + i) == KeystreamByte(key, U32(counter + n / 64), nonce, i)
  {
    hide Block, U32;
    assert (n + i) / 64 == n / 64 + i / 64 && (n + i) % 64 == i % 64;
    WrapOnce(counter, n / 64, i / 64);
  }

  lemma WrapOnce(counter: nat, m: nat, n: nat)
    ensures U32(U32(counter + m) + n) == U32(counter + (m + n))
  {
  }

  // The inner loop of chacha20_xor.
  method XorChunk(data: array<byte>, at: nat, n: nat, block: seq<byte>)
    requires at + n <= data.Length && n <= |block|
    modifies data
    ensures forall k :: 0 <= k < data.Length ==>
      data[k] == if at <= k < at + n then XorByte(old(data[k]), block[k - at]) else old(data[k])
  {
    hide XorByte;
    for i := 0 to n
      invariant forall k :: 0 <= k < data.Length ==>
        data[k] == if at <= k < at + i then XorByte(old(data[k]), block[k - at]) else old(data[k])
    {
      data[at + i] := XorByte(data[at + i], block[i]);
    }
  }

  // Byte j of the block that chacha20_xor computes at offset off; the block counter wraps at 32 bits.
  lemma ChunkKeystream(key: seq<byte>, counter: u32, nonce: seq<byte>, off: nat, j: nat)
    requires |key| == 32 && |nonce| == 12 && off % 64 == 0 && j < 64
    ensures Block(key, U32(counter + U32(off / 64)), nonce)[j] == KeystreamByte(key, counter, nonce, off + j)
  {
    hide Block;
    assert (off + j) / 64 == off / 64 && (off + j) % 64 == j;
    assert U32(counter + U32(off / 64)) == U32(counter + off / 64);
  }

  // chacha20_xor, in place on data[lo..hi].
  method XorInPlace(key: seq<byte>, counter: u32, nonce: seq<byte>, data: array<byte>, lo: nat, hi: nat)
    requires |key| == 32 && |nonce| == 12 && lo <= hi <= data.Length
    modifies data
    ensures data[..] == old(data[..lo]) + XorStream(key, counter, nonce, old(data[lo..hi])) + old(data[hi..])
  {
    hide Block, XorByte, KeystreamByte, U32;
    var len := hi - lo;
    ghost var before := data[..];
    var off := 0;
    while off < len
      invariant 0 <= off && off % 64 == 0
      invariant forall k :: 0 <= k < data.Length ==>
        data[k] == if lo <= k < hi && k < lo + off then XorByte(before[k], KeystreamByte(key, counter, nonce, k - lo))
                   else before[k]
    {
      var block := ComputeBlock(key, U32(counter + U32(off / 64)), nonce);
      var n := if len - off < 64 then len - off else 64;
      ghost var chunk := data[..];
      XorChunk(data, lo + off, n, block);
      forall k | 0 <= k < data.Length
        ensures data[k] == if lo <= k < hi && k < lo + off + n
                           then XorByte(before[k], KeystreamByte(key, counter, nonce, k - lo)) else before[k]
      {
        assert chunk[k] == if lo <= k < hi && k < lo + off
                           then XorByte(before[k], KeystreamByte(key, counter, nonce, k - lo)) else before[k];
        if lo + off <= k < lo + off + n {
          ChunkKeystream(key, counter, nonce, off, k - lo - off);
        }
      }
      off := off + 64;
    }
    assert before[lo..hi] == old(data[lo..hi]);
  }

  // The Python form: a fresh output, one 64-byte chunk at a time.
  method XorCopy(key: seq<byte>, counter: u32, nonce: seq<byte>, data: seq<byte>) returns (out: seq<byte>)
    requires |key| == 32 && |nonce| == 12
    ensures out == XorStream(key, counter, nonce, data)
  {
    hide Block, XorByte, KeystreamByte, U32;
    out := [];
    var i := 0;
    while i < |data|
      invariant 0 <= i && i % 64 == 0
      invariant |out| == if i < |data| then i else |data|
      invariant forall k :: 0 <= k < |out| ==> out[k] == XorByte(data[k], KeystreamByte(key, counter, nonce, k))
    {
      var ks := ComputeBlock(key, U32(counter + U32(i / 64)), nonce);
      var n := if |data| - i < 64 then |data| - i else 64;
      forall j | 0 <= j < n
        ensures ks[j] == KeystreamByte(key, counter, nonce, i + j)
      {
        ChunkKeystream(key, counter, nonce, i, j);
      }
      out := out + seq(n, j requires 0 <= j < n => XorByte(data[i + j], ks[j]));
      i := i + 64;
    }
  }
}
