/**
ChaCha20-Poly1305 (section 2.8 of RFC 8439): sealing and opening as functions of values, the laws that
tie them together, and the vendored in-place routines that compute them.
*/
module Aead {
  import opened Bits
  import opened Words
  import opened ChaCha20
  import opened Options
  import P = Poly1305

  const KEY_LEN: nat := 32
  const NONCE_LEN: nat := 12
  const TAG_LEN: nat := 16

  datatype Sealed = Sealed(ct: seq<byte>, tag: seq<byte>)

  predicate Keyed(key: seq<byte>, nonce: seq<byte>)
  {
    |key| == KEY_LEN && |nonce| == NONCE_LEN
  }

  function PolyKey(key: seq<byte>, nonce: seq<byte>): (otk: seq<byte>)
    requires Keyed(key, nonce)
    ensures |otk| == 32
  {
    Block(key, 0, nonce)[..32]
  }

  function Pad16(b: seq<byte>): seq<byte>
  {
    Zeros((16 - |b| % 16) % 16)
  }

  function MacData(aad: seq<byte>, ct: seq<byte>): seq<byte>
  {
    aad + Pad16(aad) + ct + Pad16(ct) + ToLe(|aad|, 8) + ToLe(|ct|, 8)
  }

  function Tag(key: seq<byte>, nonce: seq<byte>, ct: seq<byte>, aad: seq<byte>): (tag: seq<byte>)
    requires Keyed(key, nonce)
    ensures |tag| == TAG_LEN
  {
    P.PolyTag(PolyKey(key, nonce), MacData(aad, ct))
  }

  function Seal(key: seq<byte>, nonce: seq<byte>, plaintext: seq<byte>, aad: seq<byte>): (s: Sealed)
    requires Keyed(key, nonce)
    ensures |s.ct| == |plaintext| && |s.tag| == TAG_LEN
  {
    var ct := XorStream(key, 1, nonce, plaintext);
    Sealed(ct, Tag(key, nonce, ct, aad))
  }

  function Open(key: seq<byte>, nonce: seq<byte>, s: Sealed, aad: seq<byte>): (r: Option<seq<byte>>)
    requires Keyed(key, nonce)
    ensures r.Some? ==> |r.value| == |s.ct|
  {
    if Tag(key, nonce, s.ct, aad) == s.tag then Some(XorStream(key, 1, nonce, s.ct)) else None
  }

  // Opening yields a plaintext exactly when sealing that plaintext yields what was opened: a round trip
  // in both directions, and no second (ciphertext, tag) opens to the same plaintext.
  lemma OpenIffSealed(key: seq<byte>, nonce: seq<byte>, plaintext: seq<byte>, s: Sealed, aad: seq<byte>)
    requires Keyed(key, nonce)
    ensures Open(key, nonce, s, aad) == Some(plaintext) <==> Seal(key, nonce, plaintext, aad) == s
  {
    hide XorStream, Tag;
    XorStreamInvolution(key, 1, nonce, plaintext);
    XorStreamInvolution(key, 1, nonce, s.ct);
  }

  // ---------------------------------------------------------------- the in-place routines

  lemma {:induction false} ToLeTruncates(v: nat, n: nat)
    ensures ToLe(v, n) == ToLe(v % Pow2(8 * n), n)
  {
    if n > 0 {
      hide Pow2, ToLe;
      var h := Pow2(8 * (n - 1));
      Pow2Byte(n - 1);
      var w := TruncatedDigits(v, h);
      ToLeTruncates(v / 256, n - 1);
      ToLeStep(v, n);
      ToLeStep(w, n);
    }
  }

  lemma TruncatedDigits(v: nat, h: nat) returns (w: nat)
    requires h > 0
    ensures w == v % (256 * h) && w % 256 == v % 256 && w / 256 == v / 256 % h
  {
    w := v % (256 * h);
    ModOf256(v, h);
    DigitAndRest(v % 256, v / 256 % h);
  }

  lemma ModOf256(v: nat, h: nat)
    requires h > 0
    ensures v % (256 * h) == v % 256 + 256 * (v / 256 % h)
  {
    var q, m := v / 256 / h, v / 256 % h;
    QuotientTimes(v / 256, h);
    ScaleByte(h, q);
    assert v == (256 * h) * q + (v % 256 + 256 * m);
    DivModUnique(q, v % 256 + 256 * m, 256 * h);
  }

  // The two 32-bit halves of a length, as aead_tag stores them.
  lemma LengthHalves(len: nat)
    ensures ToLe(len, 8) == ToLe(U32(len), 4) + ToLe(U32(U64(len) / TWO32), 4)
  {
    hide ToLe, U32, U64;
    Pow2Values();
    ToLeTruncates(len, 8);
    HalvesOf(len);
    ToLeConcat(U32(len), U32(U64(len) / TWO32), 4, 4);
  }

  lemma HalvesOf(len: nat)
    ensures len % 0x1_0000_0000_0000_0000 == U32(len) + 0x1_0000_0000 * U32(U64(len) / TWO32)
  {
    assert U32(U64(len) / TWO32) == U64(len) / TWO32;
    assert U64(len) % TWO32 == len % TWO32;
  }

  // aead_tag: five updates of one streaming state.
  method AeadTag(otk: seq<byte>, aad: seq<byte>, ct: seq<byte>) returns (tag: seq<byte>)
    requires |otk| == 32
    ensures tag == P.PolyTag(otk, MacData(aad, ct))
  {
    hide P.PolyTag, P.State.Valid, ToLe;
    var st := new P.State.Init(otk);
    st.Update(aad);
    st.Update(Zeros((16 - |aad| % 16) % 16));
    st.Update(ct);
    st.Update(Zeros((16 - |ct| % 16) % 16));
    var lenblk := ToLe(U32(|aad|), 4) + ToLe(U32(U64(|aad|) / TWO32), 4)
                  + ToLe(U32(|ct|), 4) + ToLe(U32(U64(|ct|) / TWO32), 4);
    LengthHalves(|aad|);
    LengthHalves(|ct|);
    st.Update(lenblk);
    assert st.absorbed == MacData(aad, ct);
    tag := st.Finish();
  }

  // ct_eq: no early exit.
  method CtEq(a: seq<byte>, b: seq<byte>) returns (equal: bool)
    requires |a| == |b|
    ensures equal <==> a == b
  {
    hide Xor, Or;
    var diff: nat := 0;
    for i := 0 to |a|
      invariant diff == 0 <==> a[..i] == b[..i]
    {
      XorIsZero(a[i], b[i]);
      OrIsZero(diff, Xor(a[i], b[i]));
      assert a[..i + 1] == a[..i] + [a[i]] && b[..i + 1] == b[..i] + [b[i]];
      diff := Or(diff, Xor(a[i], b[i]));
    }
    assert a[..|a|] == a && b[..|b|] == b;
    equal := diff == 0;
  }

  lemma XorStreamOfZeros(key: seq<byte>, nonce: seq<byte>)
    requires Keyed(key, nonce)
    ensures XorStream(key, 0, nonce, Zeros(32)) == PolyKey(key, nonce)
  {
    hide Block, Xor;
    forall i | 0 <= i < 32
      ensures XorByte(0, KeystreamByte(key, 0, nonce, i)) == Block(key, 0, nonce)[i]
    {
      assert i / 64 == 0 && i % 64 == i;
      XorZero(KeystreamByte(key, 0, nonce, i));
    }
  }

  // The one-time key is the first half of keystream block 0.
  method OneTimeKey(key: seq<byte>, nonce: seq<byte>) returns (otk: seq<byte>)
    requires Keyed(key, nonce)
    ensures otk == PolyKey(key, nonce)
  {
    hide XorStream, PolyKey;
    var zeros := new byte[32](_ => 0);
    assert zeros[0..32] == Zeros(32);
    XorStreamOfZeros(key, nonce);
    XorInPlace(key, 0, nonce, zeros, 0, 32);
    otk := zeros[..];
  }

  // chacha20poly1305_encrypt on buf[lo..hi].
  method Encrypt(key: seq<byte>, nonce: seq<byte>, aad: seq<byte>, buf: array<byte>, lo: nat, hi: nat)
    returns (tag: seq<byte>)
    requires Keyed(key, nonce) && lo <= hi <= buf.Length
    modifies buf
    ensures var s := Seal(key, nonce, old(buf[lo..hi]), aad);
      buf[..] == old(buf[..lo]) + s.ct + old(buf[hi..]) && tag == s.tag
  {
    hide XorStream, P.PolyTag, MacData;
    var otk := OneTimeKey(key, nonce);
    XorInPlace(key, 1, nonce, buf, lo, hi);
    assert buf[lo..hi] == XorStream(key, 1, nonce, old(buf[lo..hi]));
    tag := AeadTag(otk, aad, buf[lo..hi]);
  }

  // chacha20poly1305_decrypt on buf[lo..hi]: the tag is checked over the ciphertext first, and on a
  // mismatch the buffer is untouched.
  method Decrypt(key: seq<byte>, nonce: seq<byte>, aad: seq<byte>, buf: array<byte>, lo: nat, hi: nat, tag: seq<byte>)
    returns (ok: bool)
    requires Keyed(key, nonce) && lo <= hi <= buf.Length && |tag| == TAG_LEN
    modifies buf
    ensures var r := Open(key, nonce, Sealed(old(buf[lo..hi]), tag), aad);
      && ok == r.Some?
      && buf[..] == if ok then old(buf[..lo]) + r.value + old(buf[hi..]) else old(buf[..])
  {
    hide XorStream, P.PolyTag, MacData;
    var otk := OneTimeKey(key, nonce);
    var expected := AeadTag(otk, aad, buf[lo..hi]);
    ok := CtEq(expected, tag);
    if ok {
      XorInPlace(key, 1, nonce, buf, lo, hi);
    }
  }

  // Decrypting what was just encrypted succeeds and restores the buffer, in place.
  method RoundTrip(key: seq<byte>, nonce: seq<byte>, aad: seq<byte>, buf: array<byte>, lo: nat, hi: nat)
    returns (ok: bool)
    requires Keyed(key, nonce) && lo <= hi <= buf.Length
    modifies buf
    ensures ok && buf[..] == old(buf[..])
  {
    hide Seal, Open;
    ghost var plaintext := buf[lo..hi];
    var tag := Encrypt(key, nonce, aad, buf, lo, hi);
    ghost var s := Seal(key, nonce, plaintext, aad);
    assert buf[lo..hi] == s.ct;
    assert buf[..lo] == old(buf[..lo]) && buf[hi..] == old(buf[hi..]);
    OpenIffSealed(key, nonce, plaintext, s, aad);
    ok := Decrypt(key, nonce, aad, buf, lo, hi, tag);
    assert old(buf[..]) == old(buf[..lo]) + plaintext + old(buf[hi..]);
  }
}
