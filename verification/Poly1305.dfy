/**
Poly1305 (section 2.5 of RFC 8439): the big-integer definition, the loop that computes it directly,
and the buffered streaming state, whose tag depends only on the concatenation of its updates.
*/
module Poly1305 {
  import opened Bits
  import opened Words
  import opened Poly1305Limbs

  const BLOCK: nat := 16
  const HIBIT: nat := 0x100_0000

  // ---------------------------------------------------------------- the definition

  function ClampedKey(otk: seq<byte>): nat
    requires |otk| == 32
  {
    And(FromLe(otk[..16]), CLAMP)
  }

  // One block: the bytes with a 1 appended, as a little-endian number, added and multiplied modulo P.
  function AbsorbBlock(r: nat, acc: nat, block: seq<byte>): nat
  {
    (acc + FromLe(block + [1])) * r % P
  }

  function Absorb(r: nat, acc: nat, msg: seq<byte>): nat
    decreases |msg|
  {
    if |msg| == 0 then acc
    else if |msg| < BLOCK then AbsorbBlock(r, acc, msg)
    else Absorb(r, AbsorbBlock(r, acc, msg[..BLOCK]), msg[BLOCK..])
  }

  function PolyTag(otk: seq<byte>, msg: seq<byte>): (tag: seq<byte>)
    requires |otk| == 32
    ensures |tag| == 16
  {
    ToLe((Absorb(ClampedKey(otk), 0, msg) + FromLe(otk[16..])) % TWO128, 16)
  }

  // The loop of the Python reference.
  method Compute(otk: seq<byte>, msg: seq<byte>) returns (tag: seq<byte>)
    requires |otk| == 32
    ensures tag == PolyTag(otk, msg)
  {
    var r := And(FromLe(otk[0..16]), CLAMP);
    var s := FromLe(otk[16..32]);
    assert otk[0..16] == otk[..16] && otk[16..32] == otk[16..];
    var acc: nat := 0;
    var i := 0;
    while i < |msg|
      invariant 0 <= i
      invariant Absorb(r, acc, if i < |msg| then msg[i..] else []) == Absorb(r, 0, msg)
    {
      var n := if |msg| - i < BLOCK then |msg| - i else BLOCK;
      var block := msg[i..i + n];
      assert msg[i..][..n] == block;
      assert n < BLOCK ==> block == msg[i..];
      assert n == BLOCK && i + BLOCK < |msg| ==> msg[i..][BLOCK..] == msg[i + BLOCK..];
      assert n == BLOCK && i + BLOCK == |msg| ==> msg[i..][BLOCK..] == [];
      acc := (acc + FromLe(block + [1])) * r % P;
      i := i + BLOCK;
    }
    tag := ToLe((acc + s) % TWO128, 16);
  }

  // Whole blocks can be absorbed ahead of the rest.
  lemma {:induction false} AbsorbAppend(r: nat, acc: nat, a: seq<byte>, b: seq<byte>)
    requires |a| % BLOCK == 0
    ensures Absorb(r, acc, a + b) == Absorb(r, Absorb(r, acc, a), b)
    decreases |a|
  {
    if a == [] {
      assert a + b == b;
    } else {
      assert (a + b)[..BLOCK] == a[..BLOCK] && (a + b)[BLOCK..] == a[BLOCK..] + b;
      AbsorbAppend(r, AbsorbBlock(r, acc, a[..BLOCK]), a[BLOCK..], b);
    }
  }

  // ---------------------------------------------------------------- the limb loop refines the definition

  lemma ModTimes(x: nat, n: nat, r: nat)
    ensures (x % P + n) * r % P == (x + n) * r % P
  {
    var q := x / P;
    assert x == P * q + x % P;
    DistributeQuotient(x % P, n, q, r);
    MultipleOfP((x % P + n) * r, q * r);
  }

  lemma DistributeQuotient(m: nat, n: nat, q: nat, r: nat)
    ensures (P * q + m + n) * r == (m + n) * r + (q * r) * P
  {
    assert (P * q) * r == P * (q * r);
  }

  lemma FromLeWithOne(b: seq<byte>)
    ensures FromLe(b + [1]) == FromLe(b) + Pow2(8 * |b|)
  {
    hide FromLe, Pow2;
    FromLeAppend(b, [1]);
    FromLeSingle(1);
  }

  lemma FromLeSingle(c: byte)
    ensures FromLe([c]) == c
  {
    assert [c][1..] == [];
  }

  lemma {:induction false} FromLeZeros(n: nat)
    ensures FromLe(Zeros(n)) == 0
  {
    if n > 0 {
      assert Zeros(n)[1..] == Zeros(n - 1);
      FromLeZeros(n - 1);
    }
  }

  // A final, short block is padded in the buffer instead of carrying the high bit.
  lemma PaddedBlock(b: seq<byte>)
    requires |b| < BLOCK
    ensures FromLe(b + [1] + Zeros(15 - |b|)) == FromLe(b + [1])
  {
    hide FromLe;
    AppendZeros(b + [1], 15 - |b|);
  }

  lemma AppendZeros(x: seq<byte>, n: nat)
    ensures FromLe(x + Zeros(n)) == FromLe(x)
  {
    hide FromLe, Pow2;
    FromLeAppend(x, Zeros(n));
    FromLeZeros(n);
    TimesZero(Pow2(8 * |x|), FromLe(Zeros(n)));
  }

  lemma TimesZero(x: nat, y: nat)
    requires y == 0
    ensures x * y == 0
  {
  }

  // One limb step is one AbsorbBlock.
  lemma FullBlockStep(h: Limbs, r: Limbs, b: seq<byte>)
    requires Carried(h) && Clamped(r) && |b| == BLOCK
    ensures var h' := BlockStep(h, r, BlockLimbs(b, HIBIT));
      Carried(h') && Value(h') % P == AbsorbBlock(Value(r), Value(h) % P, b)
  {
    hide BlockStep, BlockLimbs, Value, FromLe;
    BlockLimbsValue(b, HIBIT);
    BlockStepCorrect(h, r, BlockLimbs(b, HIBIT));
    FromLeWithOne(b);
    Pow2Values();
    ModTimes(Value(h), FromLe(b + [1]), Value(r));
  }

  lemma FinalBlockStep(h: Limbs, r: Limbs, b: seq<byte>)
    requires Carried(h) && Clamped(r) && 0 < |b| < BLOCK
    ensures var h' := BlockStep(h, r, BlockLimbs(b + [1] + Zeros(15 - |b|), 0));
      Carried(h') && Value(h') % P == AbsorbBlock(Value(r), Value(h) % P, b)
  {
    hide BlockStep, BlockLimbs, Value, FromLe;
    var padded := b + [1] + Zeros(15 - |b|);
    BlockLimbsValue(padded, 0);
    BlockStepCorrect(h, r, BlockLimbs(padded, 0));
    PaddedBlock(b);
    ModTimes(Value(h), FromLe(b + [1]), Value(r));
  }

  // poly1305_blocks as a fold over the blocks of m; bytes after the last whole block are ignored.
  function BlocksOver(h: Limbs, r: Limbs, m: seq<byte>, hibit: nat): Limbs
    requires hibit == HIBIT || hibit == 0
    decreases |m|
  {
    if |m| < BLOCK then h
    else BlocksOver(BlockStep(h, r, BlockLimbs(m[..BLOCK], hibit)), r, m[BLOCK..], hibit)
  }

  // Any number of blocks refines the big-integer loop.
  lemma {:induction false} BlocksOverCorrect(h: Limbs, r: Limbs, m: seq<byte>)
    requires Carried(h) && Clamped(r) && |m| % BLOCK == 0
    ensures var h' := BlocksOver(h, r, m, HIBIT);
      Carried(h') && Value(h') % P == Absorb(Value(r), Value(h) % P, m)
    decreases |m|
  {
    hide BlockStep, BlockLimbs, Value;
    if m != [] {
      FullBlockStep(h, r, m[..BLOCK]);
      BlocksOverCorrect(BlockStep(h, r, BlockLimbs(m[..BLOCK], HIBIT)), r, m[BLOCK..]);
    }
  }

  // ---------------------------------------------------------------- the streaming state

  // What a state is after absorbing a message under a key: the whole blocks have gone into h and the
  // rest waits as the tail.
  ghost predicate Streamed(key: seq<byte>, r: Limbs, pad: Quarters, h: Limbs, tail: seq<byte>, msg: seq<byte>)
    requires |key| == 32
  {
    && Clamped(r) && Value(r) == ClampedKey(key) && QuartersValue(pad) == FromLe(key[16..])
    && Carried(h)
    && |tail| < BLOCK && |tail| <= |msg| && (|msg| - |tail|) % BLOCK == 0
    && tail == msg[|msg| - |tail|..]
    && Value(h) % P == Absorb(ClampedKey(key), 0, msg[..|msg| - |tail|])
  }

  function InitPad(key: seq<byte>): Quarters
    requires |key| == 32
  {
    Quarters(Load32(key, 16), Load32(key, 20), Load32(key, 24), Load32(key, 28))
  }

  lemma StreamedInit(key: seq<byte>)
    requires |key| == 32
    ensures Streamed(key, InitR(LoadQuarters(key)), InitPad(key), Limbs(0, 0, 0, 0, 0), [], [])
  {
    hide InitR, Load32, And, FromLe, QuartersValue;
    hide LoadQuarters, InitPad, Value;
    var t := LoadQuarters(key);
    InitRCorrect(t);
    LoadQuartersValue(key[..16]);
    LoadQuartersValue(key[16..]);
    LoadsAgree(key);
    ValueZero();
  }

  lemma ValueZero()
    ensures Value(Limbs(0, 0, 0, 0, 0)) == 0
  {
  }

  lemma LoadsAgree(key: seq<byte>)
    requires |key| == 32
    ensures LoadQuarters(key) == LoadQuarters(key[..16]) && InitPad(key) == LoadQuarters(key[16..])
  {
    hide Load32;
    assert key[0..16] == key[..16] && key[16..32] == key[16..];
    LoadSlice(key, 0, 0);
    LoadSlice(key, 0, 4);
    LoadSlice(key, 0, 8);
    LoadSlice(key, 0, 12);
    LoadSlice(key, 16, 0);
    LoadSlice(key, 16, 4);
    LoadSlice(key, 16, 8);
    LoadSlice(key, 16, 12);
  }

  lemma LoadSlice(key: seq<byte>, at: nat, i: nat)
    requires at + 16 <= |key| && i + 4 <= 16
    ensures Load32(key[at..at + 16], i) == Load32(key, at + i)
  {
    hide Quad;
  }

  lemma StreamedTail(key: seq<byte>, r: Limbs, pad: Quarters, h: Limbs, tail: seq<byte>, msg: seq<byte>, m: seq<byte>)
    requires |key| == 32 && Streamed(key, r, pad, h, tail, msg)
    requires |tail| + |m| < BLOCK
    ensures Streamed(key, r, pad, h, tail + m, msg + m)
  {
    hide Value, QuartersValue, FromLe, ClampedKey, Absorb;
    assert (msg + m)[..|msg| - |tail|] == msg[..|msg| - |tail|];
    assert (msg + m)[|msg| - |tail|..] == msg[|msg| - |tail|..] + m;
  }

  lemma StreamedBlocks(key: seq<byte>, r: Limbs, pad: Quarters, h: Limbs, tail: seq<byte>, msg: seq<byte>, m: seq<byte>)
    requires |key| == 32 && Streamed(key, r, pad, h, tail, msg)
    requires (|tail| + |m|) % BLOCK == 0
    ensures Streamed(key, r, pad, BlocksOver(h, r, tail + m, HIBIT), [], msg + m)
  {
    hide Value, QuartersValue, FromLe, ClampedKey, Absorb, BlocksOver, Carried, Clamped;
    BlocksOverCorrect(h, r, tail + m);
    var blocks := msg[..|msg| - |tail|];
    AbsorbAppend(ClampedKey(key), 0, blocks, tail + m);
    MessageBlocks(msg, tail, m);
    BlockMultiples(|blocks|, |tail + m|);
    StreamedWhole(key, r, pad, BlocksOver(h, r, tail + m, HIBIT), msg + m);
  }

  lemma MessageBlocks(msg: seq<byte>, tail: seq<byte>, m: seq<byte>)
    requires |tail| <= |msg| && tail == msg[|msg| - |tail|..]
    ensures msg[..|msg| - |tail|] + (tail + m) == msg + m
  {
  }

  // A message of whole blocks leaves nothing buffered.
  lemma StreamedWhole(key: seq<byte>, r: Limbs, pad: Quarters, h: Limbs, msg: seq<byte>)
    requires |key| == 32 && Clamped(r) && Value(r) == ClampedKey(key) && QuartersValue(pad) == FromLe(key[16..])
    requires Carried(h) && |msg| % BLOCK == 0 && Value(h) % P == Absorb(ClampedKey(key), 0, msg)
    ensures Streamed(key, r, pad, h, [], msg)
  {
    hide Value, QuartersValue, FromLe, ClampedKey, Absorb, Carried, Clamped;
    assert msg[..|msg|] == msg;
  }

  lemma BlockMultiples(a: nat, b: nat)
    requires a % BLOCK == 0 && b % BLOCK == 0
    ensures (a + b) % BLOCK == 0
  {
  }

  lemma StreamedFinal(key: seq<byte>, r: Limbs, pad: Quarters, h: Limbs, tail: seq<byte>, msg: seq<byte>)
    requires |key| == 32 && Streamed(key, r, pad, h, tail, msg)
    ensures var h' := if tail == [] then h else BlocksOver(h, r, tail + [1] + Zeros(15 - |tail|), 0);
      Carried(h') && FinishTag(h', pad) == PolyTag(key, msg)
  {
    hide Value, QuartersValue, FromLe, ClampedKey, BlockStep, BlockLimbs, FinishTag;
    var h' := if tail == [] then h else BlocksOver(h, r, tail + [1] + Zeros(15 - |tail|), 0);
    var blocks := msg[..|msg| - |tail|];
    assert blocks + tail == msg;
    AbsorbAppend(ClampedKey(key), 0, blocks, tail);
    if tail != [] {
      var padded := tail + [1] + Zeros(15 - |tail|);
      assert padded[..BLOCK] == padded && padded[BLOCK..] == [];
      assert BlocksOver(h, r, padded, 0) == BlocksOver(BlockStep(h, r, BlockLimbs(padded, 0)), r, [], 0);
      FinalBlockStep(h, r, tail);
    }
    assert Value(h') % P == Absorb(ClampedKey(key), 0, msg);
    FinishTagCorrect(h', pad);
  }

  class State {
    var r: Limbs
    var h: Limbs
    var pad: Quarters
    var leftover: nat
    const buffer: array<byte>
    var final: bool

    ghost const key: seq<byte>
    ghost var absorbed: seq<byte>

    ghost predicate Valid()
      reads this, buffer
    {
      && |key| == 32 && buffer.Length == BLOCK && leftover < BLOCK && !final
      && Streamed(key, r, pad, h, buffer[..leftover], absorbed)
    }

    constructor Init(otk: seq<byte>)
      requires |otk| == 32
      ensures Valid() && fresh(buffer)
      ensures key == otk && absorbed == []
    {
      hide Streamed, InitR, InitPad, LoadQuarters;
      r := InitR(LoadQuarters(otk));
      h := Limbs(0, 0, 0, 0, 0);
      pad := InitPad(otk);
      leftover := 0;
      buffer := new byte[BLOCK](_ => 0);
      final := false;
      key := otk;
      absorbed := [];
      new;
      StreamedInit(otk);
      assert buffer[..leftover] == [];
    }

    method Blocks(m: seq<byte>)
      modifies `h
      ensures h == BlocksOver(old(h), r, m, if final then 0 else HIBIT)
    {
      var hibit := if final then 0 else HIBIT;
      var limbs, p := h, m;
      while |p| >= BLOCK
        invariant h == old(h)
        invariant BlocksOver(limbs, r, p, hibit) == BlocksOver(h, r, m, hibit)
        decreases |p|
      {
        limbs := BlockStep(limbs, r, BlockLimbs(p[..BLOCK], hibit));
        p := p[BLOCK..];
      }
      h := limbs;
    }

    method FillBuffer(m: seq<byte>)
      requires buffer.Length == BLOCK && leftover + |m| <= BLOCK
      modifies `leftover, buffer
      ensures leftover == old(leftover) + |m|
      ensures buffer[..leftover] == old(buffer[..leftover]) + m
    {
      for i := 0 to |m|
        modifies buffer
        invariant buffer[..leftover + i] == old(buffer[..leftover]) + m[..i]
      {
        buffer[leftover + i] := m[i];
      }
      leftover := leftover + |m|;
    }

    // The first part of poly1305_update: fill the buffer, and absorb it once it is full.
    method TopUp(m: seq<byte>) returns (rest: seq<byte>)
      requires Valid() && leftover > 0
      modifies this, buffer
      ensures Valid() && absorbed + rest == old(absorbed) + m && (leftover > 0 ==> rest == [])
    {
      hide Streamed, BlocksOver;
      ghost var tail, h0 := buffer[..leftover], h;
      var want := BLOCK - leftover;
      if want > |m| {
        want := |m|;
      }
      FillBuffer(m[..want]);
      rest := m[want..];
      absorbed := absorbed + m[..want];
      if leftover < BLOCK {
        StreamedTail(key, r, pad, h, tail, old(absorbed), m[..want]);
        return;
      }
      Blocks(buffer[..]);
      assert buffer[..] == buffer[..leftover] == tail + m[..want];
      StreamedBlocks(key, r, pad, h0, tail, old(absorbed), m[..want]);
      leftover := 0;
    }

    // The second part: whole blocks straight from the input, with the buffer empty.
    method AbsorbBlocks(m: seq<byte>) returns (rest: seq<byte>)
      requires Valid() && leftover == 0
      modifies this
      ensures Valid() && leftover == 0 && |rest| < BLOCK && absorbed + rest == old(absorbed) + m
    {
      hide Streamed, BlocksOver;
      rest := m;
      if |m| >= BLOCK {
        ghost var h0 := h;
        assert buffer[..leftover] == [];
        var want := |m| - |m| % BLOCK;
        Blocks(m[..want]);
        assert [] + m[..want] == m[..want];
        StreamedBlocks(key, r, pad, h0, [], absorbed, m[..want]);
        absorbed := absorbed + m[..want];
        rest := m[want..];
      }
    }

    // poly1305_update: top up the buffer, absorb whole blocks straight from the input, keep the rest.
    method Update(m: seq<byte>)
      requires Valid()
      modifies this, buffer
      ensures Valid() && absorbed == old(absorbed) + m
    {
      hide Streamed, BlocksOver;
      var p := m;
      if leftover > 0 {
        p := TopUp(m);
        if leftover > 0 {
          return;
        }
      }
      p := AbsorbBlocks(p);
      if |p| > 0 {
        ghost var tail := buffer[..leftover];
        FillBuffer(p);
        StreamedTail(key, r, pad, h, tail, absorbed, p);
        absorbed := absorbed + p;
      }
    }

    // poly1305_finish.
    method Finish() returns (mac: seq<byte>)
      requires Valid()
      modifies this, buffer
      ensures mac == PolyTag(key, absorbed) && absorbed == old(absorbed)
    {
      hide Streamed, BlocksOver, FinishTag, PolyTag;
      ghost var tail, h0 := buffer[..leftover], h;
      StreamedFinal(key, r, pad, h, tail, absorbed);
      if leftover > 0 {
        var i := leftover;
        buffer[i] := 1;
        i := i + 1;
        while i < BLOCK
          modifies buffer
          invariant leftover < i <= BLOCK
          invariant buffer[..i] == tail + [1] + Zeros(i - leftover - 1)
        {
          buffer[i] := 0;
          i := i + 1;
        }
        final := true;
        Blocks(buffer[..]);
        assert buffer[..] == buffer[..BLOCK];
      }
      mac := FinishTag(h, pad);
    }
  }
}
