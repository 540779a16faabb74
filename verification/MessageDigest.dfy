/** Streaming SHA-256: sections 5.1.1, 5.2.1 and 6.2 of FIPS 180-4 (src/digest.cpp:107, 160-218). */
module MessageDigest {
  import opened Sha256

  const WORD64: nat := 0x1_0000_0000_0000_0000

  // ----- folding a compression function over blocks -----

  /** A compression function. */
  type Chain<!S> = (S, seq<Byte>) -> S

  /** Chaining value after the first n blocks of m. */
  ghost function Fold<S>(f: Chain<S>, start: S, m: seq<Byte>, n: nat): S
    requires 64 * n <= |m|
  {
    if n == 0 then start else f(Fold(f, start, m, n - 1), m[64 * (n - 1)..64 * n])
  }

  /** Chaining value after all whole blocks of m. */
  ghost function FoldAll<S>(f: Chain<S>, start: S, m: seq<Byte>): S {
    Fold(f, start, m, |m| / 64)
  }

  lemma {:induction false} FoldPrefix<S>(f: Chain<S>, start: S, m: seq<Byte>, more: seq<Byte>, n: nat)
    requires 64 * n <= |m|
    ensures Fold(f, start, m + more, n) == Fold(f, start, m, n)
  {
    if n > 0 {
      FoldPrefix(f, start, m, more, n - 1);
      assert (m + more)[64 * (n - 1)..64 * n] == m[64 * (n - 1)..64 * n];
    }
  }

  // ----- padding -----

  /** The 64-bit length field, most significant byte first. */
  function LengthField(bits: bv64): (field: seq<Byte>)
    ensures |field| == 8
  {
    [((bits >> 56) & 0xFF) as Byte, ((bits >> 48) & 0xFF) as Byte, ((bits >> 40) & 0xFF) as Byte,
        ((bits >> 32) & 0xFF) as Byte,
     ((bits >> 24) & 0xFF) as Byte, ((bits >> 16) & 0xFF) as Byte, ((bits >> 8) & 0xFF) as Byte, (bits & 0xFF) as Byte]
  }

  /** Zero bytes still missing from a block that holds b bytes, so that only the length field is left to come. */
  function Missing(b: nat): nat
    requires b < 64
  {
    if b <= 56 then 56 - b else 120 - b
  }

  function Zeros(k: nat): (z: seq<Byte>)
    ensures |z| == k
  {
    seq(k, _ => 0)
  }

  /** Number of zero bytes: the smallest k with (length + 1 + k) mod 64 = 56. */
  function ZeroCount(length: nat): (k: nat)
    ensures (length + 1 + k) % 64 == 56 && k < 64
  {
    Missing((length + 1) % 64)
  }

  lemma ZeroCountSmallest(length: nat, k: nat)
    requires (length + 1 + k) % 64 == 56
    ensures ZeroCount(length) <= k
  {
  }

  /** Section 5.1.1 for a message of whole bytes. */
  ghost function Pad(m: seq<Byte>): (p: seq<Byte>)
    ensures |p| == |m| + 1 + ZeroCount(|m|) + 8
  {
    m + [0x80] + Zeros(ZeroCount(|m|)) + LengthField((8 * |m| % WORD64) as bv64)
  }

  lemma PadWhole(m: seq<Byte>)
    ensures |Pad(m)| % 64 == 0
  {
    LengthFits(|m| + 1 + ZeroCount(|m|));
  }

  lemma LengthFits(x: nat)
    requires x % 64 == 56
    ensures (x + 8) % 64 == 0
  {
  }

  /** Padding loses nothing: the last nonzero byte before the length field is the marker. */
  lemma PadInjective(a: seq<Byte>, b: seq<Byte>)
    requires Pad(a) == Pad(b)
    ensures a == b
  {
    var p := Pad(a);
    assert p[..|a|] == a && Pad(b)[..|b|] == b;
    MarkerLast(a, |b|);
    MarkerLast(b, |a|);
  }

  lemma MarkerLast(m: seq<Byte>, i: nat)
    ensures |Pad(m)| == |m| + 1 + ZeroCount(|m|) + 8 && Pad(m)[|m|] == 0x80
    ensures |m| < i < |Pad(m)| - 8 ==> Pad(m)[i] == 0
  {
  }

  // ----- streaming -----

  /** The first n blocks of the message are in the chaining value, the rest is pending. */
  ghost predicate Holds<S>(f: Chain<S>, start: S, message: seq<Byte>, n: nat, state: S, pending: seq<Byte>) {
    |message| == 64 * n + |pending| && |pending| < 64 && message[64 * n..] == pending
        && state == Fold(f, start, message, n)
  }

  lemma {:induction false} HoldsMore<S>(f: Chain<S>, start: S, message: seq<Byte>, n: nat, state: S, pending: seq<Byte>,
      more: seq<Byte>)
    requires Holds(f, start, message, n, state, pending) && |pending| + |more| < 64
    ensures Holds(f, start, message + more, n, state, pending + more)
  {
    FoldPrefix(f, start, message, more, n);
    assert (message + more)[64 * n..] == pending + more;
  }

  lemma {:induction false} HoldsBlock<S>(f: Chain<S>, start: S, message: seq<Byte>, n: nat, state: S,
      pending: seq<Byte>, more: seq<Byte>)
    requires Holds(f, start, message, n, state, pending) && |pending| + |more| == 64
    ensures Holds(f, start, message + more, n + 1, f(state, pending + more), [])
  {
    FoldPrefix(f, start, message, more, n);
    assert (message + more)[64 * n..64 * (n + 1)] == pending + more;
  }

  class Hasher<S> {
    const step: Chain<S>
    const start: S
    const buffer: array<Byte>
    var state: S
    var totalBytes: nat
    var buffered: nat
    ghost var message: seq<Byte>
    ghost var blocks: nat
    ghost var wraps: nat

    /** The buffer and the chaining value account for the message. */
    ghost predicate Current()
      reads this, buffer
    {
      buffer.Length == 64 && buffered < 64 && Holds(step, start, message, blocks, state, buffer[..buffered])
    }

    /** The byte counter is a 64-bit word. */
    ghost predicate Counted(length: nat)
      reads this
    {
      totalBytes < WORD64 && length == wraps * WORD64 + totalBytes
    }

    ghost predicate Valid()
      reads this, buffer
    {
      Current() && Counted(|message|)
    }

    constructor (step: Chain<S>, start: S)
      ensures Valid() && fresh(buffer) && message == [] && this.step == step && this.start == start
    {
      this.step, this.start := step, start;
      state, totalBytes, buffered, message, blocks, wraps := start, 0, 0, [], 0, 0;
      buffer := new Byte[64](_ => 0);
    }

    /** Appends to the buffer and compresses it when it is full. */
    method Fill(data: seq<Byte>)
      requires Current() && 0 < |data| && buffered + |data| <= 64
      modifies this`buffered, this`state, this`message, this`blocks, buffer
      ensures Current() && message == old(message) + data
      ensures buffered == if old(buffered) + |data| == 64 then 0 else old(buffered) + |data|
    {
      ghost var pending := buffer[..buffered];
      forall i | 0 <= i < |data| {
        buffer[buffered + i] := data[i];
      }
      buffered := buffered + |data|;
      assert buffer[..buffered] == pending + data;
      if buffered == 64 {
        HoldsBlock(step, start, message, blocks, state, pending, data);
        assert buffer[..] == pending + data;
        state := step(state, buffer[..]);
        buffered, blocks := 0, blocks + 1;
      } else {
        HoldsMore(step, start, message, blocks, state, pending, data);
      }
      message := message + data;
    }

    /** Compresses the whole blocks at the front of the data and keeps the rest. */
    method Absorb(data: seq<Byte>)
      requires Current() && (buffered == 0 || data == [])
      modifies this`buffered, this`state, this`message, this`blocks, buffer
      ensures Current() && message == old(message) + data
    {
      var rest := data;
      while |rest| >= 64
        invariant Current() && (buffered == 0 || rest == [])
        invariant message + rest == old(message) + data
      {
        HoldsBlock(step, start, message, blocks, state, [], rest[..64]);
        assert [] + rest[..64] == rest[..64];
        state := step(state, rest[..64]);
        message, blocks := message + rest[..64], blocks + 1;
        rest := rest[64..];
      }
      if |rest| > 0 {
        Fill(rest);
      }
    }

    /** Completes a partly filled buffer as far as the data goes. */
    method TopUp(data: seq<Byte>) returns (rest: seq<Byte>)
      requires Current()
      modifies this`buffered, this`state, this`message, this`blocks, buffer
      ensures Current() && (buffered == 0 || rest == []) && message + rest == old(message) + data
    {
      rest := data;
      if buffered > 0 && |data| > 0 {
        var missing := 64 - buffered;
        var take := if |data| < missing then |data| else missing;
        Fill(data[..take]);
        rest := data[take..];
        assert data == data[..take] + rest;
      }
    }

    /** Takes any number of bytes. */
    method Update(data: seq<Byte>)
      requires Valid()
      modifies this, buffer
      ensures Valid() && message == old(message) + data
    {
      ghost var sum := totalBytes + |data|;
      wraps := wraps + sum / WORD64;
      totalBytes := (totalBytes + |data|) % WORD64;
      assert Counted(|message| + |data|);
      var rest := TopUp(data);
      Absorb(rest);
    }

    method UpdateByte(b: Byte)
      requires Valid()
      modifies this, buffer
      ensures Valid() && message == old(message) + [b] && buffered == if old(buffered) == 63 then 0
              else old(buffered) + 1
    {
      ghost var n, filled := blocks, buffered;
      Update([b]);
      NextSlot(n, filled, blocks, buffered);
    }

    /** Pads with zeros until only the length field is missing from the block. */
    method PadZeros()
      requires Valid()
      modifies this, buffer
      ensures Valid() && message == old(message) + Zeros(Missing(old(buffered))) && buffered == 56
    {
      ghost var n := 0;
      while buffered != 56
        invariant Valid() && n + Missing(buffered) == Missing(old(buffered))
        invariant message == old(message) + Zeros(n)
        decreases Missing(buffered)
      {
        UpdateByte(0);
        ZerosSnoc(n);
        n := n + 1;
      }
    }

    /** The chaining value over the padded message. */
    method Finish() returns (s: S)
      requires Valid()
      modifies this, buffer
      ensures s == FoldAll(step, start, Pad(old(message)))
    {
      var bits := totalBytes * 8 % WORD64;
      ghost var m := message;
      BitLength(|m|, wraps, totalBytes);
      UpdateByte(0x80);
      MissingIsZeroCount(|m|, blocks, buffered);
      PadZeros();
      Update(LengthField(bits as bv64));
      assert message == Pad(m);
      PadWhole(m);
      BlockCount(|message|, blocks, buffered);
      s := state;
    }
  }

  lemma NextSlot(n: nat, b: nat, n': nat, b': nat)
    requires 64 * n + b + 1 == 64 * n' + b' && b < 64 && b' < 64
    ensures b' == if b == 63 then 0 else b + 1
  {
  }

  lemma ZerosSnoc(n: nat)
    ensures Zeros(n + 1) == Zeros(n) + [0]
  {
  }

  lemma BitLength(length: nat, wraps: nat, total: nat)
    requires length == wraps * WORD64 + total
    ensures total * 8 % WORD64 == 8 * length % WORD64
  {
    var q, r := total * 8 / WORD64, total * 8 % WORD64;
    assert 8 * length == (8 * wraps + q) * WORD64 + r;
  }

  lemma MissingIsZeroCount(length: nat, blocks: nat, buffered: nat)
    requires length + 1 == 64 * blocks + buffered && buffered < 64
    ensures Missing(buffered) == ZeroCount(length)
  {
    assert (length + 1) % 64 == buffered;
  }

  lemma BlockCount(length: nat, blocks: nat, buffered: nat)
    requires length == 64 * blocks + buffered && buffered < 64 && length % 64 == 0
    ensures buffered == 0 && length / 64 == blocks
  {
  }

  // ----- SHA-256 -----

  function ShaStep(v: Vars<Word>, block: seq<Byte>): Vars<Word> {
    if |block| == 64 then Compression(Bits, RoundConstants, v, block) else v
  }

  function Store(w: Word): seq<Byte> {
    [((w >> 24) & 0xFF) as Byte, ((w >> 16) & 0xFF) as Byte, ((w >> 8) & 0xFF) as Byte, (w & 0xFF) as Byte]
  }

  function Output(v: Vars<Word>): seq<Byte> {
    Store(v.a) + Store(v.b) + Store(v.c) + Store(v.d) + Store(v.e) + Store(v.f) + Store(v.g) + Store(v.h)
  }

  function Concat(chunks: seq<seq<Byte>>): seq<Byte> {
    if chunks == [] then [] else Concat(chunks[..|chunks| - 1]) + chunks[|chunks| - 1]
  }

  /** Feeds the chunks one update at a time; only their concatenation matters. */
  method HashChunks<S>(step: Chain<S>, start: S, chunks: seq<seq<Byte>>) returns (s: S)
    ensures s == FoldAll(step, start, Pad(Concat(chunks)))
  {
    var h := new Hasher(step, start);
    for i := 0 to |chunks|
      invariant h.Valid() && fresh(h) && fresh(h.buffer) && h.step == step && h.start == start
      invariant h.message == Concat(chunks[..i])
    {
      h.Update(chunks[i]);
      assert chunks[..i + 1][..i] == chunks[..i];
    }
    assert chunks[..|chunks|] == chunks;
    s := h.Finish();
  }

  method Hash(chunks: seq<seq<Byte>>) returns (digest: seq<Byte>)
    ensures digest == Output(FoldAll(ShaStep, Initial, Pad(Concat(chunks))))
  {
    var s := HashChunks(ShaStep, Initial, chunks);
    digest := Output(s);
  }
}
