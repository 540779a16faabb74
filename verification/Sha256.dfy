/**
  The SHA-256 compression function of section 6.2.2 of FIPS 180-4 and the loops that compute it (src/digest.cpp:13-28,
  109-158).
 */
module Sha256 {

  type Word = bv32
  type Byte = bv8

  /** Word arithmetic. The loops below are correct for any of it; SHA-256 uses 32-bit words. */
  datatype Alu<!W> = Alu(add: (W, W) -> W, conj: (W, W) -> W, xor: (W, W) -> W, not: W -> W, rotr: (W, nat) -> W,
                         shr: (W, nat) -> W, load: (Byte, Byte, Byte, Byte) -> W)

  function Add(x: Word, y: Word): Word {
    x + y
  }

  function And(x: Word, y: Word): Word {
    x & y
  }

  function Xor(x: Word, y: Word): Word {
    x ^ y
  }

  function Not(x: Word): Word {
    !x
  }

  function Rotr(x: Word, n: nat): Word {
    if n <= 32 then (x >> n) | (x << (32 - n)) else x
  }

  function Shr(x: Word, n: nat): Word {
    if n <= 32 then x >> n else 0
  }

  /** Four bytes, most significant first. */
  function Load(a: Byte, b: Byte, c: Byte, d: Byte): Word {
    ((a as Word) << 24) | ((b as Word) << 16) | ((c as Word) << 8) | (d as Word)
  }

  const Bits: Alu<Word> := Alu(Add, And, Xor, Not, Rotr, Shr, Load)

  const RoundConstants: seq<Word> := [
    0x428a2f98, 0x71374491, 0xb5c0fbcf, 0xe9b5dba5, 0x3956c25b, 0x59f111f1, 0x923f82a4, 0xab1c5ed5,
    0xd807aa98, 0x12835b01, 0x243185be, 0x550c7dc3, 0x72be5d74, 0x80deb1fe, 0x9bdc06a7, 0xc19bf174,
    0xe49b69c1, 0xefbe4786, 0x0fc19dc6, 0x240ca1cc, 0x2de92c6f, 0x4a7484aa, 0x5cb0a9dc, 0x76f988da,
    0x983e5152, 0xa831c66d, 0xb00327c8, 0xbf597fc7, 0xc6e00bf3, 0xd5a79147, 0x06ca6351, 0x14292967,
    0x27b70a85, 0x2e1b2138, 0x4d2c6dfc, 0x53380d13, 0x650a7354, 0x766a0abb, 0x81c2c92e, 0x92722c85,
    0xa2bfe8a1, 0xa81a664b, 0xc24b8b70, 0xc76c51a3, 0xd192e819, 0xd6990624, 0xf40e3585, 0x106aa070,
    0x19a4c116, 0x1e376c08, 0x2748774c, 0x34b0bcb5, 0x391c0cb3, 0x4ed8aa4a, 0x5b9cca4f, 0x682e6ff3,
    0x748f82ee, 0x78a5636f, 0x84c87814, 0x8cc70208, 0x90befffa, 0xa4506ceb, 0xbef9a3f7, 0xc67178f2]

  /** The eight working variables, also used for the chaining value. */
  datatype Vars<W> = Vars(a: W, b: W, c: W, d: W, e: W, f: W, g: W, h: W)

  const Initial: Vars<Word> :=
    Vars(0x6a09e667, 0xbb67ae85, 0x3c6ef372, 0xa54ff53a, 0x510e527f, 0x9b05688c, 0x1f83d9ab, 0x5be0cd19)

  // ----- the functions of section 4.1.2 -----

  function Ch<W>(o: Alu<W>, x: W, y: W, z: W): W {
    o.xor(o.conj(x, y), o.conj(o.not(x), z))
  }

  function Maj<W>(o: Alu<W>, x: W, y: W, z: W): W {
    o.xor(o.xor(o.conj(x, y), o.conj(x, z)), o.conj(y, z))
  }

  function BigSigma0<W>(o: Alu<W>, x: W): W {
    o.xor(o.xor(o.rotr(x, 2), o.rotr(x, 13)), o.rotr(x, 22))
  }

  function BigSigma1<W>(o: Alu<W>, x: W): W {
    o.xor(o.xor(o.rotr(x, 6), o.rotr(x, 11)), o.rotr(x, 25))
  }

  function SmallSigma0<W>(o: Alu<W>, x: W): W {
    o.xor(o.xor(o.rotr(x, 7), o.rotr(x, 18)), o.shr(x, 3))
  }

  function SmallSigma1<W>(o: Alu<W>, x: W): W {
    o.xor(o.xor(o.rotr(x, 17), o.rotr(x, 19)), o.shr(x, 10))
  }

  function Sum4<W>(o: Alu<W>, a: W, b: W, c: W, d: W): W {
    o.add(o.add(o.add(a, b), c), d)
  }

  // ----- section 6.2.2 -----

  /** Word t of the message schedule; the sum is written from the oldest word to the newest. */
  function Schedule<W>(o: Alu<W>, block: seq<Byte>, t: nat): W
    requires |block| == 64 && t < 64
  {
    if t < 16 then o.load(block[4 * t], block[4 * t + 1], block[4 * t + 2], block[4 * t + 3])
    else
      Sum4(o, Schedule(o, block, t - 16), SmallSigma0(o, Schedule(o, block, t - 15)), Schedule(o, block, t - 7),
           SmallSigma1(o, Schedule(o, block, t - 2)))
  }

  function Round<W>(o: Alu<W>, v: Vars<W>, k: W, w: W): Vars<W> {
    var t1 := o.add(Sum4(o, v.h, BigSigma1(o, v.e), Ch(o, v.e, v.f, v.g), k), w);
    var t2 := o.add(BigSigma0(o, v.a), Maj(o, v.a, v.b, v.c));
    Vars(o.add(t1, t2), v.a, v.b, v.c, o.add(v.d, t1), v.e, v.f, v.g)
  }

  /** The working variables after t rounds. */
  function Rounds<W>(o: Alu<W>, k: seq<W>, block: seq<Byte>, v: Vars<W>, t: nat): Vars<W>
    requires |block| == |k| == 64 && t <= 64
  {
    if t == 0 then v else Round(o, Rounds(o, k, block, v, t - 1), k[t - 1], Schedule(o, block, t - 1))
  }

  function AddVars<W>(o: Alu<W>, x: Vars<W>, y: Vars<W>): Vars<W> {
    Vars(o.add(x.a, y.a), o.add(x.b, y.b), o.add(x.c, y.c), o.add(x.d, y.d), o.add(x.e, y.e), o.add(x.f, y.f),
         o.add(x.g, y.g), o.add(x.h, y.h))
  }

  function Compression<W>(o: Alu<W>, k: seq<W>, v: Vars<W>, block: seq<Byte>): Vars<W>
    requires |block| == |k| == 64
  {
    AddVars(o, v, Rounds(o, k, block, v, |block|))
  }

  // ----- the loops -----

  /** The words computed so far. */
  ghost predicate Scheduled<W>(o: Alu<W>, block: seq<Byte>, words: seq<W>)
    requires |block| == 64
  {
    |words| <= 64 && forall t | 0 <= t < |words| :: words[t] == Schedule(o, block, t)
  }

  method LoadBlock<W>(o: Alu<W>, block: seq<Byte>) returns (schedule: seq<W>)
    requires |block| == 64
    ensures |schedule| == 16 && Scheduled(o, block, schedule)
  {
    schedule := [];
    for t := 0 to 16
      invariant |schedule| == t && Scheduled(o, block, schedule)
    {
      schedule := schedule + [o.load(block[4 * t], block[4 * t + 1], block[4 * t + 2], block[4 * t + 3])];
    }
  }

  method ExpandWord<W>(o: Alu<W>, ghost block: seq<Byte>, words: seq<W>) returns (w: W)
    requires |block| == 64 && 16 <= |words| < 64 && Scheduled(o, block, words)
    ensures w == Schedule(o, block, |words|)
  {
    var t := |words|;
    var s0, s1 := SmallSigma0(o, words[t - 15]), SmallSigma1(o, words[t - 2]);
    w := Sum4(o, words[t - 16], s0, words[t - 7], s1);
  }

  method ExpandSchedule<W>(o: Alu<W>, block: seq<Byte>) returns (schedule: seq<W>)
    requires |block| == 64
    ensures |schedule| == 64 && Scheduled(o, block, schedule)
  {
    schedule := LoadBlock(o, block);
    while |schedule| < 64
      invariant 16 <= |schedule| <= 64 && Scheduled(o, block, schedule)
    {
      var w := ExpandWord(o, block, schedule);
      schedule := schedule + [w];
    }
  }

  method RunRounds<W>(o: Alu<W>, k: seq<W>, v: Vars<W>, block: seq<Byte>) returns (r: Vars<W>)
    requires |block| == |k| == 64
    ensures r == Rounds(o, k, block, v, |block|)
  {
    var schedule := ExpandSchedule(o, block);
    var a, b, c, d, e, f, g, h := v.a, v.b, v.c, v.d, v.e, v.f, v.g, v.h;
    for t := 0 to |block|
      invariant Vars(a, b, c, d, e, f, g, h) == Rounds(o, k, block, v, t)
    {
      var temp1 := o.add(Sum4(o, h, BigSigma1(o, e), Ch(o, e, f, g), k[t]), schedule[t]);
      var temp2 := o.add(BigSigma0(o, a), Maj(o, a, b, c));
      h := g;
      g := f;
      f := e;
      e := o.add(d, temp1);
      d := c;
      c := b;
      b := a;
      a := o.add(temp1, temp2);
    }
    r := Vars(a, b, c, d, e, f, g, h);
  }

  method Compress<W>(o: Alu<W>, k: seq<W>, v: Vars<W>, block: seq<Byte>) returns (r: Vars<W>)
    requires |block| == |k| == 64
    ensures r == Compression(o, k, v, block)
  {
    var w := RunRounds(o, k, v, block);
    r := AddVars(o, v, w);
  }
}
