/** The Adler-32 checksum (gen/c/std/zlib.c; section 8.2 of RFC 1950). */
module Adler {
  import opened Bits
  import opened Words

  const MODULUS := 65521
  const CHUNK := 5552

  // ---------------- The definition of RFC 1950

  /** One byte: s1 accumulates bytes, s2 accumulates s1, both modulo 65521 at every step. */
  function Step(s: (nat, nat), c: Byte): (nat, nat)
  {
    var s1 := (s.0 + c) % MODULUS;
    (s1, (s.1 + s1) % MODULUS)
  }

  function Fold(s: (nat, nat), x: seq<Byte>): (nat, nat)
  {
    if x == [] then s else Step(Fold(s, x[..|x| - 1]), x[|x| - 1])
  }

  /** The checksum of a whole stream. */
  function Checksum(x: seq<Byte>): nat
  {
    var s := Fold((1, 0), x);
    s.1 * 65536 + s.0
  }

  lemma FoldNothing(s: (nat, nat)) ensures Fold(s, []) == s {}

  lemma {:induction false} FoldAppend(s: (nat, nat), x: seq<Byte>, y: seq<Byte>)
    ensures Fold(s, x + y) == Fold(Fold(s, x), y)
  {
    if y == [] {
      assert x + y == x;
    } else {
      var y' := y[..|y| - 1];
      FoldAppend(s, x, y');
      assert (x + y)[..|x + y| - 1] == x + y';
    }
  }

  // ---------------- Sums without reduction

  /** The running sums as the inner loop keeps them, not reduced. */
  function Raw(s: (nat, nat), x: seq<Byte>): (nat, nat)
  {
    if x == [] then s
    else
      var r := Raw(s, x[..|x| - 1]);
      var s1 := r.0 + x[|x| - 1];
      (s1, r.1 + s1)
  }

  lemma RawNothing(s: (nat, nat)) ensures Raw(s, []) == s {}

  /** Reducing once at the end is reducing at every step. */
  lemma {:induction false} RawReduced(s: (nat, nat), x: seq<Byte>)
    requires x != []
    ensures Fold(s, x) == (Raw(s, x).0 % MODULUS, Raw(s, x).1 % MODULUS)
  {
    var x', c := x[..|x| - 1], x[|x| - 1];
    var r, f := Raw(s, x'), Fold(s, x');
    if x' != [] {
      RawReduced(s, x');
    }
    StepReduced(r, c);
    assert x' != [] ==> f == (r.0 % MODULUS, r.1 % MODULUS);
    StepIgnoresMultiples(r, c);
  }

  lemma StepReduced(r: (nat, nat), c: Byte)
    ensures Step(r, c) == ((r.0 + c) % MODULUS, (r.1 + (r.0 + c)) % MODULUS)
  {
    ModAdd(r.0 + c, r.1, MODULUS);
  }

  lemma StepIgnoresMultiples(r: (nat, nat), c: Byte)
    ensures Step((r.0 % MODULUS, r.1 % MODULUS), c) == Step(r, c)
  {
    ModAdd(r.0, c, MODULUS);
    ModAdd(r.1, (r.0 + c) % MODULUS, MODULUS);
  }

  /** The largest s2 after k steps from sums of at most a: closed form of the bound. */
  function Most(a: nat, k: nat): nat
  {
    a * (k + 1) + 255 * (k * (k + 1) / 2)
  }

  lemma MostStep(a: nat, k: nat)
    ensures Most(a, k + 1) == Most(a, k) + a + 255 * (k + 1)
  {
    assert (k + 1) * (k + 2) == k * (k + 1) + 2 * (k + 1);
    assert (k + 1) * (k + 2) / 2 == k * (k + 1) / 2 + (k + 1);
    assert a * (k + 2) == a * (k + 1) + a;
  }

  lemma {:induction false} RawBound(s: (nat, nat), x: seq<Byte>, a: nat)
    requires s.0 <= a && s.1 <= a
    ensures Raw(s, x).0 <= a + 255 * |x| && Raw(s, x).1 <= Most(a, |x|)
  {
    if x != [] {
      RawBound(s, x[..|x| - 1], a);
      MostStep(a, |x| - 1);
    }
  }

  lemma {:induction false} MostMono(a: nat, k: nat, m: nat)
    requires k <= m
    ensures Most(a, k) <= Most(a, m)
  {
    if k < m {
      MostMono(a, k, m - 1);
      MostStep(a, m - 1);
    }
  }

  /** Within a chunk nothing overflows 32 bits, whatever the 16-bit sums at its start. */
  lemma ChunkFits(s: (nat, nat), x: seq<Byte>)
    requires s.0 <= 65535 && s.1 <= 65535 && |x| <= CHUNK
    ensures Raw(s, x).0 < U32 && Raw(s, x).1 < U32
  {
    RawBound(s, x, 65535);
    MostMono(65535, |x|, CHUNK);
    assert Most(65535, CHUNK) == 4294773495;
  }

  /** ... and 5552 is the largest chunk of which that is true, even for reduced sums. */
  lemma {:induction false} LongerChunksOverflow(x: seq<Byte>)
    requires |x| == CHUNK + 1 && forall i | 0 <= i < |x| :: x[i] == 255
    ensures Raw((65520, 65520), x).1 >= U32
  {
    RawOfMaxima(x);
    assert Most(65520, CHUNK + 1) == 4296171735;
  }

  lemma {:induction false} RawOfMaxima(x: seq<Byte>)
    requires forall i | 0 <= i < |x| :: x[i] == 255
    ensures Raw((65520, 65520), x) == (65520 + 255 * |x|, Most(65520, |x|))
  {
    if x != [] {
      RawOfMaxima(x[..|x| - 1]);
      MostStep(65520, |x| - 1);
    }
  }

  // ---------------- The update

  class Adler32 {
    var state: Word

    constructor ()
      ensures state == 1
    {
      state := 1;
    }

    /** The two sums packed into the state. */
    ghost function Sums(): (nat, nat)
      reads this
    {
      (state % 65536, state / 65536)
    }

    method Update(x: seq<Byte>) returns (r: Word)
      modifies this
      ensures Sums() == Fold(old(Sums()), x)
      ensures r == state
    {
      hide Fold, Raw, And;
      var s1: Word, s2: Word := Unpack(state);
      ghost var start := Sums();
      FoldNothing(start);
      var rest := x;
      ghost var done: seq<Byte> := [];
      while |rest| > 0
        invariant done + rest == x
        invariant s1 <= 65535 && s2 <= 65535 && (s1, s2) == Fold(start, done)
        decreases |rest|
      {
        var remaining := [];
        if |rest| > CHUNK {
          remaining := rest[CHUNK..];
          rest := rest[..CHUNK];
        }
        ghost var s := (s1, s2);
        s1, s2 := Chunk(rest, s1, s2);
        RawReduced(s, rest);
        s1 := s1 % MODULUS;
        s2 := s2 % MODULUS;
        FoldAppend(start, done, rest);
        assert (done + rest) + remaining == x;
        done := done + rest;
        rest := remaining;
      }
      assert done == x;
      Pack(s1, s2);
      state := OrNat(AndNat(s2, 65535) * 65536, AndNat(s1, 65535));
      r := state;
    }
  }

  /** `state & 65535` and `state >> 16`. */
  method Unpack(state: Word) returns (s1: Word, s2: Word)
    ensures s1 == state % 65536 && s2 == state / 65536
    ensures s1 <= 65535 && s2 <= 65535
  {
    hide And;
    Pow2Large();
    AndMask(state, 16);
    s1, s2 := AndNat(state, 65535), state / 65536;
  }

  lemma Pack(s1: nat, s2: nat)
    requires s1 <= 65535 && s2 <= 65535
    ensures OrNat(AndNat(s2, 65535) * 65536, AndNat(s1, 65535)) == s2 * 65536 + s1 < U32
    ensures (s2 * 65536 + s1) % 65536 == s1 && (s2 * 65536 + s1) / 65536 == s2
  {
    hide And;
    Pow2Large();
    MaskNoop(s1, 16);
    MaskNoop(s2, 16);
    OrAligned(s2 * 65536, s1, 16);
    DivModUnique(s2 * 65536 + s1, 65536, s2, s1);
  }

  /** The two inner loops, the first unrolled by eight. No addition wraps. */
  method Chunk(x: seq<Byte>, a: Word, b: Word) returns (s1: Word, s2: Word)
    requires |x| <= CHUNK && a <= 65535 && b <= 65535
    ensures (s1, s2) == Raw((a, b), x)
  {
    hide Raw;
    RawNothing((a, b));
    s1, s2 := a, b;
    var p, end := 0, |x| / 8 * 8;
    while p < end
      invariant 0 <= p <= end <= |x| && (end - p) % 8 == 0
      invariant (s1, s2) == Raw((a, b), x[..p])
    {
      s1, s2 := Add(s1, s2, x, p, a, b);
      s1, s2 := Add(s1, s2, x, p + 1, a, b);
      s1, s2 := Add(s1, s2, x, p + 2, a, b);
      s1, s2 := Add(s1, s2, x, p + 3, a, b);
      s1, s2 := Add(s1, s2, x, p + 4, a, b);
      s1, s2 := Add(s1, s2, x, p + 5, a, b);
      s1, s2 := Add(s1, s2, x, p + 6, a, b);
      s1, s2 := Add(s1, s2, x, p + 7, a, b);
      p := p + 8;
    }
    while p < |x|
      invariant 0 <= p <= |x|
      invariant (s1, s2) == Raw((a, b), x[..p])
    {
      s1, s2 := Add(s1, s2, x, p, a, b);
      p := p + 1;
    }
    assert x[..p] == x;
  }

  method Add(r1: Word, r2: Word, x: seq<Byte>, p: nat, ghost a: Word, ghost b: Word) returns (s1: Word, s2: Word)
    requires p < |x| <= CHUNK && a <= 65535 && b <= 65535
    requires (r1, r2) == Raw((a, b), x[..p])
    ensures (s1, s2) == Raw((a, b), x[..p + 1])
  {
    ChunkFits((a, b), x[..p + 1]);
    assert x[..p + 1][..p] == x[..p];
    s1 := Wrap(r1 + x[p]);
    s2 := Wrap(r2 + s1);
  }

  // ---------------- The checksum of a stream that arrives in pieces

  function Concat(pieces: seq<seq<Byte>>): seq<Byte>
  {
    if pieces == [] then [] else Concat(pieces[..|pieces| - 1]) + pieces[|pieces| - 1]
  }

  /** The loop of the zlib decoder: update with what each call of the inner decoder has written. */
  method ChecksumOfPieces(pieces: seq<seq<Byte>>) returns (got: nat)
    requires pieces != []
    ensures got == Checksum(Concat(pieces))
  {
    var adler := new Adler32();
    got := 0;
    var i := 0;
    while i < |pieces|
      invariant 0 <= i <= |pieces|
      invariant adler.Sums() == Fold((1, 0), Concat(pieces[..i]))
      invariant i > 0 ==> got == adler.state
    {
      got := adler.Update(pieces[i]);
      assert pieces[..i + 1][..i] == pieces[..i];
      FoldAppend((1, 0), Concat(pieces[..i]), pieces[i]);
      i := i + 1;
    }
    assert pieces[..i] == pieces;
  }
}
