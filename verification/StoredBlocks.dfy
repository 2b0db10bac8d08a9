/** decode_uncompressed (gen/c/std/deflate.c): a stored block, copied from the input. */
module StoredBlocks {
  import opened Bits
  import opened Words
  import opened BitStream
  import opened Inflate
  import opened HuffRead
  import opened HuffSlow
  import opened Writers
  import opened History
  import opened BackRefs

  /** Suspension point 2, with some of the four bytes of the lengths read, or points 3 and 4. */
  datatype StoredLocals = Gathering(scratch: nat, n: nat) | CopyingBytes(length: nat)

  datatype StoredStatus = StoredEnded | StoredShortRead | StoredShortWrite | StoredBadLength

  ghost predicate StoredMeans(l: StoredLocals, c: Config, last: bool, t: seq<Byte>)
  {
    match l
    case Gathering(x, n) => c == Config(StoredHeader(last), t, c.bits) && Holding(x, n, c.bits) && n % 8 == 0 && n < 32
    case CopyingBytes(length) => c == Config(Stored(last, length), t, [])
  }

  // ---------------- The lengths

  /** load_u32le. */
  function LoadU32le(s: seq<Byte>): nat
    requires |s| == 4
  {
    OrNat(OrNat(OrNat(s[0], Scaled(s[1], 256)), Scaled(s[2], 65536)), Scaled(s[3], 16777216))
  }

  function Scaled(b: nat, scale: nat): nat { b * scale }

  lemma LoadIsStream(s: seq<Byte>)
    requires |s| == 4
    ensures Holding(LoadU32le(s), 32, Stream(s))
  {
    hide And, Or, BitsOf, ToNat;
    OneByte(s, 0);
    assert s[0..1] == s[..1];
    ByteHeld(s[0]);
    NextHeld(s, 1, s[0], 256);
    NextHeld(s, 2, OrNat(s[0], Scaled(s[1], 256)), 65536);
    NextHeld(s, 3, OrNat(OrNat(s[0], Scaled(s[1], 256)), Scaled(s[2], 65536)), 16777216);
    assert s[..4] == s;
  }

  lemma ByteHeld(b: Byte)
    ensures Holding(b, 8, BitsOf(b, 8))
  {
    ToNatBitsOf(b, 8);
    ByteFits(b, 0);
  }

  lemma NextHeld(s: seq<Byte>, k: nat, x: nat, scale: nat)
    requires 1 <= k < |s| && k <= 3 && Holding(x, 8 * k, Stream(s[..k]))
    requires scale == if k == 1 then 256 else if k == 2 then 65536 else 16777216
    ensures Holding(OrNat(x, Scaled(s[k], scale)), 8 * (k + 1), Stream(s[..k + 1]))
  {
    assert Pow2(8 * k) == scale by { Pow2Values(); Pow2Add(8, 8); Pow2Add(16, 8); }
    AppendedByte(x, 8 * k, s[k], Stream(s[..k]));
    ByteFits(s[k], 8 * k);
    assert s[..k + 1][..k] == s[..k];
  }

  /** Reads what is missing of the four bytes. */
  method Gather(l: StoredLocals, src: seq<Byte>, ri: nat, ghost c0: Config, ghost c: Config, ghost last: bool, ghost t: seq<Byte>)
    returns (x: nat, n: nat, ri': nat, ghost c': Config)
    requires l.Gathering? && StoredMeans(l, c, last, t) && ri <= |src| && Leads(c0, Feed(c, src[ri..]))
    ensures c' == Config(StoredHeader(last), t, c'.bits) && Holding(x, n, c'.bits) && n % 8 == 0 && n <= 32
    ensures ri <= ri' <= |src| && (n < 32 ==> ri' == |src|)
    ensures Leads(c0, Feed(c', src[ri'..]))
  {
    hide Leads, Feed, Stream, ToNat, Read, LoadU32le;
    if l.n == 0 && |src| - ri >= 4 {
      var four := src[ri..ri + 4];
      LoadIsStream(four);
      x, n, ri' := LoadU32le(four), 32, ri + 4;
      c' := c.(bits := Stream(four));
      FeedFour(c, src, ri);
      return;
    }
    var i := Input(l.scratch, l.n, ri);
    ghost var held := c.bits;
    while i.nBits < 32 && i.ri < |src|
      invariant Has(i, src, held) && i.nBits % 8 == 0 && i.nBits <= 32 && ri <= i.ri
      invariant Leads(c0, Feed(Config(StoredHeader(last), t, held), src[i.ri..]))
      decreases |src| - i.ri
    {
      ghost var i0, held0 := i, held;
      i, held := ReadByte(i, src, held);
      ReadLeads(c0, StoredHeader(last), t, i0, held0, i, held, src);
    }
    x, n, ri', c' := i.bits, i.nBits, i.ri, Config(StoredHeader(last), t, held);
  }

  lemma FeedFour(c: Config, src: seq<Byte>, ri: nat)
    requires c.bits == [] && ri + 4 <= |src|
    ensures Feed(c, src[ri..]) == Feed(c.(bits := Stream(src[ri..ri + 4])), src[ri + 4..])
  {
    hide Stream;
    StreamAppend(src[ri..ri + 4], src[ri + 4..]);
    assert src[ri..ri + 4] + src[ri + 4..] == src[ri..];
    assert [] + Stream(src[ri..]) == Stream(src[ri..]);
  }

  lemma StoredHeaderSteps(last: bool, t: seq<Byte>, bits: seq<bool>, x: nat)
    requires Holding(x, 32, bits)
    ensures var c := Config(StoredHeader(last), t, bits);
            if x % 65536 + x / 65536 != 65535 then Advance(c) == Stop(BadStoredLength)
            else Advance(c) == Go(Config(Stored(last, x % 65536), t, []))
  {
    assert ToNat(bits[..16]) == x % 65536 && ToNat(bits[16..]) == x / 65536 by {
      hide ToNat, Low, Shr;
      ToNatSplit(bits, 16);
      Pow2Large();
      LowIsMod(x, 16);
      ShrIsDiv(x, 16);
    }
    hide ToNat;
    assert bits[16..32] == bits[16..];
    assert bits[32..] == [];
  }

  // ---------------- The bytes

  lemma StoredByte(c0: Config, last: bool, length: nat, t: seq<Byte>, src: seq<Byte>, ri: nat)
    requires 0 < length && ri < |src| && Leads(c0, Feed(Config(Stored(last, length), t, []), src[ri..]))
    ensures Leads(c0, Feed(Config(Stored(last, length - 1), t + [src[ri]], []), src[ri + 1..]))
  {
    hide Leads, Feed;
    var c := Config(Stored(last, length), t, []);
    var b := src[ri];
    FeedByte(c, src[ri..]);
    assert src[ri..][1..] == src[ri + 1..];
    var c1 := c.(bits := BitsOf(b, 8));
    assert [] + BitsOf(b, 8) == BitsOf(b, 8);
    ByteHeld(b);
    assert c1.bits[..8] == c1.bits && c1.bits[8..] == [];
    assert Advance(c1) == Go(Config(Stored(last, length - 1), t + [b], []));
    StepLeads(c0, c1, src[ri + 1..]);
  }

  lemma {:induction false} StoredBytes(c0: Config, last: bool, length: nat, t: seq<Byte>, src: seq<Byte>, ri: nat, n: nat)
    requires n <= length && ri + n <= |src| && Leads(c0, Feed(Config(Stored(last, length), t, []), src[ri..]))
    ensures Leads(c0, Feed(Config(Stored(last, length - n), t + src[ri..ri + n], []), src[ri + n..]))
    decreases n
  {
    hide Leads, Feed;
    if n == 0 {
      assert t + src[ri..ri] == t;
    } else {
      StoredBytes(c0, last, length, t, src, ri, n - 1);
      StoredByte(c0, last, length - (n - 1), t + src[ri..ri + n - 1], src, ri + n - 1);
      assert t + src[ri..ri + n - 1] + [src[ri + n - 1]] == t + src[ri..ri + n];
    }
  }

  ghost predicate StoredDone(c0: Config, l: StoredLocals, c: Config, last: bool, src: seq<Byte>, ri: nat, t: seq<Byte>, room: nat, status: StoredStatus)
  {
    && ri <= |src| && StageOk(c.stage) && Leads(c0, Feed(c, src[ri..]))
    && match status
       case StoredEnded => Advance(c) == AfterBlock(last, t, []) && c.out == t
       case StoredShortRead => StoredMeans(l, c, last, t) && ri == |src| && Advance(c).Wait?
       case StoredShortWrite => StoredMeans(l, c, last, t) && room == 0 && l.CopyingBytes? && l.length > 0
       case StoredBadLength => Advance(c) == Stop(BadStoredLength) && c.out == t
  }

  /** decode_uncompressed, from wherever it was. */
  method DecodeUncompressed(l: StoredLocals, ghost ring: Ring, dst: Writer, src: seq<Byte>, ri: nat,
                            ghost c0: Config, ghost c: Config, ghost last: bool)
    returns (l': StoredLocals, ri': nat, status: StoredStatus, ghost c': Config)
    requires dst.Valid() && ri <= |src| && StoredMeans(l, c, last, Total(ring, dst)) && Leads(c0, Feed(c, src[ri..]))
    modifies dst`wi, dst.buf
    ensures dst.Valid() && old(dst.wi) <= dst.wi && ri <= ri' && StoredDone(c0, l', c', last, src, ri', Total(ring, dst), dst.Room(), status)
  {
    hide Leads, Feed, Advance, ToNat;
    l', ri', c' := l, ri, c;
    if l.Gathering? {
      var x, n;
      x, n, ri', c' := Gather(l, src, ri, c0, c, last, Total(ring, dst));
      if n < 32 {
        l', status := Gathering(x, n), StoredShortRead;
        StoredHeaderWaits(last, Total(ring, dst), c'.bits);
        return;
      }
      StoredHeaderSteps(last, Total(ring, dst), c'.bits, x);
      if x % 65536 + x / 65536 != 65535 {
        status := StoredBadLength;
        return;
      }
      StepLeads(c0, c', src[ri'..]);
      c' := Advance(c').next;
      l' := CopyingBytes(x % 65536);
    }
    l', ri', status, c' := CopyStored(l', ring, dst, src, ri', c0, c', last);
  }

  lemma StoredHeaderWaits(last: bool, t: seq<Byte>, bits: seq<bool>)
    requires |bits| < 32
    ensures Advance(Config(StoredHeader(last), t, bits)) == Wait
  {
  }

  /** The copying loop: it either ends the block or suspends. */
  method CopyStored(l: StoredLocals, ghost ring: Ring, dst: Writer, src: seq<Byte>, ri: nat,
                    ghost c0: Config, ghost c: Config, ghost last: bool)
    returns (l': StoredLocals, ri': nat, status: StoredStatus, ghost c': Config)
    requires dst.Valid() && ri <= |src| && l.CopyingBytes?
    requires StoredMeans(l, c, last, Total(ring, dst)) && Leads(c0, Feed(c, src[ri..]))
    modifies dst`wi, dst.buf
    ensures dst.Valid() && old(dst.wi) <= dst.wi && ri <= ri' && StoredDone(c0, l', c', last, src, ri', Total(ring, dst), dst.Room(), status)
  {
    hide Leads, Feed;
    ghost var h, w := ring.recorded, dst.Written();
    var n := dst.CopyFromReader32(src, ri, l.length);
    StoredBytes(c0, last, l.length, h + w, src, ri, n);
    Associate(h, w, src[ri..ri + n]);
    l', ri' := CopyingBytes(l.length - n), ri + n;
    c' := Config(Stored(last, l.length - n), h + w + src[ri..ri + n], []);
    status := if l.length <= n then StoredEnded else if dst.Room() == 0 then StoredShortWrite else StoredShortRead;
  }
}
