/** The last 32768 bytes of output, kept in a ring: the suspension handling of
    wuffs_deflate__decoder__decode (gen/c/std/deflate.c). */
module History {
  import opened Bits
  import opened Words
  import opened Writers

  const RING := 32768

  function Slot(x: nat): nat { x % RING }

  // ---------------- Slots

  lemma SlotIs(x: nat, q: nat, r: nat)
    requires x == q * RING + r && r < RING
    ensures Slot(x) == r
  {
    DivModUnique(x, RING, q, r);
  }

  lemma SlotPlusRing(x: nat)
    ensures Slot(x + RING) == Slot(x)
  {
    SlotIs(x + RING, x / RING + 1, x % RING);
  }

  /** Without wrapping around, slots follow one another. */
  lemma SlotPlus(x: nat, i: nat)
    requires Slot(x) + i < RING
    ensures Slot(x + i) == Slot(x) + i
  {
    SlotIs(x + i, x / RING, Slot(x) + i);
  }

  /** Slots wrap around at most once over less than a ring. */
  lemma SlotWraps(x: nat, i: nat)
    requires i < RING
    ensures Slot(x + i) == if Slot(x) + i < RING then Slot(x) + i else Slot(x) + i - RING
  {
    if Slot(x) + i < RING {
      SlotPlus(x, i);
    } else {
      SlotIs(x + i, x / RING + 1, Slot(x) + i - RING);
    }
  }

  lemma SlotMinus(a: nat, b: nat, d: nat)
    requires Slot(a) == Slot(b) && d <= a && d <= b
    ensures Slot(a - d) == Slot(b - d)
  {
    var qa, qb := a / RING, b / RING;
    var q, r := (a - d) / RING, (a - d) % RING;
    SlotIs(b - d, q - qa + qb, r);
  }

  lemma MaskIsSlot(x: nat)
    ensures AndNat(x, 32767) == Slot(x)
  {
    Pow2Large();
    AndMask(x, 15);
  }

  // ---------------- The ring

  /** The byte k before the end of h is k slots before index. */
  ghost predicate KeptAt(history: seq<Byte>, index: nat, h: seq<Byte>, k: nat)
    requires |history| == RING && k <= index && 1 <= k <= |h|
  {
    history[Slot(index - k)] == h[|h| - k]
  }

  /** The ring holds the last bytes of h. */
  ghost predicate RingOk(history: seq<Byte>, index: nat, h: seq<Byte>)
  {
    && |history| == RING && index <= 2 * RING
    && Least(index, RING) == Least(|h|, RING)
    && forall k: nat {:trigger KeptAt(history, index, h, k)} | 1 <= k <= Least(|h|, RING) :: KeptAt(history, index, h, k)
  }

  /** The bytes of h from `back` before its end on, as long as they do not wrap around. */
  lemma RingSlice(history: seq<Byte>, index: nat, h: seq<Byte>, back: nat, n: nat)
    requires RingOk(history, index, h) && n <= back <= Least(|h|, RING)
    requires Slot(index - back) + n <= RING
    ensures history[Slot(index - back)..Slot(index - back) + n] == h[|h| - back..|h| - back + n]
  {
    var p := Slot(index - back);
    var a, b := history[p..p + n], h[|h| - back..|h| - back + n];
    forall i: nat | i < n ensures a[i] == b[i] {
      hide Slot;
      SlotPlus(index - back, i);
      assert KeptAt(history, index, h, back - i);
      assert index - (back - i) == index - back + i;
    }
  }

  /** After `written`, less than a ring of it, is stored from slot `at` on. */
  ghost predicate AddedAt(before: seq<Byte>, after: seq<Byte>, at: nat, written: seq<Byte>, i: nat)
    requires |before| == |after| == RING
  {
    after[Slot(at + i)] == if i < |written| then written[i] else before[Slot(at + i)]
  }

  ghost predicate Added(before: seq<Byte>, after: seq<Byte>, at: nat, written: seq<Byte>)
  {
    && |before| == |after| == RING && |written| < RING
    && forall i: nat {:trigger AddedAt(before, after, at, written, i)} | i < RING :: AddedAt(before, after, at, written, i)
  }

  lemma AddedKeepsRing(before: seq<Byte>, after: seq<Byte>, index: nat, index': nat, h: seq<Byte>, written: seq<Byte>)
    requires RingOk(before, index, h) && Added(before, after, index, written)
    requires Slot(index') == Slot(index + |written|) && index' <= 2 * RING
    requires Least(index', RING) == Least(|h| + |written|, RING)
    ensures RingOk(after, index', h + written)
  {
    var t := h + written;
    forall k: nat | 1 <= k <= Least(|t|, RING) ensures KeptAt(after, index', t, k) {
      hide Slot;
      SlotMinus(index', index + |written|, k);
      if k <= |written| {
        assert AddedAt(before, after, index, written, |written| - k);
        assert index + |written| - k == index + (|written| - k);
      } else {
        var m := k - |written|;
        assert KeptAt(before, index, h, m);
        SlotPlusRing(index - m);
        assert index - m + RING == index + (RING - m);
        assert AddedAt(before, after, index, written, RING - m);
        assert index + |written| - k == index - m;
      }
    }
  }

  /** Storing a piece that does not wrap around. */
  lemma AddedOnce(before: seq<Byte>, after: seq<Byte>, at: nat, written: seq<Byte>)
    requires |before| == RING && |written| < RING && Slot(at) + |written| <= RING
    requires after == before[..Slot(at)] + written + before[Slot(at) + |written|..]
    ensures Added(before, after, at, written)
  {
    forall i: nat | i < RING ensures AddedAt(before, after, at, written, i) {
      SlotWraps(at, i);
    }
  }

  /** Storing a piece that does. */
  lemma AddedTwice(before: seq<Byte>, after: seq<Byte>, at: nat, written: seq<Byte>)
    requires |before| == RING && |written| < RING && RING < Slot(at) + |written|
    requires var n := RING - Slot(at);
             after == written[n..] + before[|written| - n..Slot(at)] + written[..n]
    ensures Added(before, after, at, written)
  {
    forall i: nat | i < RING ensures AddedAt(before, after, at, written, i) {
      SlotWraps(at, i);
    }
  }

  /** The two copies that store it. */
  lemma StoredTwice(before: seq<Byte>, mid: seq<Byte>, after: seq<Byte>, at: nat, written: seq<Byte>, n: nat)
    requires |before| == RING && |written| < RING && RING < Slot(at) + |written| && n == RING - Slot(at)
    requires mid == before[..Slot(at)] + written[..n] + before[Slot(at) + n..]
    requires after == mid[..0] + written[n..] + mid[|written| - n..]
    ensures Added(before, after, at, written)
  {
    hide Slot, Added;
    assert after == written[n..] + before[|written| - n..Slot(at)] + written[..n];
    AddedTwice(before, after, at, written);
  }

  class Ring {
    const history: array<Byte>
    var index: nat

    /** Everything recorded so far. */
    ghost var recorded: seq<Byte>

    constructor ()
      ensures Valid() && recorded == [] && index == 0 && fresh(history)
    {
      history := new Byte[RING](_ => 0);
      index, recorded := 0, [];
    }

    ghost predicate Valid()
      reads this, history
    {
      history.Length == RING && RingOk(history[..], index, recorded)
    }

    /** slice_u8__copy_from_slice. */
    method CopyInto(at: nat, src: seq<Byte>) returns (n: nat)
      requires at <= history.Length
      modifies history
      ensures n == Least(history.Length - at, |src|)
      ensures history[..] == old(history[..at]) + src[..n] + old(history[at + n..])
    {
      n := if history.Length - at < |src| then history.Length - at else |src|;
      forall i | 0 <= i < n {
        history[at + i] := src[i];
      }
      assert history[..] == old(history[..at]) + src[..n] + old(history[at + n..]);
    }

    /** Stores less than a ring of bytes and moves the index on. */
    method RecordLittle(written: seq<Byte>)
      requires Valid() && |written| < RING
      modifies this`index, history
      ensures RingOk(history[..], index, recorded + written)
      ensures Slot(index) == Slot(old(index) + |written|)
    {
      hide Slot, RingOk, Added;
      ghost var before, index0 := history[..], index;
      var at := MaskIndex(index);
      SlotBound(index);
      var n := CopyInto(at, written);
      if n < |written| {
        var rest := written[n..];
        ghost var mid, first := history[..], n;
        n := CopyInto(0, rest);
        assert rest[..n] == rest;
        StoredTwice(before, mid, history[..], index0, written, first);
        IndexWrapped(before, index0, recorded, |written|, n);
        index := MaskIndex(n);
        index := index + RING;
      } else {
        assert written[..n] == written;
        AddedOnce(before, history[..], index0, written);
        IndexFits(before, index0, recorded, n);
        var alreadyFull := 0;
        if index >= RING {
          alreadyFull := RING;
        }
        n := MaskIndex(n);
        index := at + n + alreadyFull;
      }
      AddedKeepsRing(before, history[..], index0, index, recorded, written);
    }

    /** What decode does with the bytes written since the mark before it suspends. */
    method Record(written: seq<Byte>)
      requires Valid()
      modifies this, history
      ensures Valid() && recorded == old(recorded) + written
      ensures |written| < RING ==> Slot(index) == Slot(old(index) + |written|)
    {
      if |written| >= RING {
        var last := written[|written| - RING..];
        var n := CopyInto(0, last);
        index := RING;
        AllRecorded(history[..], recorded, written);
      } else {
        RecordLittle(written);
      }
      recorded := recorded + written;
    }
  }

  /** The index after a piece that wraps around ... */
  lemma IndexWrapped(history: seq<Byte>, index: nat, h: seq<Byte>, length: nat, rest: nat)
    requires RingOk(history, index, h) && length < RING && rest == Slot(index) + length - RING
    ensures Slot(rest) == rest && Slot(rest + RING) == Slot(index + length) && rest + RING <= 2 * RING
    ensures Least(rest + RING, RING) == Least(|h| + length, RING)
  {
    SlotWraps(index, length);
    SlotIs(rest, 0, rest);
    SlotPlusRing(rest);
    if index < RING { SlotIs(index, 0, index); }
  }

  /** ... and after one that does not. */
  lemma IndexFits(history: seq<Byte>, index: nat, h: seq<Byte>, length: nat)
    requires RingOk(history, index, h) && length < RING && Slot(index) + length <= RING
    ensures var index' := Slot(index) + length + (if index >= RING then RING else 0);
            && Slot(length) == length && Slot(index') == Slot(index + length) && index' <= 2 * RING
            && Least(index', RING) == Least(|h| + length, RING)
  {
    SlotIs(length, 0, length);
    SlotWraps(index, length);
    var x := Slot(index) + length;
    SlotPlusRing(x);
    if x < RING { SlotIs(x, 0, x); } else { SlotIs(x, 1, 0); }
    if index < RING { SlotIs(index, 0, index); }
  }

  lemma SlotBound(x: nat)
    ensures Slot(x) < RING
  {
  }

  method MaskIndex(x: nat) returns (r: nat)
    ensures r == Slot(x)
  {
    MaskIsSlot(x);
    r := AndNat(x, 32767);
  }

  lemma AllRecorded(history: seq<Byte>, h: seq<Byte>, written: seq<Byte>)
    requires |written| >= RING && history == written[|written| - RING..]
    ensures RingOk(history, RING, h + written)
  {
    var t := h + written;
    forall k: nat | 1 <= k <= Least(|t|, RING) ensures KeptAt(history, RING, t, k) {
      SlotIs(RING - k, 0, RING - k);
    }
  }
}
