/** Copying a back-reference to the output: from the ring, from its start after wrapping around,
    and from the destination buffer itself (gen/c/std/deflate.c, decode_huffman_slow and
    decode_huffman_fast). The slow form may be suspended wherever the destination is full. */
module BackRefs {
  import opened Words
  import opened Writers
  import opened History

  const MAX_LENGTH := 258

  /** Where the slow copy resumes: the outer loop (suspension point 11), the ring up to its end
      (point 9) or the ring from its start (point 10). */
  datatype Point = Top | InRing | InWrapped

  /** The variables that live across a suspension. */
  datatype Copying = Copying(point: Point, length: nat, distance: nat, hlen: nat, hdist: nat)

  datatype CopyStatus = Finished | ShortWrite | BadDistance | Inconsistent

  ghost function Total(ring: Ring, dst: Writer): seq<Byte>
    requires dst.Valid()
    reads ring, dst, dst.buf
  {
    ring.recorded + dst.Written()
  }

  /** How many bytes are still to be copied. */
  function Left(c: Copying): nat { c.length + c.hlen }

  /** The next hlen bytes are in the ring from slot hdist on: they are `distance` back, which is
      before the nW bytes written since the mark. */
  ghost predicate FromRing(c: Copying, index: nat, nH: nat, nW: nat)
  {
    && nW + c.hlen <= c.distance <= nH + nW
    && c.distance - nW <= index
    && Slot(c.hdist) == Slot(index - (c.distance - nW))
  }

  ghost predicate CopyOk(c: Copying, index: nat, nH: nat, nW: nat)
  {
    && 1 <= c.distance <= RING && Left(c) <= MAX_LENGTH
    && match c.point
       case Top => c.hlen == 0
       case InRing => 0 < c.hlen && FromRing(c, index, nH, nW)
       case InWrapped => 0 < c.hlen && FromRing(c, index, nH, nW) && c.hdist + c.hlen <= RING
  }

  ghost predicate Ready(c: Copying, ring: Ring, dst: Writer)
    reads ring, ring.history, dst
  {
    && ring.Valid() && dst.Valid() && ring.history != dst.buf
    && CopyOk(c, ring.index, |ring.recorded|, dst.wi - dst.mark)
  }

  /** Between two calls the bytes written are recorded in the ring: the copy can go on. */
  lemma CopyOkRecorded(c: Copying, history: seq<Byte>, index: nat, nH: nat, nW: nat, history': seq<Byte>, index': nat, h': seq<Byte>)
    requires CopyOk(c, index, nH, nW) && RingOk(history', index', h') && |h'| == nH + nW
    requires nW < RING ==> Slot(index') == Slot(index + nW)
    ensures CopyOk(c, index', nH + nW, 0)
  {
    if !c.point.Top? {
      SlotMinus(index', index + nW, c.distance);
    }
  }

  /** Up to `distance` bytes, nothing overlaps. */
  lemma {:induction false} CopiedApart(s: seq<Byte>, distance: nat, n: nat)
    requires 0 < distance <= |s| && n <= distance
    ensures Copied(s, distance, n) == s + s[|s| - distance..|s| - distance + n]
  {
    if n > 0 {
      CopiedApart(s, distance, n - 1);
      var i := |s| - distance + n - 1;
      var t := s + s[|s| - distance..i];
      assert t[|t| - distance] == s[i];
      assert s[|s| - distance..i + 1] == s[|s| - distance..i] + [s[i]];
    }
  }

  /** One call of copy_from_slice32 on the ring. */
  method CopyPiece(c: Copying, ring: Ring, dst: Writer) returns (n: nat)
    requires ring.Valid() && dst.Valid() && ring.history != dst.buf
    requires 1 <= c.distance <= RING && FromRing(c, ring.index, |ring.recorded|, dst.wi - dst.mark)
    modifies dst`wi, dst.buf
    ensures dst.Valid() && ring.Valid()
    ensures n == Least(RING - Slot(c.hdist), Least(c.hlen, old(dst.Room()))) && dst.Room() == old(dst.Room()) - n
    ensures dst.wi == old(dst.wi) + n
    ensures Total(ring, dst) == Copied(old(Total(ring, dst)), c.distance, n)
  {
    hide RingOk, Slot, Copied;
    var p := MaskIndex(c.hdist);
    SlotBound(c.hdist);
    ghost var h, w := ring.recorded, dst.Written();
    n := dst.CopyFromSlice32(ring.history[p..], c.hlen);
    assert ring.history[p..][..n] == ring.history[..][p..p + n];
    PieceIsCopied(c, ring.history[..], ring.index, h, w, n);
  }

  lemma PieceIsCopied(c: Copying, history: seq<Byte>, index: nat, h: seq<Byte>, w: seq<Byte>, n: nat)
    requires RingOk(history, index, h) && 1 <= c.distance <= RING && FromRing(c, index, |h|, |w|)
    requires n <= c.hlen && Slot(c.hdist) + n <= RING
    ensures h + (w + history[Slot(c.hdist)..Slot(c.hdist) + n]) == Copied(h + w, c.distance, n)
  {
    var back := c.distance - |w|;
    RingSlice(history, index, h, back, n);
    hide RingOk, Slot;
    CopiedApart(h + w, c.distance, n);
    var piece := h[|h| - back..|h| - back + n];
    SliceOfLeft(h, w, |h| - back, |h| - back + n);
    Associate(h, w, piece);
  }

  lemma SliceOfLeft(h: seq<Byte>, w: seq<Byte>, i: nat, j: nat)
    requires i <= j <= |h|
    ensures (h + w)[i..j] == h[i..j]
  {
  }

  lemma Associate(a: seq<Byte>, b: seq<Byte>, c: seq<Byte>)
    ensures a + (b + c) == (a + b) + c
  {
  }

  /** n more bytes of the reference expansion. */
  function Expanded(t: seq<Byte>, distance: nat, n: nat): seq<Byte>
    requires n > 0 ==> 0 < distance <= |t|
  {
    if n == 0 then t else Copied(t, distance, n)
  }

  lemma SlotPlusSame(a: nat, b: nat, n: nat)
    requires Slot(a) == Slot(b)
    ensures Slot(a + n) == Slot(b + n)
  {
    var qa, qb := a / RING, b / RING;
    var q, r := (a + n) / RING, (a + n) % RING;
    SlotIs(b + n, q - qa + qb, r);
  }

  /** After n bytes of the ring. */
  lemma RingMoved(c: Copying, index: nat, nH: nat, nW: nat, n: nat)
    requires FromRing(c, index, nH, nW) && n <= c.hlen
    ensures FromRing(c.(hlen := c.hlen - n, hdist := c.hdist + n), index, nH, nW + n)
    ensures FromRing(c.(hlen := c.hlen - n, hdist := Slot(c.hdist + n)), index, nH, nW + n)
  {
    hide Slot;
    SlotPlusSame(c.hdist, index - (c.distance - nW), n);
    assert index - (c.distance - nW) + n == index - (c.distance - (nW + n));
    SlotTwice(c.hdist + n);
  }

  lemma SlotTwice(x: nat)
    ensures Slot(Slot(x)) == Slot(x)
  {
    SlotIs(Slot(x), 0, Slot(x));
  }

  /** The loop at suspension point 9: up to the end of the ring. */
  method CopyInRing(c: Copying, ring: Ring, dst: Writer) returns (c': Copying, suspended: bool)
    requires c.point == InRing && Ready(c, ring, dst)
    modifies dst`wi, dst.buf
    ensures Ready(c', ring, dst) && c'.distance == c.distance && c'.length == c.length && Left(c') <= Left(c)
    ensures dst.wi == old(dst.wi) + Left(c) - Left(c')
    ensures Total(ring, dst) == Expanded(old(Total(ring, dst)), c.distance, Left(c) - Left(c'))
    ensures suspended ==> c'.point == InRing && dst.Room() == 0
    ensures !suspended ==> c'.point != InRing
  {
    hide Slot;
    c', suspended := c, false;
    ghost var nW := dst.wi - dst.mark;
    var n := CopyPiece(c, ring, dst);
    if c.hlen <= n {
      c' := c.(point := Top, hlen := 0);
      return;
    }
    RingMoved(c, ring.index, |ring.recorded|, nW, n);
    SlotBound(c.hdist);
    if n > 0 {
      PieceEnds(c, n);
      var hdist := MaskIndex(c.hdist + n);
      c' := c.(hlen := c.hlen - n, hdist := hdist);
      if hdist == 0 {
        c' := c'.(point := InWrapped);
        return;
      }
    }
    suspended := true;
  }

  /** A piece that is shorter than what is left ends at the end of the ring or fills the room. */
  lemma PieceEnds(c: Copying, n: nat)
    requires 0 < n <= RING - Slot(c.hdist)
    ensures Slot(c.hdist + n) == 0 <==> n == RING - Slot(c.hdist)
  {
    if n == RING - Slot(c.hdist) {
      SlotIs(c.hdist + n, c.hdist / RING + 1, 0);
    } else {
      SlotPlus(c.hdist, n);
    }
  }

  /** The loop at suspension point 10: from the start of the ring. */
  method CopyWrapped(c: Copying, ring: Ring, dst: Writer) returns (c': Copying, suspended: bool)
    requires c.point == InWrapped && Ready(c, ring, dst)
    modifies dst`wi, dst.buf
    ensures Ready(c', ring, dst) && c'.distance == c.distance && c'.length == c.length && Left(c') <= Left(c)
    ensures dst.wi == old(dst.wi) + Left(c) - Left(c')
    ensures Total(ring, dst) == Expanded(old(Total(ring, dst)), c.distance, Left(c) - Left(c'))
    ensures suspended ==> c'.point == InWrapped && dst.Room() == 0
    ensures !suspended ==> c'.point == Top
  {
    ghost var nW := dst.wi - dst.mark;
    SlotIs(c.hdist, 0, c.hdist);
    hide Slot;
    var n := CopyPiece(c, ring, dst);
    if c.hlen <= n {
      c' := c.(point := Top, hlen := 0);
      suspended := false;
      return;
    }
    RingMoved(c, ring.index, |ring.recorded|, nW, n);
    c' := c.(hlen := c.hlen - n, hdist := c.hdist + n);
    suspended := true;
  }

  /** The start of the outer loop: decide whether to use the ring, and for how many bytes. */
  method Split(c: Copying, ring: Ring, dst: Writer) returns (c': Copying, bad: bool)
    requires c.point == Top && Ready(c, ring, dst) && 0 < c.length
    ensures bad <==> c.distance > |Total(ring, dst)|
    ensures Left(c') == Left(c)
    ensures !bad ==> Ready(c', ring, dst) && c'.distance == c.distance && c'.point != InWrapped
    ensures !bad && c.distance > dst.wi - dst.mark ==>
              c'.point == InRing && (c'.length > 0 ==> dst.wi - dst.mark + c'.hlen == c.distance)
    ensures !bad && c.distance <= dst.wi - dst.mark ==> c' == c
  {
    c', bad := c, false;
    if c.distance > dst.wi - dst.mark {
      var hdist := c.distance - (dst.wi - dst.mark);
      if c.length > hdist {
        c' := c.(length := c.length - hdist, hlen := hdist);
      } else {
        c' := c.(hlen := c.length, length := 0);
      }
      if ring.index < hdist {
        bad := true;
        return;
      }
      c' := c'.(hdist := ring.index - hdist, point := InRing);
    }
  }

  /** The whole loop, from wherever it was: everything is copied, or as much as there is room
      for, or the distance reaches back before the first byte ever written. A suspension with room
      left happens only right after the ring, in a copy that was interrupted there: the bytes
      copied before the previous suspension are no longer in the destination. */
  method CopyBackReference(c: Copying, ring: Ring, dst: Writer) returns (c': Copying, status: CopyStatus)
    requires Ready(c, ring, dst) && 0 < Left(c)
    modifies dst`wi, dst.buf
    ensures dst.Valid() && ring.Valid() && c'.distance == c.distance && Left(c') <= Left(c)
    ensures status == BadDistance <==> c.distance > |old(Total(ring, dst))|
    ensures status == BadDistance ==> Left(c') == Left(c)
    ensures Total(ring, dst) == Expanded(old(Total(ring, dst)), c.distance, Left(c) - Left(c'))
    ensures dst.wi == old(dst.wi) + Left(c) - Left(c')
    ensures status == Finished ==> Left(c') == 0
    ensures status == ShortWrite ==> Ready(c', ring, dst) && 0 < Left(c')
    ensures status == ShortWrite ==> dst.Room() == 0 || (c.point != Top && Left(c') == c.length < Left(c))
    ensures status != Inconsistent
  {
    hide CopyOk, Copied, Expanded, Total, RingOk;
    TotalSize(ring, dst);
    NoneExpanded(Total(ring, dst), c.distance);
    c' := c;
    CopyFacts(c, ring.index, |ring.recorded|, dst.wi - dst.mark);
    if c'.point == Top {
      var bad;
      c', bad := Split(c', ring, dst);
      if bad {
        return c, BadDistance;
      }
    }
    ghost var left, t := Left(c'), Total(ring, dst);
    if c'.point != Top {
      var suspended;
      c', suspended := CopyFromRing(c', ring, dst);
      if suspended {
        return c', ShortWrite;
      }
      if c'.length == 0 {
        return c', Finished;
      }
    }
    ghost var m, t' := left - Left(c'), Total(ring, dst);
    NoneExpanded(t, c.distance);
    assert t' == Expanded(t, c.distance, m);
    ExpandedTwice(t, c.distance, m, 0);
    c', status := CopyNear(c', ring, dst);
    ghost var n := left - m - Left(c');
    ExpandedTwice(t, c.distance, m, n);
    assert Total(ring, dst) == Expanded(t', c.distance, n);
  }

  lemma TotalSize(ring: Ring, dst: Writer)
    requires dst.Valid()
    ensures |Total(ring, dst)| == |ring.recorded| + (dst.wi - dst.mark)
  {
  }

  lemma NoneExpanded(t: seq<Byte>, distance: nat)
    ensures Expanded(t, distance, 0) == t
  {
  }

  lemma CopyFacts(c: Copying, index: nat, nH: nat, nW: nat)
    requires CopyOk(c, index, nH, nW)
    ensures 1 <= c.distance <= RING && Left(c) <= MAX_LENGTH
    ensures if c.point == Top then c.hlen == 0 else 0 < c.hlen && c.distance <= nH + nW
  {
  }

  lemma ExpandedTwice(t: seq<Byte>, distance: nat, m: nat, n: nat)
    requires m + n > 0 ==> 0 < distance <= |t|
    ensures |Expanded(t, distance, m)| == |t| + m
    ensures Expanded(Expanded(t, distance, m), distance, n) == Expanded(t, distance, m + n)
  {
    if m + n > 0 {
      CopiedTwice(t, distance, m, n);
    }
  }

  /** Both loops over the ring. */
  method CopyFromRing(c: Copying, ring: Ring, dst: Writer) returns (c': Copying, suspended: bool)
    requires c.point != Top && Ready(c, ring, dst) && c.distance <= |Total(ring, dst)|
    modifies dst`wi, dst.buf
    ensures Ready(c', ring, dst) && c'.distance == c.distance && c'.length == c.length && Left(c') <= Left(c)
    ensures Total(ring, dst) == Expanded(old(Total(ring, dst)), c.distance, Left(c) - Left(c'))
    ensures dst.wi == old(dst.wi) + Left(c) - Left(c')
    ensures suspended ==> c'.point != Top && dst.Room() == 0 && 0 < c'.hlen
    ensures !suspended ==> c'.point == Top && c'.hlen == 0
  {
    hide FromRing, Copied;
    c' := c;
    ghost var t := Total(ring, dst);
    if c'.point == InRing {
      c', suspended := CopyInRing(c', ring, dst);
      if suspended {
        return;
      }
    }
    ghost var m := Left(c) - Left(c');
    suspended := false;
    if c'.point == InWrapped {
      c', suspended := CopyWrapped(c', ring, dst);
      ExpandedTwice(t, c.distance, m, Left(c) - m - Left(c'));
    }
  }

  /** The copy from the destination itself. */
  method CopyNear(c: Copying, ring: Ring, dst: Writer) returns (c': Copying, status: CopyStatus)
    requires c.point == Top && Ready(c, ring, dst) && 0 < c.length && c.distance <= |Total(ring, dst)|
    modifies dst`wi, dst.buf
    ensures dst.Valid() && ring.Valid() && c'.distance == c.distance && Left(c') <= Left(c)
    ensures Total(ring, dst) == Expanded(old(Total(ring, dst)), c.distance, Left(c) - Left(c'))
    ensures dst.wi == old(dst.wi) + Left(c) - Left(c')
    ensures status == Finished ==> Left(c') == 0
    ensures status == ShortWrite ==> Ready(c', ring, dst) && 0 < Left(c')
    ensures status == ShortWrite ==>
              if c.distance <= old(dst.wi) - dst.mark then dst.Room() == 0 else Left(c') == Left(c)
    ensures status == Finished || status == ShortWrite
  {
    ghost var w := dst.Written();
    var n := dst.CopyFromHistory32(c.distance, c.length);
    if n > 0 {
      CopiedAfter(ring.recorded, w, c.distance, n);
    }
    if c.length <= n {
      return c.(length := 0), Finished;
    }
    c', status := c.(length := c.length - n), ShortWrite;
  }

  // ---------------- The fast form, for when there is room

  /** The part of a fast copy that comes from the ring: at most two pieces. */
  method CopyRingFast(c: Copying, ring: Ring, dst: Writer)
    requires c.point == InRing && Ready(c, ring, dst) && c.hlen <= dst.Room()
    modifies dst`wi, dst.buf
    ensures dst.Valid() && ring.Valid() && dst.wi == old(dst.wi) + c.hlen
    ensures Total(ring, dst) == Copied(old(Total(ring, dst)), c.distance, c.hlen)
  {
    hide Slot, RingOk, Copied;
    ghost var nW, t := dst.wi - dst.mark, Total(ring, dst);
    var n := CopyPiece(c, ring, dst);
    if c.hlen <= n {
      return;
    }
    SlotBound(c.hdist);
    PieceEnds(c, n);
    RingMoved(c, ring.index, |ring.recorded|, nW, n);
    var c' := c.(hlen := c.hlen - n, hdist := 0);
    SlotOfZero();
    n := CopyPiece(c', ring, dst);
    CopiedTwice(t, c.distance, c.hlen - c'.hlen, n);
  }

  lemma SlotOfZero()
    ensures Slot(0) == 0
  {
    SlotIs(0, 0, 0);
  }

  /** decode_huffman_fast's copy: everything at once. */
  method CopyFast(c: Copying, ring: Ring, dst: Writer) returns (status: CopyStatus)
    requires c.point == Top && Ready(c, ring, dst) && 0 < c.length <= dst.Room()
    modifies dst`wi, dst.buf
    ensures dst.Valid() && ring.Valid()
    ensures status == BadDistance <==> c.distance > |old(Total(ring, dst))|
    ensures status == BadDistance ==> Total(ring, dst) == old(Total(ring, dst)) && dst.wi == old(dst.wi)
    ensures status == Finished || status == BadDistance
    ensures status == Finished ==> dst.wi == old(dst.wi) + c.length
    ensures status == Finished ==> Total(ring, dst) == Copied(old(Total(ring, dst)), c.distance, c.length)
  {
    hide Slot, RingOk, Copied, FromRing;
    var length := c.length;
    ghost var t := Total(ring, dst);
    if c.distance > dst.wi - dst.mark {
      var c', bad := Split(c, ring, dst);
      if c'.length > MAX_LENGTH {
        return Inconsistent;
      }
      if bad {
        return BadDistance;
      }
      CopyRingFast(c', ring, dst);
      length := c'.length;
      if length == 0 {
        return Finished;
      }
      if c.distance > dst.wi - dst.mark {
        return Inconsistent;
      }
    }
    ghost var w, t' := dst.Written(), Total(ring, dst);
    CopiedTwice(t, c.distance, c.length - length, length);
    assert t' == Copied(t, c.distance, c.length - length) by { NoneCopied(t, c.distance); }
    CopiedAfter(ring.recorded, w, c.distance, length);
    var n := dst.CopyFromHistory32Bco(c.distance, length);
    status := Finished;
  }

  lemma NoneCopied(t: seq<Byte>, distance: nat)
    requires 0 < distance <= |t|
    ensures Copied(t, distance, 0) == t
  {
  }
}
