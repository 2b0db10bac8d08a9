/** Destination buffers: the writer1 helpers of cmd/wuffs-c/internal/cgen/base-impl.h. */
module Writers {
  import opened Words

  /** The memory after n bytes have been stored one by one from `ptr` on, each the one
      `distance` before it. */
  function Stored(mem: seq<Byte>, ptr: nat, distance: nat, n: nat): (r: seq<Byte>)
    requires 0 < distance <= ptr && ptr + n <= |mem|
    ensures |r| == |mem|
  {
    if n == 0 then mem
    else
      var m := Stored(mem, ptr, distance, n - 1);
      m[ptr + n - 1 := m[ptr + n - 1 - distance]]
  }

  /** s and n more bytes, each the one `distance` before it. */
  function Copied(s: seq<Byte>, distance: nat, n: nat): (r: seq<Byte>)
    requires 0 < distance <= |s|
    ensures |r| == |s| + n
  {
    if n == 0 then s
    else
      var t := Copied(s, distance, n - 1);
      t + [t[|t| - distance]]
  }

  lemma {:induction false} StoredIsCopied(mem: seq<Byte>, mark: nat, ptr: nat, distance: nat, n: nat)
    requires mark <= ptr && 0 < distance <= ptr - mark && ptr + n <= |mem|
    ensures Stored(mem, ptr, distance, n)[mark..ptr + n] == Copied(mem[mark..ptr], distance, n)
    ensures Stored(mem, ptr, distance, n)[..ptr] == mem[..ptr]
    ensures Stored(mem, ptr, distance, n)[ptr + n..] == mem[ptr + n..]
  {
    if n > 0 {
      StoredIsCopied(mem, mark, ptr, distance, n - 1);
      var m := Stored(mem, ptr, distance, n - 1);
      var t := m[mark..ptr + n - 1];
      assert m[ptr + n - 1 - distance] == t[|t| - distance];
      assert Stored(mem, ptr, distance, n)[mark..ptr + n] == t + [t[|t| - distance]];
      assert m[ptr + n - 1..][1..] == m[ptr + n..];
    }
  }

  /** Copying continues where it stopped. */
  lemma {:induction false} CopiedTwice(s: seq<Byte>, distance: nat, m: nat, n: nat)
    requires 0 < distance <= |s|
    ensures Copied(Copied(s, distance, m), distance, n) == Copied(s, distance, m + n)
  {
    if n > 0 {
      CopiedTwice(s, distance, m, n - 1);
    }
  }

  /** What comes before the reach of the distance does not matter. */
  lemma {:induction false} CopiedAfter(h: seq<Byte>, s: seq<Byte>, distance: nat, n: nat)
    requires 0 < distance <= |s|
    ensures Copied(h + s, distance, n) == h + Copied(s, distance, n)
  {
    if n > 0 {
      CopiedAfter(h, s, distance, n - 1);
    }
  }

  class Writer {
    /** buf[mark..wi] has been written since the mark was set; buf[wi..end] is free. */
    const buf: array<Byte>
    const mark: nat
    const end: nat
    var wi: nat

    constructor (buf: array<Byte>, wi: nat, end: nat)
      requires wi <= end <= buf.Length
      ensures Valid() && Written() == [] && Room() == end - wi
      ensures this.buf == buf && this.mark == wi && this.end == end && this.wi == wi
    {
      this.buf, this.mark, this.end, this.wi := buf, wi, end, wi;
    }

    ghost predicate Valid()
      reads this
    {
      mark <= wi <= end <= buf.Length
    }

    ghost function Written(): seq<Byte>
      requires Valid()
      reads this, buf
    {
      buf[mark..wi]
    }

    function Room(): nat
      requires Valid()
      reads this
    {
      end - wi
    }

    method Put(b: Byte)
      requires Valid() && Room() > 0
      modifies this`wi, buf
      ensures Valid() && Written() == old(Written()) + [b] && Room() == old(Room()) - 1
    {
      buf[wi] := b;
      wi := wi + 1;
    }

    /** memmove of bytes for which there is room. */
    method Append(s: seq<Byte>)
      requires Valid() && |s| <= Room()
      modifies this`wi, buf
      ensures Valid() && Written() == old(Written()) + s && Room() == old(Room()) - |s|
    {
      forall i | 0 <= i < |s| {
        buf[wi + i] := s[i];
      }
      wi := wi + |s|;
      assert buf[mark..wi] == old(buf[mark..wi]) + s;
    }

    method CopyFromSlice32(src: seq<Byte>, length: nat) returns (n: nat)
      requires Valid()
      modifies this`wi, buf
      ensures n == Least(|src|, Least(length, old(Room())))
      ensures Valid() && Written() == old(Written()) + src[..n] && Room() == old(Room()) - n
    {
      n := |src|;
      if n > length {
        n := length;
      }
      if n > end - wi {
        n := end - wi;
      }
      if n > 0 {
        Append(src[..n]);
      }
    }

    method CopyFromReader32(src: seq<Byte>, ri: nat, length: nat) returns (n: nat)
      requires Valid() && ri <= |src|
      modifies this`wi, buf
      ensures n == Least(Least(length, old(Room())), |src| - ri)
      ensures Valid() && Written() == old(Written()) + src[ri..ri + n] && Room() == old(Room()) - n
    {
      n := length;
      if n > end - wi {
        n := end - wi;
      }
      if n > |src| - ri {
        n := |src| - ri;
      }
      if n > 0 {
        Append(src[ri..ri + n]);
      }
    }

    /** copy_from_history32: the overlapping copy, clipped to the room there is; nothing if the
        distance is zero or reaches behind the mark. */
    method CopyFromHistory32(distance: nat, length: nat) returns (n: nat)
      requires Valid()
      modifies this`wi, buf
      ensures n == if 0 < distance <= |old(Written())| then Least(length, old(Room())) else 0
      ensures Valid() && wi == old(wi) + n
      ensures n == 0 ==> buf[..] == old(buf[..])
      ensures n > 0 ==> buf[..] == Stored(old(buf[..]), old(wi), distance, n)
      ensures Room() == old(Room()) - n
      ensures Written() == if n > 0 then Copied(old(Written()), distance, n) else old(Written())
    {
      n := 0;
      if distance == 0 {
        return;
      }
      if wi - mark < distance {
        return;
      }
      n := if length > end - wi then end - wi else length;
      StoredIsCopied(buf[..], mark, wi, distance, n);
      CopyBack(distance, n);
    }

    /** The bounds-check-optimized form: under the four conditions its caller must meet it does
        the same to memory and pointer, and returns the same number. */
    method CopyFromHistory32Bco(distance: nat, length: nat) returns (n: nat)
      requires Valid() && 0 < distance <= |Written()| && length <= Room()
      modifies this`wi, buf
      ensures n == Least(length, old(Room())) == length
      ensures Valid() && wi == old(wi) + n
      ensures buf[..] == Stored(old(buf[..]), old(wi), distance, n)
      ensures Room() == old(Room()) - n
      ensures Written() == Copied(old(Written()), distance, n)
    {
      StoredIsCopied(buf[..], mark, wi, distance, length);
      CopyBack(distance, length);
      n := length;
    }

    /** `*ptr++ = *start++`. */
    method CopyByte(start: nat, ghost mem: seq<Byte>, ghost ptr: nat, ghost distance: nat, ghost k: nat) returns (start': nat)
      requires 0 < distance <= ptr && ptr + k < |mem| == buf.Length
      requires wi == ptr + k && start == wi - distance && buf[..] == Stored(mem, ptr, distance, k)
      modifies this`wi, buf
      ensures wi == ptr + k + 1 && start' == wi - distance && buf[..] == Stored(mem, ptr, distance, k + 1)
    {
      buf[wi] := buf[start];
      wi, start' := wi + 1, start + 1;
    }

    /** The copying loops of both forms, unrolled by three. */
    method CopyBack(distance: nat, length: nat)
      requires Valid() && 0 < distance <= wi && length <= Room()
      modifies this`wi, buf
      ensures wi == old(wi) + length
      ensures buf[..] == Stored(old(buf[..]), old(wi), distance, length)
    {
      hide Stored;
      var start, n: nat := wi - distance, length;
      ghost var mem, ptr := buf[..], wi;
      assert buf[..] == Stored(mem, ptr, distance, 0) by { NoneStored(mem, ptr, distance); }
      while n >= 3
        invariant wi == ptr + length - n && start == wi - distance && n <= length
        invariant buf[..] == Stored(mem, ptr, distance, length - n)
      {
        start := CopyByte(start, mem, ptr, distance, length - n);
        start := CopyByte(start, mem, ptr, distance, length - n + 1);
        start := CopyByte(start, mem, ptr, distance, length - n + 2);
        n := n - 3;
      }
      while n > 0
        invariant wi == ptr + length - n && start == wi - distance && n <= length
        invariant buf[..] == Stored(mem, ptr, distance, length - n)
      {
        start := CopyByte(start, mem, ptr, distance, length - n);
        n := n - 1;
      }
    }
  }

  lemma NoneStored(mem: seq<Byte>, ptr: nat, distance: nat)
    requires 0 < distance <= ptr <= |mem|
    ensures Stored(mem, ptr, distance, 0) == mem
  {
  }

  function Least(a: nat, b: nat): nat { if a <= b then a else b }
}
