/** The second half of init_huff (gen/c/std/deflate.c): building the two-level lookup table.

    Codes of at most nine bits live in the root table. Longer codes share, for each value of
    their first nine bits (the redirect key), one sub-table sized for the longest of them. */
module HuffTable {
  import opened Options
  import opened Bits
  import opened Codes
  import opened HuffSort
  import opened HuffKeys
  import opened HuffSize
  import opened Entries

  const TABLE_SIZE := 1234

  // ---------------- Claims: what the table promises

  /** In the 2^n slots from top on, those whose index reads as c in its first l bits hold v. */
  datatype Claim = Claim(top: nat, n: nat, c: nat, l: nat, v: nat)

  predicate Concerns(q: Claim, x: nat)
  {
    q.top <= x < q.top + Pow2(q.n) && ReadMsb(x - q.top, q.l) == q.c
  }

  ghost predicate Holds(huffs: seq<nat>, q: Claim)
  {
    q.top + Pow2(q.n) <= |huffs| && forall x: nat {:trigger Concerns(q, x)} | Concerns(q, x) :: huffs[x] == q.v
  }

  /** new is old with the slots of w overwritten. */
  ghost predicate Wrote(old_: seq<nat>, new_: seq<nat>, w: Claim)
  {
    && |new_| == |old_| && w.top + Pow2(w.n) <= |old_|
    && forall x: nat | x < |old_| :: new_[x] == if Concerns(w, x) then w.v else old_[x]
  }

  /** No slot concerns both: the ranges are disjoint, or it is one range and q.c is no prefix of w.c. */
  predicate Apart(w: Claim, q: Claim)
  {
    || w.top + Pow2(w.n) <= q.top
    || q.top + Pow2(q.n) <= w.top
    || (w.top == q.top && q.l <= w.l && Shr(w.c, w.l - q.l) != q.c)
  }

  lemma ApartConcerns(w: Claim, q: Claim, x: nat)
    requires Apart(w, q) && Concerns(q, x)
    ensures !Concerns(w, x)
  {
    if w.top == q.top && q.l <= w.l {
      ReadMsbPrefix(x - q.top, q.l, w.l);
    }
  }

  /** A write keeps every claim it is apart from, and makes its own. */
  lemma WroteKeeps(old_: seq<nat>, new_: seq<nat>, w: Claim, q: Claim)
    requires Wrote(old_, new_, w) && Holds(old_, q) && Apart(w, q)
    ensures Holds(new_, q)
  {
    forall x: nat | Concerns(q, x) ensures new_[x] == q.v { ApartConcerns(w, q, x); }
  }

  // ---------------- What is claimed for a symbol

  /** The parameters of one call of init_huff, and the entry that a symbol gets for a given
      number of bits left to consume. */
  datatype Call = Call(lens: seq<nat>, which: nat, baseSymbol: nat, entry: (nat, nat) -> Option<nat>)

  ghost predicate EntriesOf(call: Call)
  {
    forall s: nat, cl: nat {:trigger EntryValue(call.which, call.baseSymbol, s, cl)} ::
      call.entry(s, cl) == EntryValue(call.which, call.baseSymbol, s, cl)
  }

  /** An entry tells how many bits it accounts for, and is not a redirect. */
  lemma EntryFields(call: Call, s: nat, cl: nat)
    requires EntriesOf(call) && cl < 16 && call.entry(s, cl).Some?
    ensures EntryBits(Value(call, s, cl)) == cl && EntryKind(Value(call, s, cl)) != 1
  {
    ValueBits(call.which, call.baseSymbol, s, cl);
  }

  method EntryFor(call: Call, s: nat, cl: nat) returns (v: Option<nat>)
    requires EntriesOf(call) && cl < 16
    ensures v == call.entry(s, cl)
  {
    v := MakeEntry(call.which, call.baseSymbol, s, cl);
  }

  /** The sub-tables made so far, by redirect key. */
  type Blocks = map<nat, Block>

  function Value(call: Call, s: nat, cl: nat): nat
  {
    match call.entry(s, cl)
    case Some(v) => v
    case None => 0
  }

  function DirectClaim(call: Call, nb: nat, s: nat): Claim
    requires s < |call.lens|
  {
    Claim(0, nb, Code(call.lens, s), call.lens[s], Value(call, s, call.lens[s]))
  }

  function RedirectClaim(key: nat, b: Block): Claim
  {
    Claim(0, ROOT_BITS, key, ROOT_BITS, RedirectValue(b))
  }

  function SubClaim(call: Call, b: Block, s: nat): Claim
    requires Long(call.lens, s)
  {
    var cl := call.lens[s] - ROOT_BITS;
    Claim(b.top, b.bits, Low(Code(call.lens, s), cl), cl, Value(call, s, cl))
  }

  ghost predicate Served(huffs: seq<nat>, call: Call, nb: nat, blocks: Blocks, s: nat)
    requires Coded(call.lens, s)
  {
    if call.lens[s] <= ROOT_BITS then
      call.lens[s] <= nb && Holds(huffs, DirectClaim(call, nb, s))
    else
      && nb == ROOT_BITS && Key(call.lens, s) in blocks
      && var b := blocks[Key(call.lens, s)];
      && Holds(huffs, RedirectClaim(Key(call.lens, s), b))
      && call.lens[s] - ROOT_BITS <= b.bits
      && Holds(huffs, SubClaim(call, b, s))
  }

  predicate Disjoint(b: Block, c: Block)
  {
    b.top + Pow2(b.bits) <= c.top || c.top + Pow2(c.bits) <= b.top
  }

  /** Sub-tables lie above the root table, do not overlap, and are wide enough for their codes. */
  ghost predicate BlocksOk(blocks: Blocks, lens: seq<nat>, nextTop: nat)
  {
    && 512 <= nextTop <= TABLE_SIZE
    && (forall k | k in blocks :: 512 <= blocks[k].top && blocks[k].top + Pow2(blocks[k].bits) <= nextTop && 1 <= blocks[k].bits <= 6)
    && (forall k, j | k in blocks && j in blocks && k != j :: Disjoint(blocks[k], blocks[j]))
    && (forall s: nat | Long(lens, s) && Key(lens, s) in blocks :: lens[s] - ROOT_BITS <= blocks[Key(lens, s)].bits)
  }

  ghost predicate AllServed(huffs: seq<nat>, call: Call, nb: nat, blocks: Blocks, i: nat)
  {
    forall s: nat {:trigger Served(huffs, call, nb, blocks, s)}
      | Coded(call.lens, s) && Rank(call.lens, s) < i :: Served(huffs, call, nb, blocks, s)
  }

  // ---------------- Looking up

  /** The entry found for the stream x, and how many bits it takes in all; None for an index out of bounds. */
  function Lookup(huffs: seq<nat>, nb: nat, x: nat): Option<(nat, nat)>
  {
    var i := Low(x, nb);
    if i >= |huffs| then None
    else if EntryKind(huffs[i]) != 1 then Some((huffs[i], EntryBits(huffs[i])))
    else
      var j := RedirTop(huffs[i]) + Low(Shr(x, EntryBits(huffs[i])), RedirBits(huffs[i]));
      if j >= |huffs| then None
      else Some((huffs[j], EntryBits(huffs[i]) + EntryBits(huffs[j])))
  }

  /** How many bits of the code the entry itself accounts for: all of them, or those after the redirect. */
  function LastBits(lens: seq<nat>, s: nat): nat
    requires s < |lens|
  {
    if lens[s] <= ROOT_BITS then lens[s] else lens[s] - ROOT_BITS
  }

  /** The entry exists: init_huff reports an internal error otherwise. */
  predicate HasValue(call: Call, s: nat)
    requires s < |call.lens|
  {
    call.entry(s, LastBits(call.lens, s)).Some?
  }

  /** The two look-ups for a stream that starts with the code of s: a short code is found at once, a
      long one after a redirect that accounts for the first nine bits. */
  ghost predicate Finds(huffs: seq<nat>, nb: nat, call: Call, x: nat, s: nat)
    requires s < |call.lens|
  {
    && Low(x, nb) < |huffs|
    && var e := huffs[Low(x, nb)];
       if call.lens[s] <= ROOT_BITS then
         e == Value(call, s, call.lens[s])
       else
         && nb == ROOT_BITS && EntryKind(e) == 1 && EntryBits(e) == ROOT_BITS
         && var j := RedirTop(e) + Low(Shr(x, ROOT_BITS), RedirBits(e));
            j < |huffs| && huffs[j] == Value(call, s, call.lens[s] - ROOT_BITS)
  }

  /** The whole promise of a table: every stream finds the entry of the one symbol whose code it
      starts with, and consumes exactly that code. */
  ghost predicate Decodes(huffs: seq<nat>, nb: nat, call: Call)
  {
    && Complete(call.lens) && 1 <= nb <= ROOT_BITS
    && (forall s: nat | Coded(call.lens, s) :: HasValue(call, s))
    && (forall x: nat, s: nat | Matches(call.lens, s, x) ::
          && Finds(huffs, nb, call, x, s)
          && Lookup(huffs, nb, x) == Some((Value(call, s, LastBits(call.lens, s)), call.lens[s])))
  }

  // ---------------- Writing entries

  /** Which slot the fill loop writes for the m-th multiple of 2^cl. */
  lemma FillSlot(w: Claim, m: nat, rev: nat)
    requires w.l <= w.n && w.c < Pow2(w.l) && rev == ReadMsb(w.c, w.l)
    requires m < Pow2(w.n - w.l)
    ensures rev < Pow2(w.l)
    ensures Shl(m, w.l) + rev < Pow2(w.n)
    ensures Concerns(w, w.top + Shl(m, w.l) + rev)
    ensures forall x: nat | Concerns(w, x) && Shr(x - w.top, w.l) == m :: x == w.top + Shl(m, w.l) + rev
    ensures Shr(Shl(m, w.l) + rev, w.l) == m
  {
    var l := w.l;
    ReadMsbBound(w.c, l);
    var j := Shl(m, l) + rev;
    ShrBetween(j, m, l);
    ShrLow(j, l);
    ShlMono(m, Pow2(w.n - l), l);
    ShlOne(w.n - l);
    ShlShl(1, w.n - l, l);
    ShlOne(w.n);
    assert Low(j, l) == rev;
    ReadMsbTwice(w.c, l);
    LowSmall(w.c, l);
    ReadMsbLow(j, l, l);
    forall x: nat | Concerns(w, x) && Shr(x - w.top, l) == m ensures x == w.top + j {
      ReadMsbInjective(x - w.top, j, l);
      ShrLow(x - w.top, l);
    }
  }

  lemma FillCount(w: Claim, x: nat)
    requires w.l <= w.n && Concerns(w, x)
    ensures Shr(x - w.top, w.l) < Pow2(w.n - w.l)
  {
    var d := x - w.top;
    ShrBetween(d, Shr(d, w.l), w.l);
    if Pow2(w.n - w.l) <= Shr(d, w.l) {
      ShlMono(Pow2(w.n - w.l), Shr(d, w.l), w.l);
      ShlOne(w.n - w.l);
      ShlShl(1, w.n - w.l, w.l);
      ShlOne(w.n);
    }
  }

  /** `(highBits | reversedKey) & 511` is their sum. */
  method Slot(highBits: nat, reversedKey: nat, ghost m: nat, ghost l: nat) returns (slot: nat)
    requires highBits == Shl(m, l) && reversedKey < Pow2(l) && highBits + reversedKey < 512
    ensures slot == highBits + reversedKey
  {
    hide And, Or;
    slot := AndNat(OrNat(highBits, reversedKey), 511);
    ShlIsMul(m, l);
    assert Or(highBits, reversedKey) == highBits + reversedKey by {
      OrCommutes(highBits, reversedKey);
      OrDisjoint(reversedKey, m, l);
    }
    Pow2Values();
    MaskNoop(highBits + reversedKey, 9);
  }

  /** The fill loop half way: only the multiples from m on are done. */
  ghost predicate PartlyWrote(old_: seq<nat>, new_: seq<nat>, w: Claim, m: nat)
  {
    && |new_| == |old_| && w.top + Pow2(w.n) <= |old_|
    && forall x: nat | x < |old_| ::
         new_[x] == if Concerns(w, x) && Shr(x - w.top, w.l) >= m then w.v else old_[x]
  }

  lemma FillStart(s: seq<nat>, w: Claim)
    requires w.l <= w.n && w.top + Pow2(w.n) <= |s|
    ensures PartlyWrote(s, s, w, Pow2(w.n - w.l))
    ensures Shl(Pow2(w.n - w.l), w.l) == Pow2(w.n)
  {
    ShlOne(w.n - w.l);
    ShlShl(1, w.n - w.l, w.l);
    ShlOne(w.n);
    forall x: nat | Concerns(w, x) ensures Shr(x - w.top, w.l) < Pow2(w.n - w.l) { FillCount(w, x); }
  }

  lemma FillStep(old_: seq<nat>, new_: seq<nat>, w: Claim, m: nat, rev: nat)
    requires PartlyWrote(old_, new_, w, m + 1)
    requires w.l <= w.n <= ROOT_BITS && w.c < Pow2(w.l) && rev == ReadMsb(w.c, w.l) && m < Pow2(w.n - w.l)
    ensures rev < Pow2(w.l) && Shl(m, w.l) + rev < 512
    ensures w.top + Shl(m, w.l) + rev < |old_|
    ensures PartlyWrote(old_, new_[w.top + Shl(m, w.l) + rev := w.v], w, m)
  {
    hide ReadMsb, Shr, Shl;
    FillSlot(w, m, rev);
    assert Pow2(w.n) <= 512 by { Pow2Mono(w.n, 9); Pow2Values(); }
  }

  lemma HighBitsStep(m: nat, cl: nat)
    ensures Shl(m, cl) >= Pow2(cl) <==> m > 0
    ensures m > 0 ==> Shl(m, cl) - Pow2(cl) == Shl(m - 1, cl)
  {
    if m > 0 {
      ShlAdd(m - 1, 1, cl);
      ShlOne(cl);
    } else {
      ShlAdd(0, 0, cl);
    }
  }

  /** The innermost loop of init_huff: every slot of the table at top that starts with the code gets the value. */
  method FillEntries(huffs: array<nat>, top: nat, initialHighBits: nat, cl: nat, reversedKey: nat, value: nat, ghost w: Claim)
    returns (status: Status)
    requires huffs.Length == TABLE_SIZE
    requires w.top == top && w.l == cl && w.v == value && initialHighBits == Pow2(w.n)
    requires cl <= w.n <= ROOT_BITS && top + Pow2(w.n) <= TABLE_SIZE
    requires w.c < Pow2(cl) && reversedKey == ReadMsb(w.c, cl)
    modifies huffs
    ensures status == Ok
    ensures Wrote(old(huffs[..]), huffs[..], w)
  {
    status := Ok;
    ghost var before := huffs[..];
    var highBits := initialHighBits;
    var delta := Pow2(cl);
    ghost var m: nat := Pow2(w.n - cl);
    FillStart(before, w);
    while highBits >= delta
      invariant highBits == Shl(m, cl) && m <= Pow2(w.n - cl)
      invariant PartlyWrote(before, huffs[..], w, m)
      decreases highBits
    {
      HighBitsStep(m, cl);
      m := m - 1;
      highBits := highBits - delta;
      FillStep(before, huffs[..], w, m, reversedKey);
      var slot := Slot(highBits, reversedKey, m, cl);
      slot := top + slot;
      if slot >= TABLE_SIZE {
        status := InconsistentDecoderState;
        return;
      }
      ghost var was := huffs[..];
      huffs[slot] := value;
      assert huffs[..] == was[slot := value];
    }
    HighBitsStep(m, cl);
  }

  // ---------------- Keeping earlier claims

  lemma DirectWriteKeeps(before: seq<nat>, after: seq<nat>, call: Call, nb: nat, blocks: Blocks, t: nat)
    requires Lengths(call.lens) && Coded(call.lens, t) && call.lens[t] <= ROOT_BITS && call.lens[t] <= nb
    requires AllServed(before, call, nb, blocks, Rank(call.lens, t))
    requires Wrote(before, after, DirectClaim(call, nb, t))
    ensures AllServed(after, call, nb, blocks, Rank(call.lens, t) + 1)
  {
    var lens := call.lens;
    forall s: nat | Coded(lens, s) && Rank(lens, s) <= Rank(lens, t)
      ensures Served(after, call, nb, blocks, s)
    {
      if Rank(lens, s) < Rank(lens, t) {
        NotAPrefix(lens, s, t);
        assert Served(before, call, nb, blocks, s);
        WroteKeeps(before, after, DirectClaim(call, nb, t), DirectClaim(call, nb, s));
      } else {
        SameRank(lens, s, t);
      }
    }
  }

  lemma SameRank(lens: seq<nat>, s: nat, t: nat)
    requires Lengths(lens) && Coded(lens, s) && Coded(lens, t) && Rank(lens, s) == Rank(lens, t)
    ensures s == t
  {
    if s != t {
      if Before(lens, s, t) { RankOrder(lens, s, t); } else { RankOrder(lens, t, s); }
    }
  }

  lemma RedirectWriteKeepsOne(before: seq<nat>, after: seq<nat>, call: Call, blocks: Blocks, t: nat, b: Block, nextTop: nat, s: nat)
    requires Lengths(call.lens) && Long(call.lens, t) && Key(call.lens, t) !in blocks
    requires BlocksOk(blocks, call.lens, nextTop)
    requires Wrote(before, after, RedirectClaim(Key(call.lens, t), b))
    requires Coded(call.lens, s) && Rank(call.lens, s) < Rank(call.lens, t)
    requires Served(before, call, ROOT_BITS, blocks, s)
    ensures Served(after, call, ROOT_BITS, blocks[Key(call.lens, t) := b], s)
  {
    var lens, key := call.lens, Key(call.lens, t);
    var w := RedirectClaim(key, b);
    Pow2Values();
    NotAPrefix(lens, s, t);
    if lens[s] <= ROOT_BITS {
      ShrShr(Code(lens, t), lens[t] - ROOT_BITS, ROOT_BITS - lens[s]);
      WroteKeeps(before, after, w, DirectClaim(call, ROOT_BITS, s));
    } else {
      var c := blocks[Key(lens, s)];
      WroteKeeps(before, after, w, RedirectClaim(Key(lens, s), c));
      WroteKeeps(before, after, w, SubClaim(call, c, s));
    }
  }

  lemma RedirectWriteKeeps(before: seq<nat>, after: seq<nat>, call: Call, blocks: Blocks, t: nat, b: Block, nextTop: nat)
    requires Lengths(call.lens) && Long(call.lens, t) && Key(call.lens, t) !in blocks
    requires BlocksOk(blocks, call.lens, nextTop)
    requires AllServed(before, call, ROOT_BITS, blocks, Rank(call.lens, t))
    requires Wrote(before, after, RedirectClaim(Key(call.lens, t), b))
    ensures AllServed(after, call, ROOT_BITS, blocks[Key(call.lens, t) := b], Rank(call.lens, t))
  {
    forall s: nat | Coded(call.lens, s) && Rank(call.lens, s) < Rank(call.lens, t)
      ensures Served(after, call, ROOT_BITS, blocks[Key(call.lens, t) := b], s)
    {
      assert Served(before, call, ROOT_BITS, blocks, s);
      RedirectWriteKeepsOne(before, after, call, blocks, t, b, nextTop, s);
    }
  }

  /** Two long codes with one key differ in prefix exactly as their remainders do. */
  lemma RemainderPrefix(lens: seq<nat>, s: nat, t: nat)
    requires Lengths(lens) && Long(lens, s) && Long(lens, t) && Rank(lens, s) < Rank(lens, t)
    requires Key(lens, s) == Key(lens, t)
    ensures lens[s] <= lens[t]
    ensures Shr(Low(Code(lens, t), lens[t] - ROOT_BITS), lens[t] - lens[s]) != Low(Code(lens, s), lens[s] - ROOT_BITS)
  {
    hide Rank, Code, Shr, Low, Shl;
    NotAPrefix(lens, s, t);
    var k, a, d := Key(lens, t), lens[s] - ROOT_BITS, lens[t] - lens[s];
    ShrLow(Code(lens, s), a);
    ShrLow(Code(lens, t), a + d);
    ShrOfSum(k, a, d, Low(Code(lens, t), a + d));
  }

  lemma {:induction false} ShrOfSum(k: nat, a: nat, d: nat, y: nat)
    ensures Shr(Shl(k, a + d) + y, d) == Shl(k, a) + Shr(y, d)
    decreases d
  {
    if d > 0 {
      assert Shl(k, a + d) == 2 * Shl(k, a + d - 1);
      assert (Shl(k, a + d) + y) / 2 == Shl(k, a + d - 1) + y / 2;
      ShrOfSum(k, a, d - 1, y / 2);
    }
  }

  lemma SubWriteKeepsOne(before: seq<nat>, after: seq<nat>, call: Call, blocks: Blocks, t: nat, nextTop: nat, s: nat)
    requires Lengths(call.lens) && Long(call.lens, t) && Key(call.lens, t) in blocks
    requires BlocksOk(blocks, call.lens, nextTop)
    requires Wrote(before, after, SubClaim(call, blocks[Key(call.lens, t)], t))
    requires Coded(call.lens, s) && Rank(call.lens, s) < Rank(call.lens, t)
    requires Served(before, call, ROOT_BITS, blocks, s)
    ensures Served(after, call, ROOT_BITS, blocks, s)
  {
    var lens := call.lens;
    var w := SubClaim(call, blocks[Key(lens, t)], t);
    if lens[s] <= ROOT_BITS {
      AboveRoot(w, DirectClaim(call, ROOT_BITS, s));
      WroteKeeps(before, after, w, DirectClaim(call, ROOT_BITS, s));
    } else {
      var c := blocks[Key(lens, s)];
      AboveRoot(w, RedirectClaim(Key(lens, s), c));
      WroteKeeps(before, after, w, RedirectClaim(Key(lens, s), c));
      SubTablesApart(call, blocks, t, nextTop, s);
      WroteKeeps(before, after, w, SubClaim(call, c, s));
    }
  }

  lemma AboveRoot(w: Claim, q: Claim)
    requires 512 <= w.top && q.top == 0 && q.n <= ROOT_BITS
    ensures Apart(w, q)
  {
    Pow2Mono(q.n, ROOT_BITS);
    Pow2Values();
  }

  lemma SubTablesApart(call: Call, blocks: Blocks, t: nat, nextTop: nat, s: nat)
    requires Lengths(call.lens) && Long(call.lens, t) && Long(call.lens, s) && Rank(call.lens, s) < Rank(call.lens, t)
    requires Key(call.lens, t) in blocks && Key(call.lens, s) in blocks
    requires BlocksOk(blocks, call.lens, nextTop)
    ensures Apart(SubClaim(call, blocks[Key(call.lens, t)], t), SubClaim(call, blocks[Key(call.lens, s)], s))
  {
    hide Rank, Code, Shr, Low;
    var j, k := Key(call.lens, t), Key(call.lens, s);
    if j == k {
      RemainderPrefix(call.lens, s, t);
    } else {
      assert Disjoint(blocks[j], blocks[k]);
    }
  }

  lemma SubWriteKeeps(before: seq<nat>, after: seq<nat>, call: Call, blocks: Blocks, t: nat, nextTop: nat)
    requires Lengths(call.lens) && Long(call.lens, t) && Key(call.lens, t) in blocks
    requires BlocksOk(blocks, call.lens, nextTop)
    requires AllServed(before, call, ROOT_BITS, blocks, Rank(call.lens, t))
    requires Holds(before, RedirectClaim(Key(call.lens, t), blocks[Key(call.lens, t)]))
    requires Wrote(before, after, SubClaim(call, blocks[Key(call.lens, t)], t))
    ensures AllServed(after, call, ROOT_BITS, blocks, Rank(call.lens, t) + 1)
  {
    var lens := call.lens;
    Pow2Values();
    forall s: nat | Coded(lens, s) && Rank(lens, s) <= Rank(lens, t)
      ensures Served(after, call, ROOT_BITS, blocks, s)
    {
      if Rank(lens, s) == Rank(lens, t) {
        SameRank(lens, s, t);
        var b := blocks[Key(lens, t)];
        WroteKeeps(before, after, SubClaim(call, b, t), RedirectClaim(Key(lens, t), b));
      } else {
        assert Served(before, call, ROOT_BITS, blocks, s);
        SubWriteKeepsOne(before, after, call, blocks, t, nextTop, s);
      }
    }
  }

  // ---------------- Sizing a sub-table

  /** The counts array just before t is placed: what is left of each length. */
  ghost predicate CountsFrom(counts: seq<nat>, lens: seq<nat>, t: nat)
    requires Coded(lens, t)
  {
    |counts| == MAX_LENGTH + 1 &&
    forall l | 1 <= l <= MAX_LENGTH ::
      counts[l] == if l < lens[t] then 0
                   else if l == lens[t] then Count(lens, l) - Count(lens[..t], l)
                   else Count(lens, l)
  }

  /** Where, in code space, the codes of length l from t on start. */
  function From(lens: seq<nat>, t: nat, l: nat): nat
    requires Lengths(lens) && Coded(lens, t) && lens[t] <= l <= MAX_LENGTH + 1
  {
    if l == lens[t] then Start(lens, t) else Area(lens, l)
  }

  lemma BandFrom(lens: seq<nat>, t: nat, l: nat, counts: seq<nat>)
    requires Lengths(lens) && Coded(lens, t) && lens[t] <= l <= MAX_LENGTH && CountsFrom(counts, lens, t)
    ensures From(lens, t, l) + Shl(counts[l], MAX_LENGTH - l) == Area(lens, l + 1)
  {
    if l == lens[t] {
      CountBefore(lens, t);
      ShlAdd(Count(lens, l) - Count(lens[..t], l), Count(lens[..t], l), MAX_LENGTH - l);
    }
  }

  lemma KeyBound(lens: seq<nat>, t: nat)
    requires Complete(lens) && Long(lens, t)
    ensures Key(lens, t) < 512
    ensures Code(lens, t) < Pow2(MAX_LENGTH)
    ensures Shl(Key(lens, t) + 1, 6) <= Area(lens, MAX_LENGTH + 1)
  {
    KraftIsArea(lens);
    StartInBand(lens, t);
    AreaMono(lens, lens[t] + 1, MAX_LENGTH + 1);
    KeyOfStart(lens, t);
    ShlOne(9);
    ShlShl(1, 9, 6);
    ShlOne(15);
    ShlMono(Key(lens, t) + 1, Pow2(9), 6);
    Pow2Values();
    CodeStart(lens, t);
    ShlGrows(Code(lens, t), MAX_LENGTH - lens[t]);
  }

  /** remaining codes of length j would fill the rest of the block of t. */
  ghost predicate Sizing(lens: seq<nat>, t: nat, j: nat, remaining: nat)
  {
    && Complete(lens) && Long(lens, t) && lens[t] <= j <= MAX_LENGTH && 0 < remaining
    && Shl(remaining, MAX_LENGTH - j) + From(lens, t, j) == Shl(Key(lens, t) + 1, 6)
  }

  /** The sizing loop: j is the length of the longest code with this key. */
  method SubTableLength(counts: seq<nat>, cl: nat, ghost lens: seq<nat>, ghost t: nat) returns (j: nat, status: Status)
    requires Complete(lens) && Long(lens, t) && cl == lens[t] && CountsFrom(counts, lens, t)
    requires Start(lens, t) == Shl(Key(lens, t), 6)
    ensures status == Ok
    ensures ROOT_BITS < j <= MAX_LENGTH
    ensures forall s: nat | Long(lens, s) && Key(lens, s) == Key(lens, t) :: lens[s] <= j
    ensures SlotsFor(lens, Key(lens, t)) == Pow2(j - ROOT_BITS)
  {
    status := Ok;
    var remaining: nat := Pow2(cl - ROOT_BITS);
    j := cl;
    SizingStart(lens, t);
    hide Sizing, Key, Area, SlotsFor;
    ghost var last := t;
    while j <= MAX_LENGTH
      invariant cl <= j <= MAX_LENGTH
      invariant Sizing(lens, t, j, remaining)
    {
      SizingStep(lens, t, j, remaining, counts);
      if remaining <= counts[j] {
        last := BlockReaches(lens, t, j, remaining, counts);
        break;
      }
      remaining := remaining - counts[j];
      if remaining > 1073741824 {
        status := InconsistentDecoderState;
        return;
      }
      remaining := remaining * 2;
      j := j + 1;
    }
    if j <= ROOT_BITS || MAX_LENGTH < j {
      status := InconsistentDecoderState;
      return;
    }
    forall s: nat | Long(lens, s) && Key(lens, s) == Key(lens, t)
      ensures lens[s] <= j
    {
      if lens[s] > j { BeyondBlock(lens, s, t, j); }
    }
    SlotsOfKey(lens, last, j);
  }

  /** When the loop stops, some code with this key has length j. */
  lemma BlockReaches(lens: seq<nat>, t: nat, j: nat, remaining: nat, counts: seq<nat>) returns (s: nat)
    requires Sizing(lens, t, j, remaining) && CountsFrom(counts, lens, t) && remaining <= counts[j]
    requires Start(lens, t) == Shl(Key(lens, t), 6)
    ensures Long(lens, s) && Key(lens, s) == Key(lens, t) && lens[s] == j
  {
    hide Area, Key, Start, Count, Code, Shl, Shr;
    if j == lens[t] {
      s := t;
    } else {
      s := NthOfLength(lens, j, 0);
      FirstOfLength(lens, s);
      StartInBand(lens, t);
      AreaMono(lens, lens[t] + 1, j);
      ShlGrows(remaining, MAX_LENGTH - j);
      KeyOfStart(lens, s);
      ShrBetween(Start(lens, s), Key(lens, t), 6);
      ShlAdd(Key(lens, t), 1, 6);
      ShlOne(6);
    }
  }

  lemma FirstOfLength(lens: seq<nat>, s: nat)
    requires Lengths(lens) && Coded(lens, s) && Count(lens[..s], lens[s]) == 0
    ensures Start(lens, s) == Area(lens, lens[s])
  {
    ShlAdd(0, 0, MAX_LENGTH - lens[s]);
  }

  lemma SizingStart(lens: seq<nat>, t: nat)
    requires Complete(lens) && Long(lens, t) && Start(lens, t) == Shl(Key(lens, t), 6)
    ensures Sizing(lens, t, lens[t], Pow2(lens[t] - ROOT_BITS))
  {
    hide Key, Start;
    ShlOne(lens[t] - ROOT_BITS);
    ShlShl(1, lens[t] - ROOT_BITS, MAX_LENGTH - lens[t]);
    ShlAdd(Key(lens, t), 1, 6);
  }

  lemma SizingStep(lens: seq<nat>, t: nat, j: nat, remaining: nat, counts: seq<nat>)
    requires Sizing(lens, t, j, remaining) && CountsFrom(counts, lens, t)
    ensures remaining <= counts[j] ==> Area(lens, j + 1) >= Shl(Key(lens, t) + 1, 6)
    ensures remaining > counts[j] ==>
              && j < MAX_LENGTH && remaining - counts[j] <= 32768
              && Sizing(lens, t, j + 1, 2 * (remaining - counts[j]))
  {
    hide Key, Area, Start, Count;
    BandFrom(lens, t, j, counts);
    if remaining <= counts[j] {
      ShlMono(remaining, counts[j], MAX_LENGTH - j);
    } else {
      var r := remaining - counts[j];
      ShlAdd(r, counts[j], MAX_LENGTH - j);
      SizingBound(lens, t, j, r);
      ShlAdd(r, r, MAX_LENGTH - (j + 1));
    }
  }

  lemma SizingBound(lens: seq<nat>, t: nat, j: nat, remaining: nat)
    requires Complete(lens) && Long(lens, t) && lens[t] <= j <= MAX_LENGTH && 0 < remaining
    requires Shl(remaining, MAX_LENGTH - j) + Area(lens, j + 1) == Shl(Key(lens, t) + 1, 6)
    ensures j < MAX_LENGTH && remaining <= 32768
  {
    KeyBound(lens, t);
    KraftIsArea(lens);
    ShlGrows(remaining, MAX_LENGTH - j);
    Pow2Large();
  }

  lemma BeyondBlock(lens: seq<nat>, s: nat, t: nat, j: nat)
    requires Lengths(lens) && Long(lens, s) && Long(lens, t) && j < lens[s]
    requires Area(lens, j + 1) >= Shl(Key(lens, t) + 1, 6)
    ensures Key(lens, s) != Key(lens, t)
  {
    StartInBand(lens, s);
    AreaMono(lens, j + 1, lens[s]);
    KeyOfStart(lens, s);
    ShlAdd(Key(lens, t), 1, 6);
    ShlOne(6);
  }

  // ---------------- Placing one symbol

  /** The loop's variables that concern sub-tables. */
  datatype Cursor = Cursor(top: nat, nextTop: nat, initialHighBits: nat, prevRedirectKey: nat)

  const NO_KEY := 0xFFFF_FFFF

  /** Before the symbol of rank i is placed: the cursor is at the root table until a long code has been placed,
      and at the sub-table of the latest key from then on. */
  ghost predicate CursorOk(cur: Cursor, blocks: Blocks, lens: seq<nat>, nb: nat, symbols: seq<nat>, i: nat)
    requires Sorted(symbols, lens) && i <= NumCoded(lens)
  {
    if i == 0 || lens[symbols[i - 1]] <= ROOT_BITS then
      blocks == map[] && cur == Cursor(0, 512, Pow2(nb), NO_KEY)
    else
      && nb == ROOT_BITS
      && cur.prevRedirectKey == Key(lens, symbols[i - 1]) && cur.prevRedirectKey in blocks
      && cur.top == blocks[cur.prevRedirectKey].top
      && cur.initialHighBits == Pow2(blocks[cur.prevRedirectKey].bits)
      && cur.nextTop == Used(lens, cur.prevRedirectKey + 1)
      && forall k | k in blocks :: k <= cur.prevRedirectKey
  }

  /** A new key starts exactly at its block of code space. */
  lemma BlockStart(lens: seq<nat>, symbols: seq<nat>, i: nat)
    requires Complete(lens) && Sorted(symbols, lens) && i < NumCoded(lens) && Long(lens, symbols[i])
    requires i > 0 && lens[symbols[i - 1]] > ROOT_BITS ==> Key(lens, symbols[i - 1]) != Key(lens, symbols[i])
    ensures Start(lens, symbols[i]) == Shl(Key(lens, symbols[i]), 6)
  {
    var t := symbols[i];
    if i == 0 {
      KeyOfStart(lens, t);
      FirstStartsAtZero(lens, t);
    } else {
      NextInOrder(lens, symbols[i - 1], t);
      if lens[symbols[i - 1]] > ROOT_BITS {
        KeysInOrder(lens, symbols[i - 1], t);
        AfterLong(lens, symbols[i - 1], t);
      } else {
        AfterShort(lens, symbols[i - 1], t);
      }
    }
  }

  lemma AfterLong(lens: seq<nat>, p: nat, t: nat)
    requires Lengths(lens) && Follows(lens, p, t) && Long(lens, p) && Long(lens, t) && Key(lens, p) < Key(lens, t)
    ensures Start(lens, t) == Shl(Key(lens, t), 6)
  {
    FollowsTouches(lens, p, t);
    KeyOfStart(lens, p);
    KeyOfStart(lens, t);
    ShlMono(Key(lens, p), Key(lens, t), 6);
  }

  lemma AfterShort(lens: seq<nat>, p: nat, t: nat)
    requires Lengths(lens) && Follows(lens, p, t) && lens[p] <= ROOT_BITS && Long(lens, t)
    ensures Start(lens, t) == Shl(Key(lens, t), 6)
  {
    hide Code, Start, Count, Key;
    FollowsTouches(lens, p, t);
    KeyOfStart(lens, t);
    CodeStart(lens, p);
    var c, l := Code(lens, p), lens[p];
    ShlAdd(c, 1, 15 - l);
    ShlOne(15 - l);
    ShlShl(c + 1, 9 - l, 6);
    ShrBetween(Start(lens, t), Shl(c + 1, 9 - l), 6);
  }

  /** The redirect branch of the main loop for a key not seen before. */
  method StartSubTable(huffs: array<nat>, counts: seq<nat>, cl: nat, redirectKey: nat, cur: Cursor,
                       ghost call: Call, ghost blocks: Blocks, ghost t: nat)
    returns (cur': Cursor, status: Status, ghost b: Block)
    requires huffs.Length == TABLE_SIZE
    requires Complete(call.lens) && Long(call.lens, t) && cl == call.lens[t] && redirectKey == Key(call.lens, t)
    requires CountsFrom(counts, call.lens, t) && Start(call.lens, t) == Shl(redirectKey, 6)
    requires redirectKey !in blocks && BlocksOk(blocks, call.lens, cur.nextTop)
    requires AllServed(huffs[..], call, ROOT_BITS, blocks, Rank(call.lens, t))
    modifies huffs
    ensures status == Ok || status == InconsistentDecoderState
    ensures status == Ok ==>
              && cur' == Cursor(b.top, cur'.nextTop, Pow2(b.bits), redirectKey)
              && BlocksOk(blocks[redirectKey := b], call.lens, cur'.nextTop)
              && AllServed(huffs[..], call, ROOT_BITS, blocks[redirectKey := b], Rank(call.lens, t))
              && Holds(huffs[..], RedirectClaim(redirectKey, b))
              && cur'.nextTop == cur.nextTop + SlotsFor(call.lens, redirectKey)
    ensures status != Ok ==> cur.nextTop + SlotsFor(call.lens, redirectKey) > TABLE_SIZE
  {
    hide SlotsFor;
    cur' := cur;
    var j;
    j, status := SubTableLength(counts, cl, call.lens, t);
    var tmp := j - ROOT_BITS;
    var top := cur.nextTop;
    b := Block(top, tmp);
    Pow2Mono(tmp, 6);
    Pow2Values();
    if top + Pow2(tmp) > TABLE_SIZE {
      status := InconsistentDecoderState;
      return;
    }
    cur' := Cursor(top, top + Pow2(tmp), Pow2(tmp), redirectKey);
    KeyBound(call.lens, t);
    var redirect := MakeRedirect(top, tmp);
    var slot := Reverse9(redirectKey);
    Reverse9Reverses(redirectKey);
    ghost var before := huffs[..];
    ReadMsbBound(redirectKey, 9);
    huffs[slot] := redirect;
    RedirectWrote(before, huffs[..], redirectKey, b);
    RedirectWriteKeeps(before, huffs[..], call, blocks, t, b, cur.nextTop);
    NewBlockOk(blocks, call.lens, cur.nextTop, redirectKey, b);
  }

  lemma RedirectWrote(before: seq<nat>, after: seq<nat>, key: nat, b: Block)
    requires |before| == TABLE_SIZE && key < 512 && ReadMsb(key, 9) < TABLE_SIZE
    requires after == before[ReadMsb(key, 9) := RedirectValue(b)]
    ensures Wrote(before, after, RedirectClaim(key, b))
  {
    var w := RedirectClaim(key, b);
    Pow2Values();
    ReadMsbBound(key, 9);
    ReadMsbTwice(key, 9);
    LowSmall(key, 9);
    forall x: nat | x < 512 ensures ReadMsb(x, 9) == key <==> x == ReadMsb(key, 9) {
      ReadMsbInjective(x, ReadMsb(key, 9), 9);
      LowSmall(x, 9);
      LowSmall(ReadMsb(key, 9), 9);
    }
  }

  lemma NewBlockOk(blocks: Blocks, lens: seq<nat>, nextTop: nat, key: nat, b: Block)
    requires BlocksOk(blocks, lens, nextTop) && key !in blocks
    requires b.top == nextTop && b.top + Pow2(b.bits) <= TABLE_SIZE && 1 <= b.bits <= 6
    requires forall s: nat | Long(lens, s) && Key(lens, s) == key :: lens[s] - ROOT_BITS <= b.bits
    ensures BlocksOk(blocks[key := b], lens, b.top + Pow2(b.bits))
  {
  }

  /** What is written for the symbol of rank i. */
  ghost function Written(call: Call, nb: nat, blocks: Blocks, s: nat): Claim
    requires Coded(call.lens, s)
    requires Long(call.lens, s) ==> Key(call.lens, s) in blocks
  {
    if call.lens[s] > ROOT_BITS then SubClaim(call, blocks[Key(call.lens, s)], s) else DirectClaim(call, nb, s)
  }

  ghost predicate Placing(huffs: seq<nat>, call: Call, symbols: seq<nat>, i: nat, nb: nat, cur: Cursor, blocks: Blocks)
  {
    && |huffs| == TABLE_SIZE && Complete(call.lens) && |call.lens| <= MAX_CODES
    && Sorted(symbols, call.lens) && i <= NumCoded(call.lens)
    && 1 <= nb <= ROOT_BITS
    && CursorOk(cur, blocks, call.lens, nb, symbols, i) && BlocksOk(blocks, call.lens, cur.nextTop)
    && AllServed(huffs, call, nb, blocks, i)
  }

  /** The table for the symbol of rank i is ready, and the cursor is at it. */
  ghost predicate Selected(huffs: seq<nat>, call: Call, symbols: seq<nat>, i: nat, nb: nat, cur: Cursor, blocks: Blocks)
  {
    && |huffs| == TABLE_SIZE && Complete(call.lens) && |call.lens| <= MAX_CODES
    && Sorted(symbols, call.lens) && i < NumCoded(call.lens)
    && 1 <= nb <= ROOT_BITS && (call.lens[symbols[i]] <= nb || nb == ROOT_BITS)
    && CursorOk(cur, blocks, call.lens, nb, symbols, i + 1) && BlocksOk(blocks, call.lens, cur.nextTop)
    && AllServed(huffs, call, nb, blocks, i)
    && (Long(call.lens, symbols[i]) ==>
          && Key(call.lens, symbols[i]) in blocks
          && Holds(huffs, RedirectClaim(Key(call.lens, symbols[i]), blocks[Key(call.lens, symbols[i])])))
  }

  lemma ShortSelected(huffs: seq<nat>, call: Call, symbols: seq<nat>, i: nat, nb: nat, cur: Cursor, blocks: Blocks)
    requires Placing(huffs, call, symbols, i, nb, cur, blocks) && i < NumCoded(call.lens)
    requires call.lens[symbols[i]] <= ROOT_BITS && (call.lens[symbols[i]] <= nb || nb == ROOT_BITS)
    ensures Selected(huffs, call, symbols, i, nb, cur, blocks)
  {
    if i > 0 { NotAPrefix(call.lens, symbols[i - 1], symbols[i]); }
  }

  lemma OldKeySelected(huffs: seq<nat>, call: Call, symbols: seq<nat>, i: nat, nb: nat, cur: Cursor, blocks: Blocks)
    requires Placing(huffs, call, symbols, i, nb, cur, blocks) && i < NumCoded(call.lens)
    requires Long(call.lens, symbols[i]) && cur.prevRedirectKey == Key(call.lens, symbols[i])
    ensures Selected(huffs, call, symbols, i, nb, cur, blocks)
  {
    KeyBound(call.lens, symbols[i]);
    assert i > 0 && Served(huffs, call, nb, blocks, symbols[i - 1]);
  }

  lemma NewKeySelected(huffs: seq<nat>, call: Call, symbols: seq<nat>, i: nat, cur: Cursor, blocks: Blocks, cur': Cursor, b: Block)
    requires |huffs| == TABLE_SIZE && Complete(call.lens) && |call.lens| <= MAX_CODES
    requires Sorted(symbols, call.lens) && i < NumCoded(call.lens) && Long(call.lens, symbols[i])
    requires CursorOk(cur, blocks, call.lens, ROOT_BITS, symbols, i)
    requires var key := Key(call.lens, symbols[i]);
             && cur' == Cursor(b.top, cur'.nextTop, Pow2(b.bits), key)
             && BlocksOk(blocks[key := b], call.lens, cur'.nextTop)
             && AllServed(huffs, call, ROOT_BITS, blocks[key := b], i)
             && Holds(huffs, RedirectClaim(key, b))
             && cur'.nextTop == Used(call.lens, key + 1)
    ensures Selected(huffs, call, symbols, i, ROOT_BITS, cur', blocks[Key(call.lens, symbols[i]) := b])
  {
    if i > 0 && call.lens[symbols[i - 1]] > ROOT_BITS { KeysInOrder(call.lens, symbols[i - 1], symbols[i]); }
  }

  /** The redirect branch of the main loop. */
  method SelectSubTable(huffs: array<nat>, ghost call: Call, ghost symbols: seq<nat>, ghost i: nat,
                        cl: nat, code: nat, counts: seq<nat>, cur: Cursor, ghost blocks: Blocks)
    returns (cur': Cursor, status: Status, ghost blocks': Blocks)
    requires huffs.Length == TABLE_SIZE && Placing(huffs[..], call, symbols, i, ROOT_BITS, cur, blocks)
    requires i < NumCoded(call.lens) && Long(call.lens, symbols[i])
    requires cl == call.lens[symbols[i]] && code == Code(call.lens, symbols[i])
    requires CountsFrom(counts, call.lens, symbols[i])
    modifies huffs
    ensures status == Ok || status == InconsistentDecoderState
    ensures status == Ok ==> Selected(huffs[..], call, symbols, i, ROOT_BITS, cur', blocks')
    ensures status != Ok ==> SlotsNeeded(call.lens) > TABLE_SIZE
  {
    cur', status, blocks' := cur, Ok, blocks;
    hide Rank, AllServed, BlocksOk, CountsFrom, SlotsFor, Selected, SlotsNeeded;
    KeyBound(call.lens, symbols[i]);
    var redirectKey := SplitCode(code, cl - ROOT_BITS);
    if cur.prevRedirectKey != redirectKey {
      cur', status, blocks' := SelectNew(huffs, call, symbols, i, cl, redirectKey, counts, cur, blocks);
    } else {
      OldKeySelected(huffs[..], call, symbols, i, ROOT_BITS, cur, blocks);
    }
  }

  /** The first symbol behind its redirect key. */
  method SelectNew(huffs: array<nat>, ghost call: Call, ghost symbols: seq<nat>, ghost i: nat,
                   cl: nat, redirectKey: nat, counts: seq<nat>, cur: Cursor, ghost blocks: Blocks)
    returns (cur': Cursor, status: Status, ghost blocks': Blocks)
    requires huffs.Length == TABLE_SIZE && Placing(huffs[..], call, symbols, i, ROOT_BITS, cur, blocks)
    requires i < NumCoded(call.lens) && Long(call.lens, symbols[i])
    requires cl == call.lens[symbols[i]] && redirectKey == Key(call.lens, symbols[i]) != cur.prevRedirectKey
    requires CountsFrom(counts, call.lens, symbols[i])
    modifies huffs
    ensures status == Ok || status == InconsistentDecoderState
    ensures status == Ok ==> Selected(huffs[..], call, symbols, i, ROOT_BITS, cur', blocks')
    ensures status != Ok ==> SlotsNeeded(call.lens) > TABLE_SIZE
  {
    hide Rank, AllServed, BlocksOk, CountsFrom, SlotsFor, Selected;
    blocks' := blocks;
    KeyBound(call.lens, symbols[i]);
    NewKey(call.lens, symbols, i, cur, blocks, ROOT_BITS);
    BlockStart(call.lens, symbols, i);
    UsedBefore(call.lens, symbols, i, cur, blocks, ROOT_BITS);
    UsedMono(call.lens, redirectKey + 1, 512);
    ghost var b;
    cur', status, b := StartSubTable(huffs, counts, cl, redirectKey, cur, call, blocks, symbols[i]);
    if status == Ok {
      blocks' := blocks[redirectKey := b];
      NewKeySelected(huffs[..], call, symbols, i, cur, blocks, cur', b);
    }
  }

  /** The table cannot be built: s has no entry, or there are too few slots. */
  ghost predicate Fails(call: Call, s: nat)
  {
    Coded(call.lens, s) && (!HasValue(call, s) || SlotsNeeded(call.lens) > TABLE_SIZE)
  }

  /** One round of the main loop, for the symbol of rank i. */
  method PlaceSymbol(huffs: array<nat>, call: Call, symbols: seq<nat>, i: nat, code: nat, counts: seq<nat>,
                     ghost nb: nat, cur: Cursor, ghost blocks: Blocks)
    returns (cur': Cursor, status: Status, ghost blocks': Blocks)
    requires huffs.Length == TABLE_SIZE && Placing(huffs[..], call, symbols, i, nb, cur, blocks) && i < NumCoded(call.lens)
    requires code == Code(call.lens, symbols[i]) && CountsFrom(counts, call.lens, symbols[i])
    requires call.lens[symbols[i]] <= nb || nb == ROOT_BITS
    requires EntriesOf(call)
    modifies huffs
    ensures status == Ok || status == InconsistentDecoderState
    ensures status == Ok ==> Placing(huffs[..], call, symbols, i + 1, nb, cur', blocks') && HasValue(call, symbols[i])
    ensures status != Ok ==> Fails(call, symbols[i])
  {
    var cl := call.lens[symbols[i]];
    if cl > ROOT_BITS {
      cur', status, blocks' := SelectSubTable(huffs, call, symbols, i, cl, code, counts, cur, blocks);
      if status != Ok {
        return;
      }
    } else {
      cur', blocks' := cur, blocks;
      ShortSelected(huffs[..], call, symbols, i, nb, cur, blocks);
    }
    status := WriteSymbol(huffs, call, symbols, i, code, nb, cur', blocks');
  }

  /** The second part of a round: compute the entry and fill its slots. */
  method WriteSymbol(huffs: array<nat>, call: Call, symbols: seq<nat>, i: nat, code: nat,
                     ghost nb: nat, cur: Cursor, ghost blocks: Blocks) returns (status: Status)
    requires huffs.Length == TABLE_SIZE && Selected(huffs[..], call, symbols, i, nb, cur, blocks)
    requires code == Code(call.lens, symbols[i])
    requires EntriesOf(call)
    modifies huffs
    ensures status == Ok || status == InconsistentDecoderState
    ensures status == Ok ==> Placing(huffs[..], call, symbols, i + 1, nb, cur, blocks) && HasValue(call, symbols[i])
    ensures status != Ok ==> Fails(call, symbols[i])
  {
    hide Rank, AllServed, CursorOk, BlocksOk, ReadMsb;
    var s := symbols[i];
    var cl, key := call.lens[s], code;
    if cl > ROOT_BITS {
      cl := cl - ROOT_BITS;
      key := LowBits(key, cl);
    }
    KeyFits(call.lens, s, cl, key);
    var value := EntryFor(call, s, cl);
    if value.None? {
      return InconsistentDecoderState;
    }
    var reversedKey := ReverseKey(key, cl);
    ghost var before := huffs[..];
    SelectedFits(before, call, symbols, i, nb, cur, blocks);
    status := FillEntries(huffs, cur.top, cur.initialHighBits, cl, reversedKey, value.value,
                          Written(call, nb, blocks, s));
    SelectedKeeps(before, huffs[..], call, symbols, i, nb, cur, blocks);
  }

  lemma SelectedKeeps(before: seq<nat>, after: seq<nat>, call: Call, symbols: seq<nat>, i: nat, nb: nat, cur: Cursor, blocks: Blocks)
    requires Selected(before, call, symbols, i, nb, cur, blocks)
    requires Wrote(before, after, Written(call, nb, blocks, symbols[i]))
    ensures Placing(after, call, symbols, i + 1, nb, cur, blocks)
  {
    if call.lens[symbols[i]] > ROOT_BITS {
      SubWriteKeeps(before, after, call, blocks, symbols[i], cur.nextTop);
    } else {
      DirectWriteKeeps(before, after, call, nb, blocks, symbols[i]);
    }
  }

  lemma SelectedFits(huffs: seq<nat>, call: Call, symbols: seq<nat>, i: nat, nb: nat, cur: Cursor, blocks: Blocks)
    requires Selected(huffs, call, symbols, i, nb, cur, blocks)
    ensures var w := Written(call, nb, blocks, symbols[i]);
            && w.l <= w.n <= ROOT_BITS && w.top + Pow2(w.n) <= TABLE_SIZE
            && w.top == cur.top && Pow2(w.n) == cur.initialHighBits
  {
    Pow2Mono(nb, ROOT_BITS);
    Pow2Values();
  }

  /** `(key >> tmp) & 511` for a code of nine plus tmp bits. */
  method SplitCode(code: nat, tmp: nat) returns (redirectKey: nat)
    requires Shr(code, tmp) < 512
    ensures redirectKey == Shr(code, tmp)
  {
    hide And, Shr;
    ShrIsDiv(code, tmp);
    var q := code / Pow2(tmp);
    Pow2Values();
    MaskNoop(q, 9);
    redirectKey := AndNat(q, 511);
  }

  /** `key & ((1 << tmp) - 1)`. */
  method LowBits(code: nat, tmp: nat) returns (key: nat)
    ensures key == Low(code, tmp)
  {
    key := AndNat(code, Pow2(tmp) - 1);
    AndMask(code, tmp);
    LowIsMod(code, tmp);
  }

  /** Reversing a key of cl bits through the nine-bit reversal. */
  method ReverseKey(key: nat, cl: nat) returns (r: nat)
    requires cl <= ROOT_BITS && key < Pow2(cl) <= 512
    ensures r == ReadMsb(key, cl)
  {
    Reverse9Reverses(key);
    ghost var r9 := ReadMsb(key, 9);
    ReadMsbPrefix(key, cl, ROOT_BITS);
    ShrIsDiv(r9, ROOT_BITS - cl);
    r := Reverse9(key);
    r := r / Pow2(ROOT_BITS - cl);
  }

  lemma KeyFits(lens: seq<nat>, s: nat, cl: nat, key: nat)
    requires Complete(lens) && Coded(lens, s)
    requires if lens[s] <= ROOT_BITS then cl == lens[s] && key == Code(lens, s)
             else cl == lens[s] - ROOT_BITS && key == Low(Code(lens, s), cl)
    ensures 1 <= cl <= ROOT_BITS && key < Pow2(cl) <= 512
  {
    Pow2Mono(cl, 9);
    Pow2Values();
    if lens[s] > ROOT_BITS {
      ShrLow(Code(lens, s), cl);
    } else {
      CodeFits(lens, s);
    }
  }

  /** A code of length l is less than 2^l. */
  lemma CodeFits(lens: seq<nat>, s: nat)
    requires Complete(lens) && Coded(lens, s)
    ensures Code(lens, s) < Pow2(lens[s])
  {
    var l := lens[s];
    KraftIsArea(lens);
    StartInBand(lens, s);
    AreaMono(lens, l + 1, MAX_LENGTH + 1);
    CodeStart(lens, s);
    ShlOne(l);
    ShlShl(1, l, MAX_LENGTH - l);
    ShlOne(MAX_LENGTH);
    if Pow2(l) <= Code(lens, s) { ShlMono(Pow2(l), Code(lens, s), MAX_LENGTH - l); }
  }

  lemma NewKey(lens: seq<nat>, symbols: seq<nat>, i: nat, cur: Cursor, blocks: Blocks, nb: nat)
    requires Complete(lens) && Sorted(symbols, lens) && i < NumCoded(lens) && Long(lens, symbols[i])
    requires CursorOk(cur, blocks, lens, nb, symbols, i)
    requires cur.prevRedirectKey != Key(lens, symbols[i])
    ensures Key(lens, symbols[i]) !in blocks
    ensures i > 0 && lens[symbols[i - 1]] > ROOT_BITS ==> Key(lens, symbols[i - 1]) != Key(lens, symbols[i])
  {
    if i > 0 && lens[symbols[i - 1]] > ROOT_BITS {
      KeysInOrder(lens, symbols[i - 1], symbols[i]);
    }
  }

  /** Before the first symbol of a key, exactly the sub-tables of smaller keys are in use. */
  lemma UsedBefore(lens: seq<nat>, symbols: seq<nat>, i: nat, cur: Cursor, blocks: Blocks, nb: nat)
    requires Complete(lens) && Sorted(symbols, lens) && i < NumCoded(lens) && Long(lens, symbols[i])
    requires CursorOk(cur, blocks, lens, nb, symbols, i) && cur.prevRedirectKey != Key(lens, symbols[i])
    ensures cur.nextTop == Used(lens, Key(lens, symbols[i]))
  {
    var key := Key(lens, symbols[i]);
    var m := if i == 0 || lens[symbols[i - 1]] <= ROOT_BITS then 0 else cur.prevRedirectKey + 1;
    if m > 0 { KeysInOrder(lens, symbols[i - 1], symbols[i]); }
    forall s: nat | Long(lens, s) ensures !(m <= Key(lens, s) < key) {
      RankInBand(lens, s);
      if Rank(lens, s) >= i {
        KeysInOrder(lens, symbols[i], s);
      } else {
        LongBefore(lens, symbols, i, s);
      }
    }
    UsedFlat(lens, m, key);
  }

  /** A long code earlier in order has at most the latest key. */
  lemma LongBefore(lens: seq<nat>, symbols: seq<nat>, i: nat, s: nat)
    requires Lengths(lens) && Sorted(symbols, lens) && i <= NumCoded(lens) && Long(lens, s) && Rank(lens, s) < i
    ensures Long(lens, symbols[i - 1]) && Key(lens, s) <= Key(lens, symbols[i - 1])
  {
    var t := symbols[i - 1];
    if Rank(lens, s) < Rank(lens, t) { NotAPrefix(lens, s, t); } else { SameRank(lens, s, t); }
    KeysInOrder(lens, s, t);
  }

  /** In the end, all sub-tables are in use. */
  lemma UsedAfter(lens: seq<nat>, symbols: seq<nat>, cur: Cursor, blocks: Blocks, nb: nat)
    requires Complete(lens) && Sorted(symbols, lens)
    requires CursorOk(cur, blocks, lens, nb, symbols, NumCoded(lens)) && BlocksOk(blocks, lens, cur.nextTop)
    ensures cur.nextTop == SlotsNeeded(lens) <= TABLE_SIZE
  {
    var n := NumCoded(lens);
    var m := if n == 0 || lens[symbols[n - 1]] <= ROOT_BITS then 0 else cur.prevRedirectKey + 1;
    if m > 0 { KeyBound(lens, symbols[n - 1]); }
    forall s: nat | Long(lens, s) ensures !(m <= Key(lens, s) < 512) {
      RankInBand(lens, s);
      LongBefore(lens, symbols, n, s);
    }
    UsedFlat(lens, m, 512);
  }

  // ---------------- The theorem about the finished table

  lemma LookupDirect(huffs: seq<nat>, call: Call, nb: nat, s: nat, x: nat)
    requires |huffs| == TABLE_SIZE && nb <= ROOT_BITS && EntriesOf(call)
    requires Matches(call.lens, s, x) && call.lens[s] <= nb && HasValue(call, s)
    requires Holds(huffs, DirectClaim(call, nb, s))
    ensures Finds(huffs, nb, call, x, s)
    ensures Lookup(huffs, nb, x) == Some((Value(call, s, call.lens[s]), call.lens[s]))
  {
    var i, l := Low(x, nb), call.lens[s];
    ShrLow(x, nb);
    ReadMsbLow(x, nb, l);
    assert Concerns(DirectClaim(call, nb, s), i);
    EntryFields(call, s, l);
  }

  lemma LookupLong(huffs: seq<nat>, call: Call, b: Block, s: nat, x: nat)
    requires |huffs| == TABLE_SIZE && EntriesOf(call) && Lengths(call.lens)
    requires Matches(call.lens, s, x) && Long(call.lens, s) && HasValue(call, s)
    requires b.top < TABLE_SIZE && call.lens[s] - ROOT_BITS <= b.bits <= 6
    requires Holds(huffs, RedirectClaim(Key(call.lens, s), b)) && Holds(huffs, SubClaim(call, b, s))
    ensures Finds(huffs, ROOT_BITS, call, x, s)
    ensures Lookup(huffs, ROOT_BITS, x) == Some((Value(call, s, call.lens[s] - ROOT_BITS), call.lens[s]))
  {
    RootSlot(huffs, call, b, s, x);
    SubSlot(huffs, call, b, s, x);
    RedirectFields(b);
    EntryFields(call, s, call.lens[s] - ROOT_BITS);
  }

  lemma RootSlot(huffs: seq<nat>, call: Call, b: Block, s: nat, x: nat)
    requires |huffs| == TABLE_SIZE && Matches(call.lens, s, x) && Long(call.lens, s)
    requires Holds(huffs, RedirectClaim(Key(call.lens, s), b))
    ensures Low(x, ROOT_BITS) < |huffs| && huffs[Low(x, ROOT_BITS)] == RedirectValue(b)
  {
    ShrLow(x, ROOT_BITS);
    ReadMsbLow(x, ROOT_BITS, ROOT_BITS);
    ReadMsbPrefix(x, ROOT_BITS, call.lens[s]);
    assert Concerns(RedirectClaim(Key(call.lens, s), b), Low(x, ROOT_BITS));
  }

  lemma SubSlot(huffs: seq<nat>, call: Call, b: Block, s: nat, x: nat)
    requires |huffs| == TABLE_SIZE && Matches(call.lens, s, x) && Long(call.lens, s)
    requires call.lens[s] - ROOT_BITS <= b.bits
    requires Holds(huffs, SubClaim(call, b, s))
    ensures var j := b.top + Low(Shr(x, ROOT_BITS), b.bits);
            j < |huffs| && huffs[j] == Value(call, s, call.lens[s] - ROOT_BITS)
  {
    var y, cl := Shr(x, ROOT_BITS), call.lens[s] - ROOT_BITS;
    ShrLow(y, b.bits);
    ReadMsbLow(y, b.bits, cl);
    ReadMsbSkip(x, ROOT_BITS, cl);
    assert Concerns(SubClaim(call, b, s), b.top + Low(y, b.bits));
  }

  /** A table in which every symbol is served decodes every stream. */
  lemma ServedDecodes(huffs: seq<nat>, call: Call, symbols: seq<nat>, nb: nat, cur: Cursor, blocks: Blocks)
    requires Placing(huffs, call, symbols, NumCoded(call.lens), nb, cur, blocks) && EntriesOf(call)
    requires forall s: nat | Coded(call.lens, s) :: HasValue(call, s)
    ensures Decodes(huffs, nb, call)
  {
    forall x: nat, s: nat | Matches(call.lens, s, x)
      ensures Finds(huffs, nb, call, x, s)
      ensures Lookup(huffs, nb, x) == Some((Value(call, s, LastBits(call.lens, s)), call.lens[s]))
    {
      RankInBand(call.lens, s);
      assert Served(huffs, call, nb, blocks, s);
      if call.lens[s] <= ROOT_BITS {
        LookupDirect(huffs, call, nb, s, x);
      } else {
        LookupLong(huffs, call, blocks[Key(call.lens, s)], s, x);
      }
    }
  }

  // ---------------- The main loop

  lemma FirstCounts(counts: seq<nat>, lens: seq<nat>, s: nat)
    requires Lengths(lens) && Counts(counts, lens) && Coded(lens, s) && Rank(lens, s) == 0
    ensures CountsFrom(counts, lens, s)
  {
    NoneBetween(lens, 1, lens[s]);
  }

  lemma NextCounts(counts: seq<nat>, lens: seq<nat>, s: nat, t: nat)
    requires Lengths(lens) && Follows(lens, s, t) && CountsFrom(counts, lens, s)
    ensures counts[lens[s]] > 0
    ensures CountsFrom(counts[lens[s] := counts[lens[s]] - 1], lens, t)
  {
    CountBefore(lens, s);
    CountBefore(lens, t);
  }

  ghost predicate AllValues(call: Call)
  {
    forall s: nat | Coded(call.lens, s) :: HasValue(call, s)
  }

  ghost predicate ValuesBelow(call: Call, symbols: seq<nat>, i: nat)
    requires Sorted(symbols, call.lens) && i <= NumCoded(call.lens)
  {
    forall k {:trigger HasValue(call, symbols[k])} | 0 <= k < i :: HasValue(call, symbols[k])
  }

  ghost predicate NoLonger(lens: seq<nat>, m: nat)
  {
    forall s: nat {:trigger Coded(lens, s)} | Coded(lens, s) :: lens[s] <= m
  }

  /** The 1234 entries are enough for every code. */
  lemma TableSuffices(lens: seq<nat>)
    requires Complete(lens) && |lens| <= MAX_CODES
    ensures SlotsNeeded(lens) <= TABLE_SIZE
  {
    hide SlotsNeeded;
    SlotsSuffice(lens);
    OffsetBound(lens, MAX_LENGTH + 1);
  }

  /** The main loop of init_huff: walk the symbols in canonical order, counting up their codes. */
  method BuildTable(huffs: array<nat>, call: Call, symbols: seq<nat>, nSymbols: nat, counts0: seq<nat>, maxCl: nat, ghost nb: nat)
    returns (status: Status)
    requires huffs.Length == TABLE_SIZE && Complete(call.lens) && |call.lens| <= MAX_CODES && EntriesOf(call)
    requires Sorted(symbols, call.lens) && nSymbols == NumCoded(call.lens) > 0
    requires Counts(counts0, call.lens)
    requires 1 <= maxCl && NoLonger(call.lens, maxCl)
    requires nb == if maxCl <= ROOT_BITS then maxCl else ROOT_BITS
    modifies huffs
    ensures status == Ok || status == InconsistentDecoderState
    ensures status == Ok <==> AllValues(call)
    ensures status == Ok ==> Decodes(huffs[..], nb, call)
  {
    hide Rank, Code, AllServed, CursorOk, BlocksOk, CountsFrom, Decodes;
    var lens := call.lens;
    TableSuffices(lens);
    var initialHighBits := 512;
    if maxCl < ROOT_BITS {
      initialHighBits := Pow2(maxCl);
    }
    var cur := Cursor(0, 512, initialHighBits, NO_KEY);
    ghost var blocks: Blocks := map[];
    var counts := counts0;
    var i, code, prevCl := 0, 0, lens[symbols[0]];
    StartBuilding(huffs[..], call, symbols, nb, cur, counts);
    while true
      invariant 0 <= i < nSymbols
      invariant Placing(huffs[..], call, symbols, i, nb, cur, blocks)
      invariant Reached(lens, symbols[i], counts, code, prevCl)
      invariant ValuesBelow(call, symbols, i)
      decreases nSymbols - i
    {
      code, prevCl, cur, status, blocks := Round(huffs, call, symbols, i, code, prevCl, counts, nb, cur, blocks);
      if status != Ok {
        return;
      }
      if i + 1 >= nSymbols {
        break;
      }
      counts, code, status := StepOver(counts, code, prevCl, lens, symbols, i);
      i := i + 1;
    }
    AllHaveValues(call, symbols);
    UsedAfter(lens, symbols, cur, blocks, nb);
    ServedDecodes(huffs[..], call, symbols, nb, cur, blocks);
  }

  /** Just before s is placed: code, still at the previous length, becomes the code of s. */
  ghost predicate Reached(lens: seq<nat>, s: nat, counts: seq<nat>, code: nat, prevCl: nat)
  {
    Coded(lens, s) && CountsFrom(counts, lens, s) && prevCl <= lens[s] && Code(lens, s) == Shl(code, lens[s] - prevCl)
  }

  method Round(huffs: array<nat>, call: Call, symbols: seq<nat>, i: nat, code: nat, prevCl: nat, counts: seq<nat>,
               ghost nb: nat, cur: Cursor, ghost blocks: Blocks)
    returns (code': nat, cl: nat, cur': Cursor, status: Status, ghost blocks': Blocks)
    requires huffs.Length == TABLE_SIZE && Placing(huffs[..], call, symbols, i, nb, cur, blocks) && i < NumCoded(call.lens)
    requires Reached(call.lens, symbols[i], counts, code, prevCl)
    requires call.lens[symbols[i]] <= nb || nb == ROOT_BITS
    requires EntriesOf(call)
    modifies huffs
    ensures status == Ok || status == InconsistentDecoderState
    ensures cl == call.lens[symbols[i]] && code' == Code(call.lens, symbols[i])
    ensures status == Ok ==> Placing(huffs[..], call, symbols, i + 1, nb, cur', blocks') && HasValue(call, symbols[i])
    ensures status != Ok ==> Fails(call, symbols[i])
  {
    cl := call.lens[symbols[i]];
    code', status := ShiftCode(code, cl, prevCl, call.lens, symbols[i]);
    cur', status, blocks' := PlaceSymbol(huffs, call, symbols, i, code', counts, nb, cur, blocks);
  }

  /** The code grows with the length. */
  method ShiftCode(code: nat, cl: nat, prevCl: nat, ghost lens: seq<nat>, ghost s: nat) returns (code': nat, status: Status)
    requires Complete(lens) && Coded(lens, s) && prevCl <= cl == lens[s] && Code(lens, s) == Shl(code, cl - prevCl)
    ensures status == Ok && code' == Code(lens, s)
  {
    code', status := code, Ok;
    CodeBelow(lens, s);
    if cl > prevCl {
      code' := Shl(code, cl - prevCl);
      if code' >= 32768 {
        status := InconsistentDecoderState;
      }
    }
  }

  /** One symbol fewer of this length; the next code is one more. */
  method StepOver(counts: seq<nat>, code: nat, cl: nat, ghost lens: seq<nat>, ghost symbols: seq<nat>, ghost i: nat)
    returns (counts': seq<nat>, code': nat, status: Status)
    requires Complete(lens) && Sorted(symbols, lens) && i + 1 < NumCoded(lens)
    requires CountsFrom(counts, lens, symbols[i]) && cl == lens[symbols[i]] && code == Code(lens, symbols[i])
    ensures status == Ok
    ensures Reached(lens, symbols[i + 1], counts', code', cl)
  {
    counts', code', status := counts, code, Ok;
    Advances(lens, symbols, i, counts);
    if counts[cl] <= 0 {
      status := InconsistentDecoderState;
      return;
    }
    counts' := counts[cl := counts[cl] - 1];
    code' := code + 1;
    if code' >= 32768 {
      status := InconsistentDecoderState;
    }
  }

  lemma StartBuilding(huffs: seq<nat>, call: Call, symbols: seq<nat>, nb: nat, cur: Cursor, counts: seq<nat>)
    requires |huffs| == TABLE_SIZE && Complete(call.lens) && |call.lens| <= MAX_CODES
    requires Sorted(symbols, call.lens) && NumCoded(call.lens) > 0 && Counts(counts, call.lens)
    requires 1 <= nb <= ROOT_BITS
    requires cur == Cursor(0, 512, if nb < ROOT_BITS then Pow2(nb) else 512, NO_KEY)
    ensures Placing(huffs, call, symbols, 0, nb, cur, map[])
    ensures CountsFrom(counts, call.lens, symbols[0])
    ensures Code(call.lens, symbols[0]) == 0
  {
    Pow2Values();
    FirstCounts(counts, call.lens, symbols[0]);
    FirstCodeIsZero(call.lens, symbols[0]);
  }

  lemma CodeBelow(lens: seq<nat>, s: nat)
    requires Complete(lens) && Coded(lens, s)
    ensures Code(lens, s) < 32768
  {
    CodeFits(lens, s);
    Pow2Mono(lens[s], MAX_LENGTH);
    Pow2Large();
  }

  lemma Advances(lens: seq<nat>, symbols: seq<nat>, i: nat, counts: seq<nat>)
    requires Complete(lens) && Sorted(symbols, lens) && i + 1 < NumCoded(lens)
    requires CountsFrom(counts, lens, symbols[i])
    ensures var s, t := symbols[i], symbols[i + 1];
            && lens[s] <= lens[t] && Code(lens, t) == Shl(Code(lens, s) + 1, lens[t] - lens[s])
            && Code(lens, s) + 1 < 32768
            && counts[lens[s]] > 0 && CountsFrom(counts[lens[s] := counts[lens[s]] - 1], lens, t)
  {
    NextInOrder(lens, symbols[i], symbols[i + 1]);
    NextCode(lens, symbols[i], symbols[i + 1]);
    NextCodeFits(lens, symbols[i], symbols[i + 1]);
    NextCounts(counts, lens, symbols[i], symbols[i + 1]);
  }

  lemma NextCodeFits(lens: seq<nat>, s: nat, t: nat)
    requires Complete(lens) && Follows(lens, s, t)
    ensures Code(lens, s) + 1 < 32768
  {
    NextCode(lens, s, t);
    CodeFits(lens, t);
    ShlGrows(Code(lens, s) + 1, lens[t] - lens[s]);
    Pow2Mono(lens[t], MAX_LENGTH);
    Pow2Large();
  }

  lemma AllHaveValues(call: Call, symbols: seq<nat>)
    requires Lengths(call.lens) && Sorted(symbols, call.lens) && ValuesBelow(call, symbols, NumCoded(call.lens))
    ensures forall s: nat | Coded(call.lens, s) :: HasValue(call, s)
  {
    forall s: nat | Coded(call.lens, s) ensures HasValue(call, s) {
      RankInBand(call.lens, s);
      assert symbols[Rank(call.lens, s)] == s;
      assert HasValue(call, symbols[Rank(call.lens, s)]);
    }
  }

  // ---------------- init_huff

  /** The search for the shortest length, which must be at most nine. */
  method MinimumLength(counts: seq<nat>, ghost lens: seq<nat>) returns (minCl: nat, status: Status)
    requires Lengths(lens) && Counts(counts, lens)
    ensures status == Ok || status == BadMinimumCodeLength
    ensures status == BadMinimumCodeLength <==> forall s: nat | Coded(lens, s) :: lens[s] > ROOT_BITS
  {
    minCl := 1;
    while true
      invariant 1 <= minCl <= ROOT_BITS
      invariant forall l | 1 <= l < minCl :: counts[l] == 0
      decreases ROOT_BITS - minCl
    {
      if counts[minCl] != 0 {
        var s := NthOfLength(lens, minCl, 0);
        return minCl, Ok;
      }
      if minCl >= ROOT_BITS {
        forall s: nat | Coded(lens, s) ensures lens[s] > ROOT_BITS { CountBefore(lens, s); }
        return minCl, BadMinimumCodeLength;
      }
      minCl := minCl + 1;
    }
  }

  /** The search for the longest length. */
  method MaximumLength(counts: seq<nat>, ghost lens: seq<nat>) returns (maxCl: nat, status: Status)
    requires Lengths(lens) && Counts(counts, lens)
    requires exists s: nat :: Coded(lens, s)
    ensures status == Ok
    ensures 1 <= maxCl <= MAX_LENGTH && NoLonger(lens, maxCl) && counts[maxCl] != 0
  {
    maxCl := MAX_LENGTH;
    ghost var w: nat :| Coded(lens, w);
    while true
      invariant 1 <= maxCl <= MAX_LENGTH
      invariant forall l | maxCl < l <= MAX_LENGTH :: counts[l] == 0
      decreases maxCl
    {
      if counts[maxCl] != 0 {
        forall s: nat | Coded(lens, s) ensures lens[s] <= maxCl { CountBefore(lens, s); }
        return maxCl, Ok;
      }
      CountBefore(lens, w);
      if maxCl <= 1 {
        return maxCl, NoHuffmanCodes;
      }
      maxCl := maxCl - 1;
    }
  }

  lemma SomeCoded(lens: seq<nat>)
    requires Lengths(lens) && NumCoded(lens) > 0
    ensures exists s: nat :: Coded(lens, s)
  {
    var s := RankOnto(lens, 0, MAX_LENGTH + 1);
  }

  /** Without codes the Kraft sum is zero, and only then. */
  lemma CodedKraft(lens: seq<nat>)
    requires Lengths(lens)
    ensures (forall s | 0 <= s < |lens| :: lens[s] == 0) <==> NumCoded(lens) == 0
    ensures NumCoded(lens) == 0 <==> KraftSum(lens) == 0
  {
    KraftIsArea(lens);
    if NumCoded(lens) == 0 {
      NoneBetween(lens, 1, MAX_LENGTH + 1);
      AreaUnchanged(lens, 1, MAX_LENGTH + 1);
      forall s | 0 <= s < |lens| ensures lens[s] == 0 {
        if lens[s] > 0 { RankInBand(lens, s); }
      }
    } else {
      var s := RankOnto(lens, 0, MAX_LENGTH + 1);
      assert lens[s] != 0;
      StartInBand(lens, s);
      AreaMono(lens, lens[s] + 1, MAX_LENGTH + 1);
    }
  }

  /** After sorting, the offset of the longest length is the number of symbols. */
  lemma OffsetsEnd(offsets: seq<nat>, lens: seq<nat>, maxCl: nat)
    requires Lengths(lens) && Offsets(offsets, lens, lens) && 1 <= maxCl <= MAX_LENGTH && NoLonger(lens, maxCl)
    ensures offsets[maxCl] == NumCoded(lens) && offsets[MAX_LENGTH] == NumCoded(lens)
  {
    hide Rank, Count;
    assert offsets[maxCl] == Offset(lens, maxCl + 1);
    if Offset(lens, maxCl + 1) < NumCoded(lens) {
      var s := RankOnto(lens, Offset(lens, maxCl + 1), MAX_LENGTH + 1);
      RankInBand(lens, s);
      OffsetMono(lens, lens[s] + 1, maxCl + 1);
    }
    OffsetMono(lens, maxCl + 1, MAX_LENGTH + 1);
  }

  /** The code lengths for which init_huff succeeds: a complete code of at most 288 symbols, with an
      entry for each. */
  ghost predicate Buildable(call: Call)
  {
    Complete(call.lens) && NumCoded(call.lens) <= 288 && AllValues(call)
  }

  /** The first part of init_huff: count, check and sort the code lengths. */
  method Prepare(lens: seq<nat>)
    returns (status: Status, counts: seq<nat>, nSymbols: nat, symbols: seq<nat>, maxCl: nat)
    requires Lengths(lens) && |lens| <= MAX_CODES
    ensures status == NoHuffmanCodes <==> forall s | 0 <= s < |lens| :: lens[s] == 0
    ensures status == OverSubscribed <==> KraftSum(lens) > Pow2(MAX_LENGTH)
    ensures status == UnderSubscribed <==> 0 < KraftSum(lens) < Pow2(MAX_LENGTH)
    ensures status == InconsistentDecoderState <==> Complete(lens) && NumCoded(lens) > 288
    ensures status == Ok <==> Complete(lens) && NumCoded(lens) <= 288
    ensures status != BadMinimumCodeLength
    ensures status == Ok ==>
              && Counts(counts, lens) && nSymbols == NumCoded(lens) > 0 && Sorted(symbols, lens)
              && 1 <= maxCl && NoLonger(lens, maxCl)
  {
    nSymbols, symbols, maxCl := 0, [], 0;
    hide Count, KraftSum, Offset, Rank, Pow2, Sorted, NoLonger, Offsets;
    counts, status := CountLengths(lens);
    CodedKraft(lens);
    AllZero(lens);
    if counts[0] == |lens| {
      status := NoHuffmanCodes;
      return;
    }
    status := CheckSubscription(counts, lens);
    if status != Ok {
      return;
    }
    var offsets;
    offsets, nSymbols, status := ComputeOffsets(counts, lens);
    if status != Ok {
      return;
    }
    symbols, offsets, status := SortSymbols(lens, offsets);
    ShortExists(lens);
    var minCl;
    minCl, status := MinimumLength(counts, lens);
    if status != Ok {
      return;
    }
    SomeCoded(lens);
    maxCl, status := MaximumLength(counts, lens);
    OffsetsEnd(offsets, lens, maxCl);
    if nSymbols != offsets[maxCl] || nSymbols != offsets[MAX_LENGTH] {
      status := InconsistentDecoderState;
      return;
    }
    if symbols[0] >= MAX_CODES {
      status := InconsistentDecoderState;
      return;
    }
  }

  /** init_huff: either report what is wrong with the code lengths, or build a table that decodes. */
  method InitHuff(huffs: array<nat>, lens: seq<nat>, which: nat, baseSymbol: nat)
    returns (status: Status, nHuffsBits: nat, ghost call: Call)
    requires huffs.Length == TABLE_SIZE && Lengths(lens) && |lens| <= MAX_CODES
    modifies huffs
    ensures call.lens == lens && call.which == which && call.baseSymbol == baseSymbol && EntriesOf(call)
    ensures status == NoHuffmanCodes <==> forall s | 0 <= s < |lens| :: lens[s] == 0
    ensures status == OverSubscribed <==> KraftSum(lens) > Pow2(MAX_LENGTH)
    ensures status == UnderSubscribed <==> 0 < KraftSum(lens) < Pow2(MAX_LENGTH)
    ensures status == Ok <==> Buildable(call)
    ensures status == InconsistentDecoderState <==> Complete(lens) && !(NumCoded(lens) <= 288 && AllValues(call))
    ensures status != BadMinimumCodeLength
    ensures |lens| <= 288 && AllValues(call) ==> status != InconsistentDecoderState && (status == Ok <==> Complete(lens))
    ensures status == Ok ==> Decodes(huffs[..], nHuffsBits, call)
  {
    OffsetBound(lens, MAX_LENGTH + 1);
    hide Decodes, KraftSum, EntryValue, NumCoded, SlotsNeeded, AllValues;
    nHuffsBits := 0;
    var theCall := Call(lens, which, baseSymbol, (s: nat, cl: nat) => EntryValue(which, baseSymbol, s, cl));
    call := theCall;
    var counts, nSymbols, symbols, maxCl;
    status, counts, nSymbols, symbols, maxCl := Prepare(lens);
    if status != Ok {
      return;
    }
    nHuffsBits := if maxCl <= ROOT_BITS then maxCl else ROOT_BITS;
    status := BuildTable(huffs, theCall, symbols, nSymbols, counts, maxCl, nHuffsBits);
  }
}
