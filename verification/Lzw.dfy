/** The GIF LZW decoder: a coroutine over byte buffers of any size, with its dictionary held as
    prefix links and suffix bytes, against the dictionary of strings of the GIF89a
    specification (Appendix F, variable-length-code LZW compression). */
module Lzw {
  import opened Bits
  import opened Words
  import opened BitStream

  // ---------------- The format

  const MAX_CODES := 4096

  /** The decoder's dictionary: a string for every code after the end code and before `next`.
      `prev` is the code before the current one, or -1 just after a clear code. */
  datatype Dictionary = Dictionary(literalWidth: nat, strings: map<nat, seq<Byte>>, next: nat, prev: int, width: nat)

  datatype Reaction = Emits(out: seq<Byte>, after: Dictionary) | Clears(emptied: Dictionary) | Ends | Refuses

  datatype Verdict = Incomplete | Ended | BadCode

  datatype Result = Result(out: seq<Byte>, verdict: Verdict)

  function ClearCode(literalWidth: nat): nat { Pow2(literalWidth) }

  function EndCode(literalWidth: nat): nat { Pow2(literalWidth) + 1 }

  predicate Known(d: Dictionary, code: nat)
  {
    code < ClearCode(d.literalWidth) || EndCode(d.literalWidth) < code < d.next
  }

  predicate Ok(d: Dictionary)
  {
    && 2 <= d.literalWidth <= 8
    && ClearCode(d.literalWidth) <= 256
    && EndCode(d.literalWidth) < d.next <= MAX_CODES
    && d.literalWidth + 1 <= d.width <= 12
    && (forall e :: EndCode(d.literalWidth) < e < d.next ==> e in d.strings && d.strings[e] != [])
    && (d.prev < 0 ==> d.next == EndCode(d.literalWidth) + 1)
    && (0 <= d.prev ==> Known(d, d.prev))
  }

  function Fresh(literalWidth: nat): Dictionary
  {
    Dictionary(literalWidth, map[], EndCode(literalWidth) + 1, -1, literalWidth + 1)
  }

  /** The string a code stands for. */
  function Str(d: Dictionary, code: nat): (s: seq<Byte>)
    requires Ok(d) && Known(d, code)
    ensures s != []
  {
    if code < ClearCode(d.literalWidth) then [code] else d.strings[code]
  }

  /** Adds an entry, unless all codes are in use; codes get a bit longer when the next one to
      be added would not fit. */
  function Grow(d: Dictionary, s: seq<Byte>): Dictionary
  {
    if d.next < MAX_CODES then
      d.(strings := d.strings[d.next := s], next := d.next + 1,
         width := if d.next + 1 == Pow2(d.width) && d.width < 12 then d.width + 1 else d.width)
    else
      d
  }

  function React(d: Dictionary, code: nat): (r: Reaction)
    requires Ok(d)
  {
    if code == ClearCode(d.literalWidth) then Clears(Fresh(d.literalWidth))
    else if code == EndCode(d.literalWidth) then Ends
    else if Known(d, code) then
      var s := Str(d, code);
      Emits(s, (if d.prev < 0 then d else Grow(d, Str(d, d.prev) + [s[0]])).(prev := code))
    else if 0 <= d.prev && code == d.next && code < MAX_CODES then
      var s := Str(d, d.prev) + [Str(d, d.prev)[0]];
      Emits(s, Grow(d, s).(prev := code))
    else Refuses
  }

  lemma FreshOk(literalWidth: nat)
    requires 2 <= literalWidth <= 8
    ensures Ok(Fresh(literalWidth))
  {
    Pow2Values();
    Pow2Mono(literalWidth, 8);
  }

  lemma ReactOk(d: Dictionary, code: nat)
    requires Ok(d)
    ensures React(d, code).Emits? ==> React(d, code).out != [] && Ok(React(d, code).after)
    ensures React(d, code).Emits? ==> React(d, code).after.literalWidth == d.literalWidth
    ensures React(d, code).Clears? ==> Ok(React(d, code).emptied)
  {
    FreshOk(d.literalWidth);
    hide Pow2;
  }

  /** What a whole stream of bits decodes to. */
  function Run(d: Dictionary, bits: seq<bool>): Result
    requires Ok(d)
    decreases |bits|
  {
    if |bits| < d.width then Result([], Incomplete)
    else
      var r := React(d, ToNat(bits[..d.width]));
      ReactOk(d, ToNat(bits[..d.width]));
      match r
      case Emits(s, d') => Prepend(s, Run(d', bits[d.width..]))
      case Clears(d') => Run(d', bits[d.width..])
      case Ends => Result([], Ended)
      case Refuses => Result([], BadCode)
  }

  function Prepend(s: seq<Byte>, r: Result): Result { r.(out := s + r.out) }

  // ---------------- What remains to be decoded

  /** Whatever bits follow, decoding everything fed so far and then those bits gives `sofar`
      and then what dictionary d decodes from the held bits and those bits. */
  ghost predicate Resumes(literalWidth: nat, fed: seq<Byte>, sofar: seq<Byte>, d: Dictionary, held: seq<bool>)
    requires Ok(d) && 2 <= literalWidth <= 8
  {
    forall more: seq<bool> :: Whole(literalWidth, fed, more) == Prepend(sofar, Run(d, held + more))
  }

  /** What the input decodes to. */
  ghost function Decoded(literalWidth: nat, fed: seq<Byte>): Result
    requires 2 <= literalWidth <= 8
  {
    FreshOk(literalWidth);
    Run(Fresh(literalWidth), Stream(fed))
  }

  ghost function Whole(literalWidth: nat, fed: seq<Byte>, more: seq<bool>): Result
    requires 2 <= literalWidth <= 8
  {
    FreshOk(literalWidth);
    Run(Fresh(literalWidth), Stream(fed) + more)
  }

  lemma ResumesAtStart(literalWidth: nat)
    requires 2 <= literalWidth <= 8 && Ok(Fresh(literalWidth))
    ensures Resumes(literalWidth, [], [], Fresh(literalWidth), [])
  {
    forall more: seq<bool> ensures Whole(literalWidth, [], more) == Prepend([], Run(Fresh(literalWidth), [] + more)) {
      assert Stream([]) + more == [] + more;
      assert [] + Run(Fresh(literalWidth), [] + more).out == Run(Fresh(literalWidth), [] + more).out;
    }
  }

  lemma ResumesFed(literalWidth: nat, fed: seq<Byte>, sofar: seq<Byte>, d: Dictionary, held: seq<bool>, b: Byte)
    requires Ok(d) && 2 <= literalWidth <= 8
    requires Resumes(literalWidth, fed, sofar, d, held)
    ensures Resumes(literalWidth, fed + [b], sofar, d, held + BitsOf(b, 8))
  {
    hide Run, BitsOf, Ok;
    forall more: seq<bool>
      ensures Whole(literalWidth, fed + [b], more) == Prepend(sofar, Run(d, held + BitsOf(b, 8) + more))
    {
      var next := BitsOf(b, 8);
      assert (fed + [b])[..|fed + [b]| - 1] == fed;
      Associates(Stream(fed), next, more);
      Associates(held, next, more);
      assert Whole(literalWidth, fed, next + more) == Prepend(sofar, Run(d, held + (next + more)));
    }
  }

  /** The next step depends on the held bits only, when there are enough of them. */
  lemma RunSteps(d: Dictionary, held: seq<bool>, more: seq<bool>)
    requires Ok(d) && d.width <= |held|
    ensures match React(d, ToNat(held[..d.width]))
            case Emits(s, d') => Ok(d') && Run(d, held + more) == Prepend(s, Run(d', held[d.width..] + more))
            case Clears(d') => Ok(d') && Run(d, held + more) == Run(d', held[d.width..] + more)
            case Ends => Run(d, held + more) == Result([], Ended)
            case Refuses => Run(d, held + more) == Result([], BadCode)
  {
    ReactOk(d, ToNat(held[..d.width]));
    hide React, Ok, ToNat;
    assert (held + more)[..d.width] == held[..d.width];
    assert (held + more)[d.width..] == held[d.width..] + more;
  }

  lemma ResumesEmitted(literalWidth: nat, fed: seq<Byte>, sofar: seq<Byte>, d: Dictionary, held: seq<bool>, code: nat)
    requires Ok(d) && 2 <= literalWidth <= 8
    requires Resumes(literalWidth, fed, sofar, d, held)
    requires d.width <= |held| && code == ToNat(held[..d.width]) && React(d, code).Emits?
    ensures Ok(React(d, code).after)
    ensures Resumes(literalWidth, fed, sofar + React(d, code).out, React(d, code).after, held[d.width..])
  {
    ReactOk(d, code);
    var s, d' := React(d, code).out, React(d, code).after;
    hide React, Ok, Run, Whole, ToNat;
    forall more: seq<bool>
      ensures Whole(literalWidth, fed, more) == Prepend(sofar + s, Run(d', held[d.width..] + more))
    {
      RunSteps(d, held, more);
      Associates(sofar, s, Run(d', held[d.width..] + more).out);
    }
  }

  lemma ResumesCleared(literalWidth: nat, fed: seq<Byte>, sofar: seq<Byte>, d: Dictionary, held: seq<bool>, code: nat)
    requires Ok(d) && 2 <= literalWidth <= 8
    requires Resumes(literalWidth, fed, sofar, d, held)
    requires d.width <= |held| && code == ToNat(held[..d.width]) && React(d, code).Clears?
    ensures Ok(React(d, code).emptied)
    ensures Resumes(literalWidth, fed, sofar, React(d, code).emptied, held[d.width..])
  {
    ReactOk(d, code);
    var d' := React(d, code).emptied;
    hide React, Ok, Run, Whole, ToNat;
    forall more: seq<bool>
      ensures Whole(literalWidth, fed, more) == Prepend(sofar, Run(d', held[d.width..] + more))
    {
      RunSteps(d, held, more);
    }
  }

  /** At the end of the input, at the end code and at a bad code, `sofar` is everything. */
  lemma ResumesNoMore(literalWidth: nat, fed: seq<Byte>, sofar: seq<Byte>, d: Dictionary, held: seq<bool>)
    requires Ok(d) && 2 <= literalWidth <= 8
    requires Resumes(literalWidth, fed, sofar, d, held)
    ensures Decoded(literalWidth, fed) == Prepend(sofar, Run(d, held))
    ensures |held| < d.width ==> Decoded(literalWidth, fed) == Result(sofar, Incomplete)
    ensures d.width <= |held| && React(d, ToNat(held[..d.width])).Ends? ==> Decoded(literalWidth, fed) == Result(sofar, Ended)
    ensures d.width <= |held| && React(d, ToNat(held[..d.width])).Refuses? ==> Decoded(literalWidth, fed) == Result(sofar, BadCode)
  {
    assert Stream(fed) + [] == Stream(fed);
    assert Decoded(literalWidth, fed) == Whole(literalWidth, fed, []);
    hide React, Ok, Whole, Decoded, ToNat;
    if d.width <= |held| {
      RunSteps(d, held, []);
    }
    assert held + [] == held;
    assert sofar + [] == sofar;
  }

  // ---------------- The dictionary as links

  /** The decoder's variables and tables hold dictionary d: every entry is an earlier code's
      string and one more byte. Just after a clear code `save` is the end code, whose slot is
      then written but never read. */
  ghost predicate Stores(d: Dictionary, save: nat, prev: nat, suffixes: seq<Byte>, prefixes: seq<nat>)
  {
    && Ok(d)
    && |suffixes| == MAX_CODES && |prefixes| == MAX_CODES
    && save == (if d.prev < 0 then EndCode(d.literalWidth) else d.next)
    && (0 <= d.prev ==> prev == d.prev)
    && forall e :: EndCode(d.literalWidth) < e < d.next ==> Linked(d, e, prefixes[e], suffixes[e])
  }

  /** The link of entry e goes to a smaller code, never to the clear code or the end code. */
  ghost predicate Linked(d: Dictionary, e: nat, prefix: nat, suffix: Byte)
    requires Ok(d) && EndCode(d.literalWidth) < e < d.next
  {
    && prefix < e
    && Known(d, prefix)
    && d.strings[e] == Str(d, prefix) + [suffix]
  }

  lemma FollowLink(d: Dictionary, save: nat, prev: nat, suffixes: seq<Byte>, prefixes: seq<nat>, code: nat)
    requires Stores(d, save, prev, suffixes, prefixes)
    requires Known(d, code) && ClearCode(d.literalWidth) <= code
    ensures 2 < code < MAX_CODES
    ensures prefixes[code] < code && Known(d, prefixes[code])
    ensures Str(d, code) == Str(d, prefixes[code]) + [suffixes[code]]
  {
    assert Linked(d, code, prefixes[code], suffixes[code]);
  }

  lemma StrOfLiteral(d: Dictionary, code: nat)
    requires Ok(d) && code < ClearCode(d.literalWidth)
    ensures code < 256 && Known(d, code) && Str(d, code) == [code]
  {
  }

  lemma LinkedAfter(d: Dictionary, d': Dictionary, e: nat, prefix: nat, suffix: Byte)
    requires Ok(d) && Ok(d') && EndCode(d.literalWidth) < e < d.next <= d'.next
    requires d'.literalWidth == d.literalWidth
    requires forall x :: EndCode(d.literalWidth) < x < d.next ==> d'.strings[x] == d.strings[x]
    requires Linked(d, e, prefix, suffix)
    ensures Linked(d', e, prefix, suffix)
  {
  }

  /** Saving the entry, moving `save` and `width` on and remembering the code keeps the
      variables in step with the dictionary. */
  lemma StoresAfter(d: Dictionary, save: nat, prev: nat, suffixes: seq<Byte>, prefixes: seq<nat>, code: nat)
    requires Stores(d, save, prev, suffixes, prefixes) && React(d, code).Emits?
    ensures var r := React(d, code);
            var full := save >= MAX_CODES;
            && Stores(r.after, if full then save else save + 1, code,
                      if full then suffixes else suffixes[save := r.out[0]],
                      if full then prefixes else prefixes[save := prev])
            && r.after.width == (if !full && save + 1 == Pow2(d.width) && d.width < 12 then d.width + 1 else d.width)
  {
    ReactOk(d, code);
    var r := React(d, code);
    var d' := r.after;
    if d.prev < 0 {
      assert d' == d.(prev := code);
      WidthAfterClear(d);
    } else {
      var full := save >= MAX_CODES;
      var s' := if full then suffixes else suffixes[save := r.out[0]];
      var p' := if full then prefixes else prefixes[save := prev];
      forall e | EndCode(d.literalWidth) < e < d'.next ensures Linked(d', e, p'[e], s'[e]) {
        if e < d.next {
          LinkedAfter(d, d', e, prefixes[e], suffixes[e]);
        } else {
          assert e == save;
          assert d'.strings[e] == Str(d, d.prev) + [r.out[0]];
          assert Str(d', d.prev) == Str(d, d.prev);
        }
      }
    }
  }

  /** The first code after a clear code never lengthens the codes. */
  lemma WidthAfterClear(d: Dictionary)
    requires Ok(d) && d.prev < 0
    ensures EndCode(d.literalWidth) + 1 < Pow2(d.width)
  {
    Pow2Mono(d.literalWidth + 1, d.width);
    Pow2Mono(2, d.literalWidth);
    Pow2Values();
  }

  // ---------------- The decoder

  datatype Status = StatusOk | ShortRead | ShortWrite | ChainIsCyclical | CodeOutOfRange

  /** What comes after a code is taken. */
  datatype Next = Write | Again | Stop(status: Status)

  class Decoder {
    const literalWidth: nat
    const suffixes: array<Byte>
    const prefixes: array<nat>
    const stack: array<Byte>

    /** Where the coroutine resumes, and the variables that live across a suspension. */
    var point: nat
    var saveCode: nat
    var prevCode: nat
    var width: nat
    var bits: nat
    var nBits: nat
    var code: nat
    var s: nat
    var c: nat

    /** All input consumed and all output written since the stream began. */
    ghost var fed: seq<Byte>
    ghost var emitted: seq<Byte>

    /** The dictionary the tables hold, and the bits read but not yet used. */
    ghost var dict: Dictionary
    ghost var held: seq<bool>

    constructor (literalWidth: nat)
      requires 2 <= literalWidth <= 8
      ensures Valid() && point == 0 && this.literalWidth == literalWidth
      ensures fresh(suffixes) && fresh(prefixes) && fresh(stack)
    {
      this.literalWidth := literalWidth;
      suffixes, prefixes, stack := new Byte[MAX_CODES](_ => 0), new nat[MAX_CODES](_ => 0), new Byte[MAX_CODES](_ => 0);
      point, saveCode, prevCode, width, bits, nBits, code, s, c := 0, 0, 0, 0, 0, 0, 0, 0, 0;
      fed, emitted, dict, held := [], [], Fresh(literalWidth), [];
    }

    ghost predicate Shaped()
      reads this
    {
      && 2 <= literalWidth <= 8
      && suffixes.Length == MAX_CODES && prefixes.Length == MAX_CODES && stack.Length == MAX_CODES
      && suffixes != stack
    }

    /** The variables between two codes. */
    ghost predicate Ready()
      reads this, suffixes, prefixes
    {
      && Shaped()
      && Stores(dict, saveCode, prevCode, suffixes[..], prefixes[..])
      && Ok(dict) && dict.literalWidth == literalWidth
      && 1 <= width == dict.width <= 12
      && Holding(bits, nBits, held) && nBits < width + 8
    }

    /** The current code has been taken from the bits; its bytes are being written. */
    ghost predicate Writing()
      reads this, suffixes, prefixes, stack
    {
      && Ready() && nBits < 8 && React(dict, code).Emits?
      && (point == 2 || point == 3)
      && (if point == 2 then code < 256 && React(dict, code).out[0] == code else s < MAX_CODES && c < 256 && c == React(dict, code).out[0])
      && var pending := if point == 2 then [code] else stack[s..];
         Ok(React(dict, code).after) && Resumes(literalWidth, fed, emitted + pending, React(dict, code).after, held)
    }

    ghost predicate Reading()
      reads this, suffixes, prefixes
    {
      Ready() && Resumes(literalWidth, fed, emitted, dict, held)
    }

    ghost predicate Valid()
      reads this, suffixes, prefixes, stack
    {
      && Shaped() && point <= 3
      && (point == 1 ==> Reading())
      && (point >= 2 ==> Writing())
    }

    /** A new stream: the code before the first one counts as a clear code. */
    method Start()
      requires Shaped()
      modifies this
      ensures Reading() && fed == [] && emitted == [] && nBits == 0
    {
      FreshOk(literalWidth);
      ResumesAtStart(literalWidth);
      saveCode, prevCode, width, bits, nBits := EndCode(literalWidth), 0, literalWidth + 1, 0, 0;
      fed, emitted, dict, held := [], [], Fresh(literalWidth), [];
    }

    /** Reads bytes until there are enough bits for a code, or there is no more input. */
    method Fill(src: seq<Byte>, ri: nat) returns (ri': nat)
      requires Reading() && ri <= |src|
      modifies this`bits, this`nBits, this`fed, this`held
      ensures Reading() && ri <= ri' <= |src| && fed == old(fed) + src[ri..ri']
      ensures nBits < width ==> ri' == |src|
      ensures 8 * ri + nBits == 8 * ri' + old(nBits)
    {
      hide Stores, Ok, Resumes, BitsOf, ToNat;
      ri' := ri;
      while nBits < width && ri' < |src|
        invariant Reading() && ri <= ri' <= |src| && fed == old(fed) + src[ri..ri']
        invariant 8 * ri + nBits == 8 * ri' + old(nBits)
      {
        ResumesFed(literalWidth, fed, emitted, dict, held, src[ri']);
        bits, nBits := AppendByte(bits, nBits, src[ri'], held);
        fed, held := fed + [src[ri']], held + BitsOf(src[ri'], 8);
        ri' := ri' + 1;
      }
    }

    /** Takes one code from the bits. */
    method TakeCode()
      requires Ready() && width <= nBits
      modifies this`bits, this`nBits, this`held, this`code
      ensures Ready() && nBits < 8 && nBits + width == old(nBits)
      ensures code < MAX_CODES && code == ToNat(old(held)[..width]) && held == old(held)[width..]
    {
      hide Stores, Ok, ToNat;
      ToNatBound(held[..width]);
      Pow2Mono(width, 12);
      Pow2Twelve();
      code, bits, nBits := TakeBits(bits, nBits, width, held);
      held := held[width..];
    }

    /** Follows the links from code `first`, putting its string on the stack down from
        `bottom`. Links go to smaller codes, so the stack never runs out. */
    method Unwind(first: nat, bottom: nat) returns (cyclical: bool)
      requires Ready() && Known(dict, first) && first < MAX_CODES
      requires 4094 <= bottom < MAX_CODES
      modifies this`s, this`c, stack
      ensures !cyclical && s <= bottom
      ensures stack[s..bottom + 1] == Str(dict, first) && c == Str(dict, first)[0]
    {
      hide Stores, Ok, Known, Str, ClearCode, EndCode, Pow2, ToNat;
      ghost var suffixes0, prefixes0 := suffixes[..], prefixes[..];
      s, c := bottom, first;
      while c >= ClearCode(literalWidth)
        invariant c <= first && s <= bottom && bottom + c <= s + first && Known(dict, c)
        invariant Str(dict, first) == Str(dict, c) + stack[s + 1..bottom + 1]
        invariant suffixes[..] == suffixes0 && prefixes[..] == prefixes0
      {
        FollowLink(dict, saveCode, prevCode, suffixes0, prefixes0, c);
        stack[s] := suffixes[c];
        if s == 0 {
          assert false;
          return true;
        }
        assert stack[s..bottom + 1] == [suffixes[c]] + stack[s + 1..bottom + 1];
        s := s - 1;
        c := prefixes[c];
      }
      StrOfLiteral(dict, c);
      stack[s] := c;
      assert stack[s..bottom + 1] == [stack[s]] + stack[s + 1..bottom + 1];
      cyclical := false;
    }

    /** Puts the current code's string at the end of the stack, from the links: the error for
        a chain of links that never ends is never returned. */
    method Expand() returns (cyclical: bool)
      requires Ready() && EndCode(literalWidth) < code <= saveCode && code < MAX_CODES
      modifies this`s, this`c, stack
      ensures !cyclical
      ensures React(dict, code).Emits?
      ensures s < MAX_CODES && stack[s..] == React(dict, code).out && c == React(dict, code).out[0]
    {
      if code == saveCode {
        cyclical := Unwind(prevCode, 4094);
        stack[4095] := c;
      } else {
        cyclical := Unwind(code, 4095);
      }
    }

    /** Writes as much of the pending bytes as there is room for. */
    method Deliver(room: nat) returns (out: seq<Byte>, done: bool)
      requires Writing()
      modifies this`s, this`emitted
      ensures |out| <= room && emitted == old(emitted) + out
      ensures done ==> Ready() && nBits < 8 && React(dict, code).Emits? && Ok(React(dict, code).after)
      ensures done ==> Resumes(literalWidth, fed, emitted, React(dict, code).after, held)
      ensures done ==> 0 <= (if point == 2 then code else c) < 256
      ensures done ==> (if point == 2 then code else c) == React(dict, code).out[0]
      ensures !done ==> Writing() && |out| == room
    {
      hide Stores, Ok, React, Resumes, Holding, And;
      if point == 2 {
        done := room > 0;
        out := if room > 0 then [code] else [];
        assert done || emitted + out == emitted;
      } else {
        var n := if room < MAX_CODES - s then room else MAX_CODES - s;
        out := stack[s..s + n];
        done := n == MAX_CODES - s;
        if done {
          assert out == stack[s..];
        } else {
          MaskStack(s, n);
          assert emitted + stack[s..] == (emitted + out) + stack[s + n..];
          s := AndNat(s + AndNat(n, 4095), 4095);
        }
      }
      emitted := emitted + out;
    }

    /** Saves the next entry and moves on to the next code. */
    method Save(first: Byte)
      requires Ready() && nBits < 8 && React(dict, code).Emits? && Ok(React(dict, code).after)
      requires Resumes(literalWidth, fed, emitted, React(dict, code).after, held)
      requires first == React(dict, code).out[0]
      modifies this`saveCode, this`prevCode, this`width, this`dict, suffixes, prefixes
      ensures Reading()
    {
      StoresAfter(dict, saveCode, prevCode, suffixes[..], prefixes[..], code);
      ReactOk(dict, code);
      ghost var after := React(dict, code).after;
      if saveCode <= 4095 {
        suffixes[saveCode] := first;
        prefixes[saveCode] := prevCode;
      }
      if saveCode <= 4095 {
        saveCode := saveCode + 1;
        if saveCode == Pow2(width) && width < 12 {
          width := width + 1;
        }
      }
      prevCode := code;
      dict := after;
    }

    /** What is promised of a call that returns with this status. */
    ghost predicate Stopped(status: Status)
      reads this, suffixes, prefixes, stack
    {
      && Shaped()
      && match status
         case StatusOk => Decoded(literalWidth, fed) == Result(emitted, Ended) && Valid() && point == 0
         case ShortRead => Decoded(literalWidth, fed) == Result(emitted, Incomplete) && Valid() && point == 1
         case ShortWrite => emitted < Decoded(literalWidth, fed).out && Valid() && point >= 2
         case CodeOutOfRange => Decoded(literalWidth, fed) == Result(emitted, BadCode)
         case ChainIsCyclical => false
    }

    lemma StillPending()
      requires Writing()
      ensures Stopped(ShortWrite)
    {
      var pending := if point == 2 then [code] else stack[s..];
      ResumesNoMore(literalWidth, fed, emitted + pending, React(dict, code).after, held);
      hide Stores, Ok, React, Resumes, Holding;
      assert emitted < emitted + pending;
    }

    /** Writes the current code's bytes and moves on, unless there is too little room. */
    method Finish(room: nat) returns (out: seq<Byte>, done: bool)
      requires Writing()
      modifies this`s, this`emitted, this`saveCode, this`prevCode, this`width, this`dict, suffixes, prefixes
      ensures |out| <= room && emitted == old(emitted) + out
      ensures done ==> Reading()
      ensures !done ==> Stopped(ShortWrite) && |out| == room
    {
      hide Stores, Ok, React, Resumes, Decoded, Holding;
      out, done := Deliver(room);
      if done {
        Save(if point == 2 then code else c);
      } else {
        StillPending();
      }
    }

    /** Takes a code and acts on it, up to the writing of its bytes. */
    method Dispatch() returns (next: Next)
      requires Reading() && width <= nBits
      modifies this, stack
      ensures fed == old(fed) && emitted == old(emitted) && nBits < old(nBits)
      ensures match next
              case Write => Writing()
              case Again => Reading()
              case Stop(status) => Stopped(status) && (status.StatusOk? || status.CodeOutOfRange?)
    {
      hide Stores, Ok, React, Resumes, Decoded, ToNat;
      ResumesNoMore(literalWidth, fed, emitted, dict, held);
      ghost var held0 := held;
      TakeCode();
      Classify(dict, saveCode, prevCode, suffixes[..], prefixes[..], code);
      if code < ClearCode(literalWidth) {
        ResumesEmitted(literalWidth, fed, emitted, dict, held0, code);
        point := 2;
        return Write;
      } else if code == ClearCode(literalWidth) {
        ResumesCleared(literalWidth, fed, emitted, dict, held0, code);
        StoresFresh(literalWidth, suffixes[..], prefixes[..]);
        saveCode, prevCode, width := EndCode(literalWidth), 0, literalWidth + 1;
        dict := Fresh(literalWidth);
        return Again;
      } else if code == EndCode(literalWidth) {
        point := 0;
        return Stop(StatusOk);
      } else if code <= saveCode {
        ResumesEmitted(literalWidth, fed, emitted, dict, held0, code);
        var cyclical := Expand();
        if cyclical {
          assert false;
        }
        point := 3;
        return Write;
      } else {
        return Stop(CodeOutOfRange);
      }
    }

    /** One round of the main loop. */
    method Step(src: seq<Byte>, ri: nat, room: nat) returns (ri': nat, out: seq<Byte>, stop: bool, status: Status)
      requires Reading() && ri <= |src|
      modifies this, suffixes, prefixes, stack
      ensures ri <= ri' <= |src| && fed == old(fed) + src[ri..ri']
      ensures |out| <= room && emitted == old(emitted) + out
      ensures !stop ==> Reading() && 8 * ri + nBits < 8 * ri' + old(nBits)
      ensures stop ==> Stopped(status)
      ensures stop && status.ShortRead? ==> ri' == |src|
      ensures stop && status.ShortWrite? ==> |out| == room
    {
      hide Stores, Ok, React, Resumes, Decoded, ToNat, Writing;
      out, stop, status := [], true, ShortRead;
      ri' := Fill(src, ri);
      if nBits < width {
        ResumesNoMore(literalWidth, fed, emitted, dict, held);
        point := 1;
        return;
      }
      var next := Dispatch();
      match next {
        case Write =>
          var done;
          out, done := Finish(room);
          stop, status := !done, ShortWrite;
        case Again =>
          stop := false;
        case Stop(why) =>
          status := why;
      }
    }

    /** The main loop. */
    method Loop(src: seq<Byte>, room: nat) returns (ri: nat, out: seq<Byte>, status: Status)
      requires Reading()
      modifies this, suffixes, prefixes, stack
      ensures ri <= |src| && fed == old(fed) + src[..ri]
      ensures |out| <= room && emitted == old(emitted) + out
      ensures Stopped(status)
      ensures status.ShortRead? ==> ri == |src|
      ensures status.ShortWrite? ==> |out| == room
    {
      hide Stopped, Reading;
      var stop;
      ri, out, stop, status := Step(src, 0, room);
      while !stop
        invariant ri <= |src| && fed == old(fed) + src[..ri]
        invariant |out| <= room && emitted == old(emitted) + out
        invariant !stop ==> Reading()
        invariant stop ==> Stopped(status)
        invariant stop && status.ShortRead? ==> ri == |src|
        invariant stop && status.ShortWrite? ==> |out| == room
        decreases if stop then 0 else 1 + 8 * (|src| - ri) + nBits
      {
        var ri', more;
        ri', more, stop, status := Step(src, ri, room - |out|);
        assert old(fed) + src[..ri] + src[ri..ri'] == old(fed) + src[..ri'];
        Associates(old(emitted), out, more);
        ri, out := ri', out + more;
      }
    }

    /** One call: consumes src[..ri] and writes `out`, which fits the room there is. Whatever
        the sizes of the buffers in this and the earlier calls, the output so far is what the
        input so far decodes to. */
    method Decode(src: seq<Byte>, room: nat) returns (ri: nat, out: seq<Byte>, status: Status)
      requires Valid()
      modifies this, suffixes, prefixes, stack
      ensures ri <= |src| && fed == (if old(point) == 0 then [] else old(fed)) + src[..ri]
      ensures |out| <= room && emitted == (if old(point) == 0 then [] else old(emitted)) + out
      ensures Stopped(status)
      ensures status.ShortRead? ==> ri == |src|
      ensures status.ShortWrite? ==> |out| == room
    {
      hide Ready, Writing, Resumes, Stopped;
      ri, out, status := 0, [], ShortWrite;
      if point == 0 {
        Start();
      } else if point >= 2 {
        var done;
        out, done := Finish(room);
        if !done {
          return;
        }
      }
      var more;
      ri, more, status := Loop(src, room - |out|);
      out := out + more;
    }
  }

  /** How the decoder's comparisons tell the cases apart. */
  lemma Classify(d: Dictionary, save: nat, prev: nat, suffixes: seq<Byte>, prefixes: seq<nat>, code: nat)
    requires Stores(d, save, prev, suffixes, prefixes) && code < MAX_CODES
    ensures code < ClearCode(d.literalWidth) ==> code < 256 && React(d, code).Emits? && React(d, code).out == [code]
    ensures code == ClearCode(d.literalWidth) ==> React(d, code) == Clears(Fresh(d.literalWidth))
    ensures code == EndCode(d.literalWidth) ==> React(d, code).Ends?
    ensures EndCode(d.literalWidth) < code <= save ==> React(d, code).Emits?
    ensures ClearCode(d.literalWidth) <= code && EndCode(d.literalWidth) != code && save < code ==> React(d, code).Refuses?
  {
  }

  lemma StoresFresh(literalWidth: nat, suffixes: seq<Byte>, prefixes: seq<nat>)
    requires 2 <= literalWidth <= 8 && |suffixes| == MAX_CODES && |prefixes| == MAX_CODES
    ensures Stores(Fresh(literalWidth), EndCode(literalWidth), 0, suffixes, prefixes)
  {
    FreshOk(literalWidth);
  }

  lemma MaskStack(s: nat, n: nat)
    requires s + n < MAX_CODES
    ensures AndNat(s + AndNat(n, 4095), 4095) == s + n
  {
    Pow2Twelve();
    MaskNoop(n, 12);
    MaskNoop(s + n, 12);
  }

  lemma Pow2Twelve()
    ensures Pow2(12) == 4096
  {
    Pow2Values();
    Pow2Add(8, 4);
  }
}
