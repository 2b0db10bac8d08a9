/** Whole runs of the decoder: a caller that keeps calling decode until it stops asking for more,
    with input and room in pieces of any size (gen/c/std/deflate.c:872-1024). */
module Sessions {
  import opened Words
  import opened BitStream
  import opened Inflate
  import HuffFast
  import opened Deflate

  /** How much input to add and how much room to give at each call. */
  datatype Schedule = Schedule(supply: nat -> nat, room: nat -> nat)

  ghost predicate ScheduleOk(sched: Schedule) { forall i :: sched.room(i) > 0 }

  /** What the caller ends up with, whatever the schedule. */
  ghost predicate Concludes(input: seq<Byte>, status: Status, out: seq<Byte>)
  {
    match status
    case Finished => Decoded(input).out == out && Decoded(input).verdict.Done?
    case ShortRead => Decoded(input) == Inflate.Outcome(out, Incomplete)
    case ShortWrite => false
    case Fails(v) => Decoded(input) == Inflate.Outcome(out, v) && !v.Done? && v != Incomplete
  }

  lemma DecodedMore(input: seq<Byte>, n: nat)
    requires n <= |input|
    ensures var r, r' := Decoded(input[..n]), Decoded(input);
            match r.verdict
            case Incomplete => r.out <= r'.out
            case Done(rest) => r' == Inflate.Outcome(r.out, Done(rest + Stream(input[n..])))
            case _ => r' == r
  {
    hide Run, Stream;
    HuffFast.StreamLength(input[n..]);
    RunMore(Feed(START, input[..n]), Stream(input[n..]));
    FeedTwice(START, input[..n], input[n..]);
    assert input[..n] + input[n..] == input;
  }

  /** A stop is final, and what has been written is part of what the input decodes to. */
  lemma StopIsFinal(input: seq<Byte>, n: nat, status: Status, st: State, rest: seq<Byte>, out: seq<Byte>)
    requires n <= |input| && Tells(status, st, input[..n], rest, out)
    ensures out <= Decoded(input).out
    ensures status == Status.Finished || status.Fails? || (status == Status.ShortRead && n == |input|) ==>
              Concludes(input, status, out)
  {
    hide Decoded, Stream, BitsOf;
    DecodedMore(input, n);
    if n == |input| {
      assert input[..n] == input;
    }
  }

  /** One call, with n more bytes of the input and some room. */
  method OneCall(d: Decoder, input: seq<Byte>, ghost given: nat, pending: seq<Byte>, more: seq<Byte>, out: seq<Byte>, room: nat)
    returns (status: Status, pending': seq<Byte>, out': seq<Byte>)
    requires given + |more| <= |input| && more == input[given..given + |more|] && room > 0
    requires d.Valid() && d.supplied == input[..given] && d.unread == pending && d.produced == out
    modifies d, d.tables.codeLengths, d.tables.huffs0, d.tables.huffs1, d.ring, d.ring.history
    ensures d.supplied == input[..given + |more|] && d.unread == pending' && d.produced == out'
    ensures |out| <= |out'| && out' <= Decoded(input).out
    ensures status == Status.ShortRead || status == Status.ShortWrite ==> d.Valid()
    ensures status == Status.ShortWrite ==> |out| < |out'|
    ensures status == Status.Finished || status.Fails? || (status == Status.ShortRead && given + |more| == |input|) ==>
              Concludes(input, status, out')
  {
    hide Tells, Leads, Stands, Decoded;
    var buf := new Byte[room](_ => 0);
    var src := pending + more;
    var ri, wi;
    ri, wi, status := d.Decode(buf, 0, room, src);
    assert src[|pending|..] == more;
    assert input[..given] + more == input[..given + |more|];
    pending', out' := src[ri..], out + buf[..wi];
    StopIsFinal(input, given + |more|, status, d.state, d.unread, out');
  }

  /** How much to add: something, after a short read, unless there is nothing left. */
  function Amount(want: nat, left: nat, status: Status): (n: nat)
    ensures n <= left && (status == Status.ShortRead && left > 0 ==> n > 0)
  {
    var n := if want == 0 && status == Status.ShortRead then 1 else want;
    if n > left then left else n
  }

  /** The whole input is decoded, with at most one short write for each byte of output: the calls
      always come to an end, and what they end in does not depend on the schedule. */
  method DecodeAll(input: seq<Byte>, sched: Schedule) returns (status: Status, out: seq<Byte>, shortWrites: nat)
    requires ScheduleOk(sched)
    ensures Concludes(input, status, out)
    ensures shortWrites <= |out|
  {
    hide Concludes, Decoded, Stands, Leads;
    var d := new Decoder();
    var given: nat, pending, calls := 0, [], 0;
    status, out, shortWrites := Status.ShortRead, [], 0;
    assert input[..0] == [];
    while true
      invariant given <= |input| && d.Valid() && fresh(d) && fresh(d.ring) && fresh(d.ring.history)
      invariant fresh(d.tables.huffs0) && fresh(d.tables.huffs1) && fresh(d.tables.codeLengths)
      invariant d.supplied == input[..given] && d.unread == pending && d.produced == out
      invariant status == Status.ShortRead || status == Status.ShortWrite
      invariant shortWrites <= |out| <= |Decoded(input).out|
      invariant calls > 0 && status == Status.ShortRead ==> given < |input|
      decreases |input| - given + |Decoded(input).out| - |out|, if calls == 0 then 2 else if status == Status.ShortWrite then 1 else 0
    {
      var n := Amount(sched.supply(calls), |input| - given, status);
      status, pending, out := OneCall(d, input, given, pending, input[given..given + n], out, sched.room(calls));
      given, calls := given + n, calls + 1;
      if status == Status.ShortWrite {
        shortWrites := shortWrites + 1;
      } else if status != Status.ShortRead || given == |input| {
        return;
      }
    }
  }
}
