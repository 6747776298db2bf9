/**
 * Assembling a reply from datagrams (common/netlink/netlink.cpp, Netlink::rcv)
 * and walking it with the reader's hasMessage / fetchNextMessage loop.
 */
module Netlinks {
  import opened Bytes
  import opened NetlinkMessages
  import opened NetlinkResponses

  const RCV_GOOD_SIZE: nat := 8192   // 2 * PAGE_SIZE
  const NLMSG_ERROR: nat := 2
  const NLMSG_OVERRUN: nat := 4

  datatype RcvError = CantReceive | Mismatched | Refused | DataLost | NoData | Waiting

  datatype Received<+T> = Got(value: T) | Failed(error: RcvError) {
    predicate IsFailure() { Failed? }
    function PropagateFailure<U>(): Received<U>
      requires Failed?
    {
      Failed(error)
    }
    function Extract(): T
      requires Got?
    {
      value
    }
  }

  /** What one recvmsg call brings: a datagram, or one of the conditions it refuses. */
  datatype Event = Datagram(bytes: seq<Byte>) | Broken

  function HeaderSeq(buf: seq<Byte>, hdr: nat): nat
    requires hdr + HDRLEN <= |buf|
  {
    Get32(buf, hdr + 8)
  }

  /** The flags say that more parts follow: NLM_F_MULTI. */
  predicate IsMulti(buf: seq<Byte>, hdr: nat)
    requires hdr + HDRLEN <= |buf|
  {
    Get16(buf, hdr + 6) / 2 % 2 == 1
  }

  /** Whole words, at most the receive size, and every error message carries its code. */
  predicate Sane(d: seq<Byte>) {
    |d| % 4 == 0 && 0 < |d| <= RCV_GOOD_SIZE && CodesFrom(d, 0)
  }

  function Next(d: seq<Byte>, at: nat): nat
    requires MessageOk(d, at)
  {
    at + Align4(Get32(d, at))
  }

  predicate CodesFrom(d: seq<Byte>, at: nat)
    decreases |d| - at
  {
    MessageOk(d, at) ==>
      (MessageType(d, at) == NLMSG_ERROR ==> Get32(d, at) >= HDRLEN + 4) && CodesFrom(d, Next(d, at))
  }

  /** What one message does to the loop: an error or nothing. */
  function Verdict(d: seq<Byte>, at: nat, nlmsgSeq: nat): Received<()>
    requires MessageOk(d, at)
    requires MessageType(d, at) == NLMSG_ERROR ==> Get32(d, at) >= HDRLEN + 4
  {
    if MessageType(d, at) == NLMSG_ERROR then
      if HeaderSeq(d, at) != nlmsgSeq then Failed(Mismatched)
      else if Get32(d, at + HDRLEN) != 0 then Failed(Refused)
      else Got(())
    else if MessageType(d, at) == NLMSG_OVERRUN then Failed(DataLost)
    else Got(())
  }

  /** Whether the last complete message asks for another datagram. */
  predicate MoreAfter(d: seq<Byte>, hdr: nat)
    requires hdr + HDRLEN <= |d|
  {
    MessageType(d, hdr) != NLMSG_DONE && IsMulti(d, hdr)
  }

  /** Checks the messages from `at` on; the result is whether another datagram is to follow. */
  function Scan(d: seq<Byte>, at: nat, nlmsgSeq: nat, more: bool): Received<bool>
    requires CodesFrom(d, at)
    decreases |d| - at
  {
    if !MessageOk(d, at) then Got(more)
    else
      var _ :- Verdict(d, at, nlmsgSeq);
      Scan(d, Next(d, at), nlmsgSeq, MoreAfter(d, at))
  }

  /** The events a caller may see: later datagrams start with a complete message. */
  predicate Stream(input: seq<Event>) {
    forall i :: 0 <= i < |input| && input[i].Datagram? ==>
      Sane(input[i].bytes) && (i > 0 ==> MessageOk(input[i].bytes, 0))
  }

  function Receive(input: seq<Event>, nlmsgSeq: nat, sofar: seq<Byte>): Received<seq<Byte>>
    requires forall e :: e in input && e.Datagram? ==> CodesFrom(e.bytes, 0)
    decreases input
  {
    if input == [] then Failed(Waiting)
    else if input[0].Broken? then Failed(CantReceive)
    else
      var d := input[0].bytes;
      var more :- Scan(d, 0, nlmsgSeq, false);
      if sofar == [] && !MessageOk(d, 0) then Failed(NoData)
      else if more then Receive(input[1..], nlmsgSeq, sofar + d)
      else Got(sofar + d)
  }

  // ---------------------------------------------------------------- messages of a buffer

  /** The messages from `at` on, padding dropped. */
  function Messages(buf: seq<Byte>, at: nat): seq<seq<Byte>>
    decreases |buf| - at
  {
    if !MessageOk(buf, at) then []
    else [buf[at..at + Get32(buf, at)]] + Messages(buf, Next(buf, at))
  }

  /** From `at` on the buffer is nothing but complete messages. */
  predicate Whole(buf: seq<Byte>, at: nat)
    decreases |buf| - at
  {
    at == |buf| || (MessageOk(buf, at) && Whole(buf, Next(buf, at)))
  }

  function PayloadSize(m: seq<Byte>): int {
    |m| - HDRLEN
  }

  function TypeOf(m: seq<Byte>): nat
    requires |m| >= HDRLEN
  {
    Get16(m, 4)
  }

  lemma SliceFields(buf: seq<Byte>, at: nat)
    requires MessageOk(buf, at)
    ensures var m := buf[at..at + Get32(buf, at)]; |m| == Get32(buf, at) && TypeOf(m) == MessageType(buf, at)
  {
  }

  /** A field keeps its value when bytes are put before and after the buffer. */
  lemma FieldsKeep(buf: seq<Byte>, before: seq<Byte>, after: seq<Byte>, at: nat)
    requires at + 4 <= |buf|
    ensures Get16(before + buf + after, |before| + at) == Get16(buf, at)
    ensures Get32(before + buf + after, |before| + at) == Get32(buf, at)
  {
    var s := before + buf + after;
    assert forall k :: 0 <= k < |buf| ==> s[|before| + k] == buf[k];
  }

  /** So does a whole message. */
  lemma MessageKeeps(buf: seq<Byte>, before: seq<Byte>, after: seq<Byte>, at: nat)
    requires MessageOk(buf, at)
    ensures var s, to := before + buf + after, |before| + at;
            && MessageOk(s, to) && Next(s, to) == |before| + Next(buf, at)
            && s[to..to + Get32(s, to)] == buf[at..at + Get32(buf, at)]
  {
    hide Get16, Get32, Align4;
    FieldsKeep(buf, before, after, at);
    var s, to, len := before + buf + after, |before| + at, Get32(buf, at);
    assert s[to..to + len] == buf[at..at + len];
  }

  lemma {:induction false} WholeAppend(a: seq<Byte>, b: seq<Byte>, at: nat)
    requires at <= |a| && at % 4 == 0 && |a| % 4 == 0 && Whole(a, at) && Whole(b, 0)
    ensures Whole(a + b, at) && Messages(a + b, at) == Messages(a, at) + Messages(b, 0)
    decreases |a| - at
  {
    hide Get32, Align4;
    if at == |a| {
      WholeShift(a, b, 0);
      assert Messages(a, at) == [];
    } else {
      MessageKeeps(a, [], b, at);
      assert [] + a + b == a + b;
      AlignInside(at, Get32(a, at), |a|);
      WholeAppend(a, b, Next(a, at));
    }
  }

  lemma {:induction false} WholeShift(a: seq<Byte>, b: seq<Byte>, at: nat)
    requires at <= |b| && Whole(b, at)
    ensures Whole(a + b, |a| + at) && Messages(a + b, |a| + at) == Messages(b, at)
    decreases |b| - at
  {
    hide Get32, Align4, Next;
    if at != |b| {
      MessageKeeps(b, a, [], at);
      assert a + b + [] == a + b;
      NextInside(b, at);
      WholeShift(a, b, Next(b, at));
    }
  }

  lemma NextInside(buf: seq<Byte>, at: nat)
    requires Whole(buf, at) && MessageOk(buf, at)
    ensures at < Next(buf, at) <= |buf| && Whole(buf, Next(buf, at))
  {
  }

  // ---------------------------------------------------------------- the walk

  /** while (hasMessage()) { use it; fetchNextMessage(); } */
  function Walk(r: Reader): Result<seq<seq<Byte>>>
    requires r.Placed()
    decreases |r.buf| - r.hdr
  {
    if !r.HasMessage() then Ok([])
    else
      var next :- r.FetchNextMessage();
      AlignInside(r.hdr, Get32(r.buf, r.hdr), |r.buf|);
      var rest :- Walk(next);
      Ok([r.buf[r.hdr..r.MessageEnd()]] + rest)
  }

  /** The same on the list of messages: stop at a payload of at most four bytes, refuse to step past DONE. */
  function WalkList(ms: seq<seq<Byte>>): Result<seq<seq<Byte>>>
    requires forall m :: m in ms ==> |m| >= HDRLEN
  {
    if ms == [] || PayloadSize(ms[0]) <= 4 then Ok([])
    else if TypeOf(ms[0]) == NLMSG_DONE then Thrown(NoNextMessage)
    else
      var rest :- WalkList(ms[1..]);
      Ok([ms[0]] + rest)
  }

  lemma {:induction false} MessagesHaveHeaders(buf: seq<Byte>, at: nat)
    ensures forall m :: m in Messages(buf, at) ==> |m| >= HDRLEN
    decreases |buf| - at
  {
    if MessageOk(buf, at) { MessagesHaveHeaders(buf, Next(buf, at)); }
  }

  /**
   * The walk never leaves the buffer and sees the buffer's messages in order,
   * whatever the buffer holds.
   */
  lemma {:induction false} WalkIsWalkList(r: Reader)
    requires r.Placed()
    ensures forall m :: m in Messages(r.buf, r.hdr) ==> |m| >= HDRLEN
    ensures Walk(r) == WalkList(Messages(r.buf, r.hdr))
    decreases |r.buf| - r.hdr
  {
    hide Get16, Get32, Align4, Messages, Walk, Next;
    MessagesHaveHeaders(r.buf, r.hdr);
    if MessageOk(r.buf, r.hdr) {
      WalkStep(r);
      WalkIsWalkList(Stepped(r));
      assert Messages(r.buf, r.hdr)[1..] == Messages(r.buf, Stepped(r).hdr);
    } else {
      NothingThere(r);
    }
  }

  lemma NothingThere(r: Reader)
    requires r.Placed() && !MessageOk(r.buf, r.hdr)
    ensures Messages(r.buf, r.hdr) == [] && Walk(r) == Ok([])
  {
  }

  /** The reader at the following message. */
  function Stepped(r: Reader): Reader
    requires MessageOk(r.buf, r.hdr)
  {
    r.(hdr := Next(r.buf, r.hdr), pos := Next(r.buf, r.hdr) + HDRLEN)
  }

  /** One turn of the walk. */
  lemma WalkStep(r: Reader)
    requires r.Placed() && MessageOk(r.buf, r.hdr)
    ensures r.hdr < Stepped(r).hdr && Stepped(r).Placed()
    ensures var m := r.buf[r.hdr..r.MessageEnd()];
            && Messages(r.buf, r.hdr) == [m] + Messages(r.buf, Stepped(r).hdr)
            && |m| >= HDRLEN
            && Walk(r) == if PayloadSize(m) <= 4 then Ok([])
                          else if TypeOf(m) == NLMSG_DONE then Thrown(NoNextMessage)
                          else match Walk(Stepped(r)) case Ok(rest) => Ok([m] + rest) case Thrown(e) => Thrown(e)
  {
    hide Get16, Get32, Align4;
    SliceFields(r.buf, r.hdr);
    AlignInside(r.hdr, Get32(r.buf, r.hdr), |r.buf|);
  }

  /** Data messages: not DONE, and more than an error code's worth of payload. */
  predicate AllData(ms: seq<seq<Byte>>) {
    forall m :: m in ms ==> PayloadSize(m) > 4 && TypeOf(m) != NLMSG_DONE
  }

  /** Data, then nothing or a DONE of at most four bytes and whatever follows it: exactly the data is visited. */
  lemma {:induction false} DataIsVisited(data: seq<seq<Byte>>, rest: seq<seq<Byte>>)
    requires AllData(data) && forall m :: m in rest ==> |m| >= HDRLEN
    requires rest == [] || PayloadSize(rest[0]) <= 4
    ensures forall m :: m in data + rest ==> |m| >= HDRLEN
    ensures WalkList(data + rest) == Ok(data)
  {
    if data == [] {
      assert data + rest == rest;
    } else {
      assert data[0] in data;
      assert (data + rest)[0] == data[0] && (data + rest)[1..] == data[1..] + rest;
      DataIsVisited(data[1..], rest);
      assert [data[0]] + data[1..] == data;
    }
  }

  // ---------------------------------------------------------------- the whole reply

  /** An acknowledgement of this request, or no NLMSG_ERROR / NLMSG_OVERRUN at all. */
  predicate Clean(m: seq<Byte>, nlmsgSeq: nat)
    requires |m| >= HDRLEN
  {
    && TypeOf(m) != NLMSG_OVERRUN
    && (TypeOf(m) == NLMSG_ERROR ==>
          |m| >= HDRLEN + 4 && Get32(m, 8) == nlmsgSeq && Get32(m, HDRLEN) == 0)
  }

  /** The message announces further parts. */
  predicate Asks(m: seq<Byte>)
    requires |m| >= HDRLEN
  {
    TypeOf(m) != NLMSG_DONE && IsMulti(m, 0)
  }

  predicate AllClean(ms: seq<seq<Byte>>, nlmsgSeq: nat) {
    forall m :: m in ms ==> |m| >= HDRLEN && Clean(m, nlmsgSeq)
  }

  lemma CleanVerdict(d: seq<Byte>, at: nat, nlmsgSeq: nat)
    requires CodesFrom(d, at) && MessageOk(d, at)
    ensures var m := d[at..at + Get32(d, at)];
            && Verdict(d, at, nlmsgSeq).Got? == Clean(m, nlmsgSeq) && MoreAfter(d, at) == Asks(m)
  {
    var m := d[at..at + Get32(d, at)];
    var before, after := d[..at], d[at + |m|..];
    assert d == before + m + after;
    FieldsKeep(m, before, after, 4);
    FieldsKeep(m, before, after, 6);
    FieldsKeep(m, before, after, 8);
    if |m| >= HDRLEN + 4 { FieldsKeep(m, before, after, HDRLEN); }
  }

  /** A datagram passes exactly when all its messages are clean, and its last message decides whether to go on. */
  lemma {:induction false} ScanReadsAll(d: seq<Byte>, at: nat, nlmsgSeq: nat, more: bool)
    requires CodesFrom(d, at)
    ensures var ms := Messages(d, at);
            && (Scan(d, at, nlmsgSeq, more).Got? <==> AllClean(ms, nlmsgSeq))
            && (AllClean(ms, nlmsgSeq) ==>
                  Scan(d, at, nlmsgSeq, more) == Got(if ms == [] then more else Asks(Last(ms))))
    decreases |d| - at
  {
    hide Get16, Get32, Align4, Verdict, Clean, MoreAfter, Asks;
    if MessageOk(d, at) {
      CleanVerdict(d, at, nlmsgSeq);
      SliceFields(d, at);
      ScanReadsAll(d, Next(d, at), nlmsgSeq, MoreAfter(d, at));
      var m, rest := d[at..at + Get32(d, at)], Messages(d, Next(d, at));
      assert Messages(d, at) == [m] + rest;
      assert rest != [] ==> Last([m] + rest) == Last(rest);
    }
  }

  /** Datagrams of complete, clean messages; every datagram but the last ends with a message that asks for more. */
  predicate Reply(ds: seq<seq<Byte>>, nlmsgSeq: nat) {
    && ds != []
    && forall i :: 0 <= i < |ds| ==>
         && Sane(ds[i]) && Whole(ds[i], 0) && AllClean(Messages(ds[i], 0), nlmsgSeq)
         && Messages(ds[i], 0) != []
         && (Asks(Last(Messages(ds[i], 0))) <==> i < |ds| - 1)
  }

  function Concat(ds: seq<seq<Byte>>): seq<Byte> {
    if ds == [] then [] else ds[0] + Concat(ds[1..])
  }

  function AllMessages(ds: seq<seq<Byte>>): seq<seq<Byte>> {
    if ds == [] then [] else Messages(ds[0], 0) + AllMessages(ds[1..])
  }

  function Events(ds: seq<seq<Byte>>): seq<Event> {
    seq(|ds|, i requires 0 <= i < |ds| => Datagram(ds[i]))
  }

  lemma {:induction false} ConcatWhole(ds: seq<seq<Byte>>)
    requires forall d :: d in ds ==> |d| % 4 == 0 && Whole(d, 0)
    ensures Whole(Concat(ds), 0) && |Concat(ds)| % 4 == 0
    ensures Messages(Concat(ds), 0) == AllMessages(ds)
  {
    hide Whole, Messages;
    if ds == [] {
      NoMessages();
    } else {
      assert ds[0] in ds && forall d :: d in ds[1..] ==> d in ds;
      var first, rest := ds[0], Concat(ds[1..]);
      ConcatWhole(ds[1..]);
      WholeAppend(first, rest, 0);
      SumAligned(|first|, |rest|);
    }
  }

  lemma NoMessages()
    ensures Whole([], 0) && Messages([], 0) == []
  {
  }

  lemma {:induction false} ReceiveConcat(ds: seq<seq<Byte>>, tail: seq<Event>, nlmsgSeq: nat, sofar: seq<Byte>)
    requires Reply(ds, nlmsgSeq)
    requires forall e :: e in tail && e.Datagram? ==> CodesFrom(e.bytes, 0)
    ensures forall e :: e in Events(ds) + tail && e.Datagram? ==> CodesFrom(e.bytes, 0)
    ensures Receive(Events(ds) + tail, nlmsgSeq, sofar) == Got(sofar + Concat(ds))
    decreases ds
  {
    hide Scan, Whole, MessageOk, CodesFrom, Messages, Clean, Asks;
    var input := Events(ds) + tail;
    assert Sane(ds[0]) && Whole(ds[0], 0);
    StartsWithMessage(ds[0]);
    ScanReadsAll(ds[0], 0, nlmsgSeq, false);
    if |ds| == 1 {
      assert Concat(ds[1..]) == [] && ds[0] + [] == ds[0];
    } else {
      forall i | 0 <= i < |ds[1..]|
        ensures Sane(ds[1..][i]) && Whole(ds[1..][i], 0)
        ensures AllClean(Messages(ds[1..][i], 0), nlmsgSeq) && Messages(ds[1..][i], 0) != []
        ensures Asks(Last(Messages(ds[1..][i], 0))) <==> i < |ds[1..]| - 1
      {
        assert ds[1..][i] == ds[i + 1];
      }
      ReceiveConcat(ds[1..], tail, nlmsgSeq, sofar + ds[0]);
      assert input[1..] == Events(ds[1..]) + tail;
      assert sofar + ds[0] + Concat(ds[1..]) == sofar + (ds[0] + Concat(ds[1..]));
    }
  }

  lemma StartsWithMessage(d: seq<Byte>)
    requires Sane(d) && Whole(d, 0)
    ensures MessageOk(d, 0) && CodesFrom(d, 0)
  {
  }

  /**
   * A multi-part reply is received whole, and the client loop visits exactly
   * its data messages, in the order they arrived, up to the DONE message.
   */
  lemma ReplyIsWalked(ds: seq<seq<Byte>>, tail: seq<Event>, nlmsgSeq: nat, data: seq<seq<Byte>>, rest: seq<seq<Byte>>)
    requires Reply(ds, nlmsgSeq) && |Concat(ds)| < INT_MAX_PLUS_1
    requires forall e :: e in tail && e.Datagram? ==> CodesFrom(e.bytes, 0)
    requires AllMessages(ds) == data + rest && AllData(data)
    requires rest == [] || PayloadSize(rest[0]) <= 4
    ensures forall e :: e in Events(ds) + tail && e.Datagram? ==> CodesFrom(e.bytes, 0)
    ensures Receive(Events(ds) + tail, nlmsgSeq, []) == Got(Concat(ds))
    ensures Reader(Concat(ds), 0, HDRLEN, []).Placed()
    ensures Walk(Reader(Concat(ds), 0, HDRLEN, [])) == Ok(data)
  {
    hide Receive, Walk, Messages, AllMessages, Whole, CodesFrom, Concat, WalkList;
    ReceiveConcat(ds, tail, nlmsgSeq, []);
    assert [] + Concat(ds) == Concat(ds);
    ConcatWhole(ds);
    var r := Reader(Concat(ds), 0, HDRLEN, []);
    WalkIsWalkList(r);
    forall m | m in rest ensures |m| >= HDRLEN { assert m in data + rest; }
    DataIsVisited(data, rest);
  }

  // ---------------------------------------------------------------- every outcome of a reception

  /** A clean datagram with a message, the last of which asks for another datagram. */
  predicate AsksOn(d: seq<Byte>, nlmsgSeq: nat) {
    var ms := Messages(d, 0);
    AllClean(ms, nlmsgSeq) && ms != [] && Asks(Last(ms))
  }

  /** A clean datagram with a message, the last of which asks for nothing. */
  predicate Ends(d: seq<Byte>, nlmsgSeq: nat) {
    var ms := Messages(d, 0);
    AllClean(ms, nlmsgSeq) && ms != [] && !Asks(Last(ms))
  }

  /** The first k events are datagrams that ask on. */
  predicate AskingPrefix(input: seq<Event>, nlmsgSeq: nat, k: nat)
    ensures AskingPrefix(input, nlmsgSeq, k) ==> k <= |input| && forall i :: 0 <= i < k ==> input[i].Datagram?
  {
    k <= |input| && forall i :: 0 <= i < k ==> input[i].Datagram? && AsksOn(input[i].bytes, nlmsgSeq)
  }

  /** The bytes of the first k datagrams. */
  function BytesOf(input: seq<Event>, k: nat): seq<Byte>
    requires k <= |input| && forall i :: 0 <= i < k ==> input[i].Datagram?
  {
    if k == 0 then [] else input[0].bytes + BytesOf(input[1..], k - 1)
  }

  lemma StreamTail(input: seq<Event>)
    requires Stream(input) && input != []
    ensures Stream(input[1..])
    ensures forall e :: e in input[1..] && e.Datagram? ==> MessageOk(e.bytes, 0)
    ensures forall e :: e in input && e.Datagram? ==> CodesFrom(e.bytes, 0)
  {
    assert forall i :: 0 <= i < |input[1..]| ==> input[1..][i] == input[i + 1];
  }

  /** What one datagram does, in terms of its messages. */
  lemma OneDatagram(input: seq<Event>, nlmsgSeq: nat, sofar: seq<Byte>)
    requires Stream(input) && input != [] && input[0].Datagram?
    ensures forall e :: e in input && e.Datagram? ==> CodesFrom(e.bytes, 0)
    ensures forall e :: e in input[1..] && e.Datagram? ==> CodesFrom(e.bytes, 0)
    ensures var d, r := input[0].bytes, Receive(input, nlmsgSeq, sofar);
            && (AsksOn(d, nlmsgSeq) ==> r == Receive(input[1..], nlmsgSeq, sofar + d))
            && (Ends(d, nlmsgSeq) ==> r == Got(sofar + d))
            && (!AllClean(Messages(d, 0), nlmsgSeq) ==>
                  Scan(d, 0, nlmsgSeq, false).Failed? && r == Failed(Scan(d, 0, nlmsgSeq, false).error))
            && (Messages(d, 0) == [] && sofar == [] ==> r == Failed(NoData))
  {
    hide Scan, CodesFrom, Clean, Asks, MessageOk;
    StreamTail(input);
    StreamCodes(input);
    assert input[1..] <= input[1..];
    forall e | e in input[1..] && e.Datagram? ensures CodesFrom(e.bytes, 0) { assert e in input; }
    var d := input[0].bytes;
    ScanReadsAll(d, 0, nlmsgSeq, false);
    MessagesStart(d);
  }

  lemma MessagesStart(d: seq<Byte>)
    ensures Messages(d, 0) != [] <==> MessageOk(d, 0)
  {
  }

  lemma StreamCodes(input: seq<Event>)
    requires Stream(input)
    ensures forall e :: e in input && e.Datagram? ==> CodesFrom(e.bytes, 0)
  {
  }

  /** Datagrams that ask on are put together, whatever follows. */
  lemma {:induction false} AskingConcat(input: seq<Event>, nlmsgSeq: nat, sofar: seq<Byte>, k: nat)
    requires Stream(input) && AskingPrefix(input, nlmsgSeq, k)
    ensures Stream(input[k..])
    ensures forall e :: e in input && e.Datagram? ==> CodesFrom(e.bytes, 0)
    ensures forall e :: e in input[k..] && e.Datagram? ==> CodesFrom(e.bytes, 0)
    ensures Receive(input, nlmsgSeq, sofar) == Receive(input[k..], nlmsgSeq, sofar + BytesOf(input, k))
    decreases k
  {
    hide Receive, AsksOn, CodesFrom, MessageOk, Stream;
    StreamCodes(input);
    if k == 0 {
      assert input[0..] == input && sofar + [] == sofar;
    } else {
      var d, rest := input[0].bytes, input[1..];
      StreamTail(input);
      OneDatagram(input, nlmsgSeq, sofar);
      assert forall i :: 0 <= i < k - 1 ==> rest[i] == input[i + 1];
      AskingConcat(rest, nlmsgSeq, sofar + d, k - 1);
      assert rest[k - 1..] == input[k..];
      assert sofar + d + BytesOf(rest, k - 1) == sofar + (d + BytesOf(rest, k - 1));
    }
  }

  /** The first k datagrams are a whole reply: all clean, all but the last asking for more. */
  predicate WholeReply(input: seq<Event>, nlmsgSeq: nat, k: nat) {
    && 1 <= k <= |input| && AskingPrefix(input, nlmsgSeq, k - 1)
    && input[k - 1].Datagram? && Ends(input[k - 1].bytes, nlmsgSeq)
  }

  lemma {:induction false} BytesOfLast(input: seq<Event>, k: nat)
    requires 0 < k <= |input| && forall i :: 0 <= i < k ==> input[i].Datagram?
    ensures BytesOf(input, k) == BytesOf(input, k - 1) + input[k - 1].bytes
    decreases k
  {
    if k > 1 {
      BytesOfLast(input[1..], k - 1);
      assert input[1..][k - 2] == input[k - 1];
    }
  }

  lemma {:induction false} GotHasReply(input: seq<Event>, nlmsgSeq: nat, sofar: seq<Byte>) returns (k: nat)
    requires Stream(input) && (sofar != [] ==> forall e :: e in input && e.Datagram? ==> MessageOk(e.bytes, 0))
    requires forall e :: e in input && e.Datagram? ==> CodesFrom(e.bytes, 0)
    requires Receive(input, nlmsgSeq, sofar).Got?
    ensures WholeReply(input, nlmsgSeq, k)
    ensures Receive(input, nlmsgSeq, sofar).value == sofar + BytesOf(input, k)
    decreases |input|
  {
    hide AllClean, Asks, CodesFrom, MessageOk, Messages, Scan;
    assert input != [] && input[0].Datagram? && input[0] in input;
    var d, rest := input[0].bytes, input[1..];
    OneDatagram(input, nlmsgSeq, sofar);
    MessagesStart(d);
    hide Receive, Stream;
    if Ends(d, nlmsgSeq) {
      k := 1;
      assert BytesOf(input, 1) == d + [] == d;
    } else {
      StreamTail(input);
      DatagramNotEmpty(input);
      var j := GotHasReply(rest, nlmsgSeq, sofar + d);
      k := j + 1;
      assert forall i :: 0 <= i < |rest| ==> rest[i] == input[i + 1];
      assert sofar + d + BytesOf(rest, j) == sofar + (d + BytesOf(rest, j));
    }
  }

  lemma DatagramNotEmpty(input: seq<Event>)
    requires Stream(input) && input != [] && input[0].Datagram?
    ensures input[0].bytes != []
  {
  }

  /**
   * A reception succeeds exactly when the stream begins with a whole reply of clean
   * messages, and then returns the bytes of that reply.
   */
  lemma {:induction false} GotExactly(input: seq<Event>, nlmsgSeq: nat, value: seq<Byte>)
    requires Stream(input)
    ensures forall e :: e in input && e.Datagram? ==> CodesFrom(e.bytes, 0)
    ensures Receive(input, nlmsgSeq, []) == Got(value)
       <==> exists k :: WholeReply(input, nlmsgSeq, k) && value == BytesOf(input, k)
  {
    hide Receive, Stream, AskingPrefix, Ends, CodesFrom;
    StreamCodes(input);
    if Receive(input, nlmsgSeq, []) == Got(value) {
      var k := GotHasReply(input, nlmsgSeq, []);
      assert WholeReply(input, nlmsgSeq, k) && value == BytesOf(input, k);
    }
    if k :| WholeReply(input, nlmsgSeq, k) && value == BytesOf(input, k) {
      ReplyIsGot(input, nlmsgSeq, k);
    }
  }

  lemma ReplyIsGot(input: seq<Event>, nlmsgSeq: nat, k: nat)
    requires Stream(input) && WholeReply(input, nlmsgSeq, k)
    ensures forall e :: e in input && e.Datagram? ==> CodesFrom(e.bytes, 0)
    ensures Receive(input, nlmsgSeq, []) == Got(BytesOf(input, k))
  {
    hide Receive, Stream, AsksOn, Ends, CodesFrom;
    AskingConcat(input, nlmsgSeq, [], k - 1);
    OneDatagram(input[k - 1..], nlmsgSeq, [] + BytesOf(input, k - 1));
    BytesOfLast(input, k);
    assert [] + BytesOf(input, k - 1) == BytesOf(input, k - 1);
  }

  /** The error of a message that is not clean, by its type, its sequence number and the request's. */
  function ErrorOf(m: seq<Byte>, nlmsgSeq: nat): RcvError
    requires |m| >= HDRLEN
  {
    if Get16(m, 4) == 4 then DataLost else if Get32(m, 8) != nlmsgSeq then Mismatched else Refused
  }

  lemma VerdictError(d: seq<Byte>, at: nat, nlmsgSeq: nat)
    requires CodesFrom(d, at) && MessageOk(d, at) && !Clean(d[at..at + Get32(d, at)], nlmsgSeq)
    ensures var m := d[at..at + Get32(d, at)];
            && Verdict(d, at, nlmsgSeq) == Failed(ErrorOf(m, nlmsgSeq))
            && (Get16(m, 4) == 4 || (Get16(m, 4) == 2 && |m| >= 20 && (Get32(m, 8) == nlmsgSeq ==> Get32(m, 16) != 0)))
  {
    var m := d[at..at + Get32(d, at)];
    var before, after := d[..at], d[at + |m|..];
    assert d == before + m + after;
    FieldsKeep(m, before, after, 4);
    FieldsKeep(m, before, after, 8);
    if |m| >= HDRLEN + 4 { FieldsKeep(m, before, after, HDRLEN); }
  }

  /** The first message that is not clean decides. */
  lemma {:induction false} ScanFirstUnclean(d: seq<Byte>, at: nat, nlmsgSeq: nat, more: bool, j: nat)
    requires CodesFrom(d, at)
    requires forall m :: m in Messages(d, at) ==> |m| >= HDRLEN
    requires var ms := Messages(d, at);
             j < |ms| && (forall i :: 0 <= i < j ==> Clean(ms[i], nlmsgSeq)) && !Clean(ms[j], nlmsgSeq)
    ensures Scan(d, at, nlmsgSeq, more) == Failed(ErrorOf(Messages(d, at)[j], nlmsgSeq))
    decreases |d| - at
  {
    hide Get16, Get32, Align4, Verdict, Clean, MoreAfter, ErrorOf, Asks;
    CleanVerdict(d, at, nlmsgSeq);
    var ms, rest := Messages(d, at), Messages(d, Next(d, at));
    assert ms[1..] == rest;
    if j == 0 {
      VerdictError(d, at, nlmsgSeq);
    } else {
      assert Clean(ms[0], nlmsgSeq);
      assert forall i :: 0 <= i < |rest| ==> rest[i] == ms[i + 1];
      ScanFirstUnclean(d, Next(d, at), nlmsgSeq, MoreAfter(d, at), j - 1);
    }
  }

  /** A first datagram without a message fails. */
  lemma EmptyFails(input: seq<Event>, nlmsgSeq: nat)
    requires Stream(input) && input != [] && input[0].Datagram? && Messages(input[0].bytes, 0) == []
    ensures forall e :: e in input && e.Datagram? ==> CodesFrom(e.bytes, 0)
    ensures Receive(input, nlmsgSeq, []) == Failed(NoData)
  {
    OneDatagram(input, nlmsgSeq, []);
  }

  /** The first message of the stream that is not clean makes the reception fail, with the error that its fields name. */
  lemma UncleanFails(input: seq<Event>, nlmsgSeq: nat, k: nat, j: nat)
    requires Stream(input) && AskingPrefix(input, nlmsgSeq, k) && k < |input| && input[k].Datagram?
    requires forall m :: m in Messages(input[k].bytes, 0) ==> |m| >= HDRLEN
    requires var ms := Messages(input[k].bytes, 0);
             j < |ms| && (forall i :: 0 <= i < j ==> Clean(ms[i], nlmsgSeq)) && !Clean(ms[j], nlmsgSeq)
    ensures forall e :: e in input && e.Datagram? ==> CodesFrom(e.bytes, 0)
    ensures Receive(input, nlmsgSeq, []) == Failed(ErrorOf(Messages(input[k].bytes, 0)[j], nlmsgSeq))
  {
    hide Receive, Scan, Messages, Clean, CodesFrom, AskingPrefix, ErrorOf, Asks;
    var d, ms := input[k].bytes, Messages(input[k].bytes, 0);
    AskingConcat(input, nlmsgSeq, [], k);
    var sofar := [] + BytesOf(input, k);
    OneDatagram(input[k..], nlmsgSeq, sofar);
    assert ms[j] in ms;
    assert input[k] in input;
    ScanFirstUnclean(d, 0, nlmsgSeq, false, j);
    ScanReadsAll(d, 0, nlmsgSeq, false);
  }

  /** A refused receive call and a socket with nothing more to give, after datagrams that ask on. */
  lemma BrokenFails(input: seq<Event>, nlmsgSeq: nat, k: nat)
    requires Stream(input) && AskingPrefix(input, nlmsgSeq, k) && (k < |input| ==> input[k].Broken?)
    ensures forall e :: e in input && e.Datagram? ==> CodesFrom(e.bytes, 0)
    ensures Receive(input, nlmsgSeq, []) == Failed(if k < |input| then CantReceive else Waiting)
  {
    hide AskingPrefix, Scan, Stream, CodesFrom;
    AskingConcat(input, nlmsgSeq, [], k);
    assert k < |input| ==> input[k..][0] == input[k];
  }

  /** Clean and asking, spelled out on the header fields: NLMSG_OVERRUN is 4, NLMSG_ERROR 2, NLMSG_DONE 3, NLM_F_MULTI 2. */
  lemma CleanMeans(m: seq<Byte>, nlmsgSeq: nat)
    requires |m| >= 20
    ensures Clean(m, nlmsgSeq) <==> Get16(m, 4) != 4 && (Get16(m, 4) == 2 ==> Get32(m, 8) == nlmsgSeq && Get32(m, 16) == 0)
    ensures Asks(m) <==> Get16(m, 4) != 3 && Get16(m, 6) / 2 % 2 == 1
  {
  }

  /** For instance: one datagram, a refusal with the right sequence number and error 17, is not a reply. */
  lemma RefusalIsNoReply(d: seq<Byte>, nlmsgSeq: nat)
    requires Stream([Datagram(d)]) && Messages(d, 0) == [d] && |d| == 36
    requires Get16(d, 4) == 2 && Get32(d, 8) == nlmsgSeq && Get32(d, 16) == 0x1_0000_0000 - 17
    ensures forall e :: e in [Datagram(d)] && e.Datagram? ==> CodesFrom(e.bytes, 0)
    ensures Receive([Datagram(d)], nlmsgSeq, []) == Failed(Refused)
  {
    UncleanFails([Datagram(d)], nlmsgSeq, 0, 0);
  }

  // ---------------------------------------------------------------- the method

  /** The datagram `d`, stored at `offset`: its headers read the same in place. */
  lemma InPlace(buf: seq<Byte>, offset: nat, d: seq<Byte>, at: nat)
    requires At(buf, offset, d) && at + HDRLEN <= |d|
    ensures Get32(buf, offset + at) == Get32(d, at)
    ensures MessageType(buf, offset + at) == MessageType(d, at)
    ensures HeaderSeq(buf, offset + at) == HeaderSeq(d, at)
    ensures IsMulti(buf, offset + at) == IsMulti(d, at)
    ensures at + HDRLEN + 4 <= |d| ==> Get32(buf, offset + at + HDRLEN) == Get32(d, at + HDRLEN)
  {
    var before, after := buf[..offset], buf[offset + |d|..];
    assert buf == before + d + after;
    FieldsKeep(d, before, after, at);
    FieldsKeep(d, before, after, at + 4);
    FieldsKeep(d, before, after, at + 6);
    FieldsKeep(d, before, after, at + 8);
    if at + HDRLEN + 4 <= |d| { FieldsKeep(d, before, after, at + HDRLEN); }
  }

  /** Netlink::rcv; `input` is what the socket will deliver. Waiting stands for a call that blocks. */
  method Rcv(input: seq<Event>, nlmsgSeq: nat) returns (r: Received<seq<Byte>>)
    requires Stream(input)
    ensures r == Receive(input, nlmsgSeq, [])
  {
    hide Scan, MessageOk, CodesFrom, Get16, Get32, At;
    var buf: seq<Byte> := [];
    var offset := 0;
    var i := 0;
    var more := true;
    assert input[0..] == input && buf[..0] == [];
    while more
      invariant 0 <= i <= |input| && offset <= |buf| && offset % 4 == 0
      invariant more ==> (i == 0 <==> offset == 0)
      invariant more ==> Receive(input, nlmsgSeq, []) == Receive(input[i..], nlmsgSeq, buf[..offset])
      invariant !more ==> Receive(input, nlmsgSeq, []) == Got(buf[..offset])
      decreases |input| - i, more
    {
      if i == |input| {
        return Failed(Waiting);
      }
      if input[i].Broken? {
        return Failed(CantReceive);
      }
      var d := input[i].bytes;
      assert input[i..][0] == input[i] && input[i..][1..] == input[i + 1..];
      ghost var sofar := buf[..offset];
      buf := buf[..offset] + Zeros(RCV_GOOD_SIZE);
      SpliceMiddle(sofar, Zeros(|d|), Zeros(RCV_GOOD_SIZE - |d|), d);
      ZerosSplit(|d|, RCV_GOOD_SIZE - |d|);
      buf := Splice(buf, offset, d);
      var result, found := CheckDatagram(buf, offset, d, nlmsgSeq);
      if result.Failed? {
        return Failed(result.error);
      }
      if i == 0 && !found {
        return Failed(NoData);
      }
      more := result.value;
      AlignedStays(|d|);
      offset := offset + Align4(|d|);
      assert buf[..offset] == sofar + d;
      i := i + 1;
    }
    return Got(buf[..offset]);
  }

  lemma ScanStep(d: seq<Byte>, at: nat, nlmsgSeq: nat, more: bool)
    requires CodesFrom(d, at) && MessageOk(d, at)
    ensures MessageType(d, at) == NLMSG_ERROR ==> Get32(d, at) >= HDRLEN + 4
    ensures CodesFrom(d, Next(d, at))
    ensures Scan(d, at, nlmsgSeq, more)
         == match Verdict(d, at, nlmsgSeq)
            case Failed(e) => Failed(e)
            case Got(_) => Scan(d, Next(d, at), nlmsgSeq, MoreAfter(d, at))
  {
  }

  lemma ScanEnd(d: seq<Byte>, at: nat, nlmsgSeq: nat, more: bool)
    requires CodesFrom(d, at) && !MessageOk(d, at)
    ensures Scan(d, at, nlmsgSeq, more) == Got(more)
  {
  }

  /** The inner loop: every complete message of the datagram, in place in the buffer. */
  method CheckDatagram(buf: seq<Byte>, offset: nat, d: seq<Byte>, nlmsgSeq: nat)
    returns (result: Received<bool>, found: bool)
    requires At(buf, offset, d) && offset + |d| <= |buf| && Sane(d)
    ensures result == Scan(d, 0, nlmsgSeq, false)
    ensures result.Got? ==> found == MessageOk(d, 0)
  {
    hide Get16, Get32, Align4, At, HeaderSeq, IsMulti, MessageType, Scan, CodesFrom;
    var len := |d|;
    var answer := offset;
    var more := false;
    found := false;
    if len >= HDRLEN { InPlace(buf, offset, d, 0); }
    while len >= HDRLEN && HDRLEN <= Get32(buf, answer) <= len
      invariant 0 <= len <= |d| && answer == offset + (|d| - len) && len % 4 == 0
      invariant CodesFrom(d, |d| - len) && offset + |d| <= |buf|
      invariant len >= HDRLEN ==> Get32(buf, answer) == Get32(d, |d| - len)
      invariant Scan(d, 0, nlmsgSeq, false) == Scan(d, |d| - len, nlmsgSeq, more)
      invariant if len == |d| then !found else found && MessageOk(d, 0)
      decreases len
    {
      ghost var at := |d| - len;
      InPlace(buf, offset, d, at);
      ScanStep(d, at, nlmsgSeq, more);
      found := true;
      if MessageType(buf, answer) == NLMSG_ERROR {
        if HeaderSeq(buf, answer) != nlmsgSeq {
          return Failed(Mismatched), found;
        }
        if Get32(buf, answer + HDRLEN) != 0 {
          return Failed(Refused), found;
        }
      } else if MessageType(buf, answer) == NLMSG_OVERRUN {
        return Failed(DataLost), found;
      }
      more := MessageType(buf, answer) != NLMSG_DONE && IsMulti(buf, answer);
      AlignInside(at, Get32(d, at), |d|);
      len := len - Align4(Get32(buf, answer));
      answer := offset + (|d| - len);
      if len >= HDRLEN { InPlace(buf, offset, d, |d| - len); }
    }
    ScanEnd(d, |d| - len, nlmsgSeq, more);
    return Got(more), found;
  }
}
