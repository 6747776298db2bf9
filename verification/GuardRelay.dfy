/**
 * The guard's terminal relay (libs/lxcpp/guard/guard.cpp): per terminal, bytes
 * from the container's PTY to the host's and back, driven by epoll readiness.
 */
module GuardRelay {
  import opened Bytes
  import opened IoBuffers

  datatype Terminal = Terminal(contToImpl: Pipe, implToCont: Pipe)

  datatype Events = Events(input: bool, output: bool)

  /** One readiness event of one descriptor, with what its read and write calls bring. */
  datatype Ready = Ready(terminal: nat, onCont: bool, events: Events, r: int, data: seq<Byte>, w: int)

  /** A pipe that is read by one descriptor and one that the same descriptor drains. */
  function Serve(fills: Pipe, drains: Pipe, e: Ready): (Pipe, Pipe)
    requires Possible(fills, drains, e)
  {
    (if e.events.input then fills.Fill(Got(e.r, e.data)) else fills,
     if e.events.output && drains.buf != [] then drains.Drain(Put(e.w)) else drains)
  }

  /** The system calls take and give no more than they are offered. */
  predicate Possible(fills: Pipe, drains: Pipe, e: Ready) {
    && (e.events.input ==> ReadResult(e.r, e.data, IO_BUFFER_SIZE - |fills.buf|))
    && (e.events.output && drains.buf != [] ==> -1 <= e.w <= |drains.buf|)
  }

  predicate PossibleOn(t: Terminal, e: Ready) {
    if e.onCont then Possible(t.contToImpl, t.implToCont, e) else Possible(t.implToCont, t.contToImpl, e)
  }

  /** onContTerminal and onImplTerminal. */
  function OnTerminal(t: Terminal, e: Ready): Terminal
    requires PossibleOn(t, e)
  {
    if e.onCont then
      var (fills, drains) := Serve(t.contToImpl, t.implToCont, e); Terminal(fills, drains)
    else
      var (fills, drains) := Serve(t.implToCont, t.contToImpl, e); Terminal(drains, fills)
  }

  predicate Conserves(t: Terminal) {
    t.contToImpl.Conserves() && t.implToCont.Conserves()
  }

  lemma {:induction false} OnTerminalConserves(t: Terminal, e: Ready)
    requires Conserves(t) && PossibleOn(t, e)
    ensures Conserves(OnTerminal(t, e))
  {
    var fills, drains := if e.onCont then t.contToImpl else t.implToCont, if e.onCont then t.implToCont else t.contToImpl;
    if e.events.input { FillConserves(fills, Got(e.r, e.data)); }
    if e.events.output && drains.buf != [] { DrainConserves(drains, Put(e.w)); }
  }

  // ---------------------------------------------------------------- whole runs

  predicate Run(ts: seq<Terminal>, es: seq<Ready>)
    decreases es
  {
    es == [] || (es[0].terminal < |ts| && PossibleOn(ts[es[0].terminal], es[0]) && Run(Step(ts, es[0]), es[1..]))
  }

  function Step(ts: seq<Terminal>, e: Ready): seq<Terminal>
    requires e.terminal < |ts| && PossibleOn(ts[e.terminal], e)
  {
    ts[e.terminal := OnTerminal(ts[e.terminal], e)]
  }

  function After(ts: seq<Terminal>, es: seq<Ready>): (r: seq<Terminal>)
    requires Run(ts, es)
    ensures |r| == |ts|
    decreases es
  {
    if es == [] then ts else After(Step(ts, es[0]), es[1..])
  }

  /** In every run each terminal conserves its bytes in both directions. */
  lemma {:induction false} RunConserves(ts: seq<Terminal>, es: seq<Ready>)
    requires Run(ts, es) && forall i :: 0 <= i < |ts| ==> Conserves(ts[i])
    ensures forall i :: 0 <= i < |ts| ==> Conserves(After(ts, es)[i])
    decreases es
  {
    if es != [] {
      OnTerminalConserves(ts[es[0].terminal], es[0]);
      RunConserves(Step(ts, es[0]), es[1..]);
    }
  }

  /** What has been written is what was read, up to the bytes still buffered. */
  lemma WrittenIsPrefixOfRead(ts: seq<Terminal>, es: seq<Ready>, i: nat)
    requires Run(ts, es) && i < |ts| && forall j :: 0 <= j < |ts| ==> Conserves(ts[j])
    ensures var t := After(ts, es)[i];
            && t.contToImpl.given <= t.contToImpl.taken && t.implToCont.given <= t.implToCont.taken
            && |t.contToImpl.taken| - |t.contToImpl.given| == |t.contToImpl.buf| <= IO_BUFFER_SIZE
            && |t.implToCont.taken| - |t.implToCont.given| == |t.implToCont.buf| <= IO_BUFFER_SIZE
  {
    RunConserves(ts, es);
    assert Conserves(After(ts, es)[i]);
  }

  /** What the read calls on one descriptor of terminal i brought, one after another. */
  function BytesRead(es: seq<Ready>, i: nat, onCont: bool): seq<Byte> {
    if es == [] then []
    else
      var e := es[0];
      (if e.terminal == i && e.onCont == onCont && e.events.input && e.r > 0 then e.data else []) +
      BytesRead(es[1..], i, onCont)
  }

  /** What the write calls on that descriptor took, in bytes. */
  function CountWritten(ts: seq<Terminal>, es: seq<Ready>, i: nat, onCont: bool): nat
    requires Run(ts, es) && i < |ts|
    decreases es
  {
    if es == [] then 0
    else
      var e := es[0];
      var pending := if onCont then ts[i].implToCont.buf else ts[i].contToImpl.buf;
      (if e.terminal == i && e.onCont == onCont && e.events.output && pending != [] && e.w > 0 then e.w else 0) +
      CountWritten(Step(ts, e), es[1..], i, onCont)
  }

  /** One event: the reads add exactly the bytes they brought, the writes exactly the number they took. */
  lemma OneEventCounts(t: Terminal, e: Ready)
    requires PossibleOn(t, e)
    ensures var u := OnTerminal(t, e);
            var brought := if e.events.input && e.r > 0 then e.data else [];
            var pending := if e.onCont then t.implToCont.buf else t.contToImpl.buf;
            var took := if e.events.output && pending != [] && e.w > 0 then e.w else 0;
            && u.contToImpl.taken == (if e.onCont then t.contToImpl.taken + brought else t.contToImpl.taken)
            && u.implToCont.taken == (if e.onCont then t.implToCont.taken else t.implToCont.taken + brought)
            && |u.implToCont.given| == |t.implToCont.given| + (if e.onCont then took else 0)
            && |u.contToImpl.given| == |t.contToImpl.given| + (if e.onCont then 0 else took)
            && (e.events.input && e.r > 0 ==> |brought| == e.r)
  {
    assert t.contToImpl.taken + [] == t.contToImpl.taken && t.implToCont.taken + [] == t.implToCont.taken;
  }

  /**
   * Over every run: what is on record as read is the concatenation of what that terminal's
   * descriptor's read calls brought, and what is on record as written has the length its
   * write calls report.
   */
  lemma {:induction false} RunCounts(ts: seq<Terminal>, es: seq<Ready>, i: nat)
    requires Run(ts, es) && i < |ts|
    ensures var t, u := ts[i], After(ts, es)[i];
            && u.contToImpl.taken == t.contToImpl.taken + BytesRead(es, i, true)
            && u.implToCont.taken == t.implToCont.taken + BytesRead(es, i, false)
            && |u.implToCont.given| == |t.implToCont.given| + CountWritten(ts, es, i, true)
            && |u.contToImpl.given| == |t.contToImpl.given| + CountWritten(ts, es, i, false)
    decreases es
  {
    hide OnTerminal;
    if es == [] {
      assert ts[i].contToImpl.taken + [] == ts[i].contToImpl.taken && ts[i].implToCont.taken + [] == ts[i].implToCont.taken;
    } else {
      var e := es[0];
      OneEventCounts(ts[e.terminal], e);
      RunCounts(Step(ts, e), es[1..], i);
      Regroup(ts[i].contToImpl.taken, BytesRead([e], i, true), BytesRead(es[1..], i, true));
      Regroup(ts[i].implToCont.taken, BytesRead([e], i, false), BytesRead(es[1..], i, false));
      OneRead(e, i);
    }
  }

  lemma OneRead(e: Ready, i: nat)
    ensures forall on: bool :: BytesRead([e], i, on) ==
              if e.terminal == i && e.onCont == on && e.events.input && e.r > 0 then e.data else []
  {
    assert [e][1..] == [];
  }

  lemma Regroup(a: seq<Byte>, b: seq<Byte>, c: seq<Byte>)
    ensures a + b + c == a + (b + c) && a + [] == a
  {
  }

  /** From empty buffers, written bytes and buffered bytes are, in order, what the read calls brought. */
  lemma {:induction false} RelayIsFaithful(n: nat, es: seq<Ready>, i: nat)
    requires i < n && Run(seq(n, _ => Terminal(EMPTY_PIPE, EMPTY_PIPE)), es)
    ensures var ts := seq(n, _ => Terminal(EMPTY_PIPE, EMPTY_PIPE));
            var u := After(ts, es)[i];
            && u.contToImpl.given + u.contToImpl.buf == BytesRead(es, i, true)
            && u.implToCont.given + u.implToCont.buf == BytesRead(es, i, false)
            && |u.contToImpl.given| == CountWritten(ts, es, i, false)
            && |u.implToCont.given| == CountWritten(ts, es, i, true)
  {
    var ts := seq(n, _ => Terminal(EMPTY_PIPE, EMPTY_PIPE));
    RunConserves(ts, es);
    RunCounts(ts, es, i);
    assert Conserves(After(ts, es)[i]);
    Regroup([], BytesRead(es, i, true), BytesRead(es, i, false));
    assert [] + BytesRead(es, i, true) == BytesRead(es, i, true);
    assert [] + BytesRead(es, i, false) == BytesRead(es, i, false);
  }

  function Only(i: nat, es: seq<Ready>): seq<Ready> {
    if es == [] then [] else (if es[0].terminal == i then [es[0]] else []) + Only(i, es[1..])
  }

  /** A terminal is what its own events make of it, whatever happens on the others. */
  lemma {:induction false} NoInterference(ts: seq<Terminal>, us: seq<Terminal>, es: seq<Ready>, i: nat)
    requires Run(ts, es) && i < |ts| && |us| == |ts| && us[i] == ts[i]
    ensures Run(us, Only(i, es)) && After(us, Only(i, es))[i] == After(ts, es)[i]
    decreases es
  {
    if es != [] {
      if es[0].terminal == i {
        NoInterference(Step(ts, es[0]), Step(us, es[0]), es[1..], i);
        assert Only(i, es)[1..] == Only(i, es[1..]);
      } else {
        NoInterference(Step(ts, es[0]), us, es[1..], i);
        assert Only(i, es) == Only(i, es[1..]);
      }
    }
  }

  // ---------------------------------------------------------------- the object

  /** The relay part of the guard. mInterest is what each descriptor is registered for; mGhost holds the histories. */
  class Relay {
    const mContFDs: seq<int>
    const mImplFDs: seq<int>
    const mContToImpl: seq<array<Byte>>
    const mImplToCont: seq<array<Byte>>
    const mContToImplOffset: array<int>
    const mImplToContOffset: array<int>
    var mInterest: map<int, Events>
    ghost var mGhost: seq<Terminal>

    ghost predicate Shape() {
      && |mContFDs| == |mImplFDs| == |mContToImpl| == |mImplToCont|
      && mContToImplOffset.Length == mImplToContOffset.Length == |mContFDs|
      && mContToImplOffset != mImplToContOffset
      && (forall i :: 0 <= i < |mContToImpl| ==>
            mContToImpl[i].Length == mImplToCont[i].Length == IO_BUFFER_SIZE && mContToImpl[i] != mImplToCont[i])
      && (forall i, j :: 0 <= i < |mContToImpl| && 0 <= j < |mContToImpl| && i != j ==>
            && mContToImpl[i] != mContToImpl[j] && mImplToCont[i] != mImplToCont[j] && mContToImpl[i] != mImplToCont[j])
      && (forall i :: 0 <= i < |mContFDs| ==> mContFDs[i] != mImplFDs[i])
      && (forall i, j :: 0 <= i < |mContFDs| && 0 <= j < |mContFDs| && i != j ==>
            && mContFDs[i] != mContFDs[j] && mImplFDs[i] != mImplFDs[j] && mContFDs[i] != mImplFDs[j])
    }

    /** Buffers hold what the histories say, and registrations follow the buffers. */
    ghost predicate TerminalOk(i: nat)
      requires Shape() && i < |mContFDs| && |mGhost| == |mContFDs|
      reads this, mContToImpl, mImplToCont, mContToImplOffset, mImplToContOffset
    {
      var t, c, m := mGhost[i], mContToImplOffset[i], mImplToContOffset[i];
      && 0 <= c <= IO_BUFFER_SIZE && t.contToImpl.buf == mContToImpl[i][..c]
      && 0 <= m <= IO_BUFFER_SIZE && t.implToCont.buf == mImplToCont[i][..m]
      && Conserves(t)
      && mContFDs[i] in mInterest && mInterest[mContFDs[i]] == Events(m == 0, m != 0)
      && mImplFDs[i] in mInterest && mInterest[mImplFDs[i]] == Events(c == 0, c != 0)
    }

    ghost predicate Valid()
      reads this, mContToImpl, mImplToCont, mContToImplOffset, mImplToContOffset
    {
      Shape() && |mGhost| == |mContFDs| && forall i :: 0 <= i < |mContFDs| ==> TerminalOk(i)
    }

    /** The PTYs are open; the buffers are fresh and empty, everything is registered for input. */
    constructor (contFDs: seq<int>, implFDs: seq<int>, contToImpl: seq<array<Byte>>, implToCont: seq<array<Byte>>,
                 contToImplOffset: array<int>, implToContOffset: array<int>)
      requires |contFDs| == |implFDs| == |contToImpl| == |implToCont|
      requires contToImplOffset.Length == implToContOffset.Length == |contFDs| && contToImplOffset != implToContOffset
      requires forall i :: 0 <= i < |contToImpl| ==>
                 contToImpl[i].Length == implToCont[i].Length == IO_BUFFER_SIZE && contToImpl[i] != implToCont[i]
      requires forall i, j :: 0 <= i < j < |contToImpl| ==>
                 && contToImpl[i] != contToImpl[j] && implToCont[i] != implToCont[j]
                 && contToImpl[i] != implToCont[j] && implToCont[i] != contToImpl[j]
      requires forall i :: 0 <= i < |contFDs| ==> contFDs[i] != implFDs[i]
      requires forall i, j :: 0 <= i < j < |contFDs| ==>
                 && contFDs[i] != contFDs[j] && implFDs[i] != implFDs[j]
                 && contFDs[i] != implFDs[j] && implFDs[i] != contFDs[j]
      modifies contToImplOffset, implToContOffset
      ensures Valid() && mGhost == seq(|contFDs|, _ => Terminal(EMPTY_PIPE, EMPTY_PIPE))
    {
      mContFDs, mImplFDs, mContToImpl, mImplToCont := contFDs, implFDs, contToImpl, implToCont;
      mContToImplOffset, mImplToContOffset := contToImplOffset, implToContOffset;
      mInterest := map[];
      mGhost := seq(|contFDs|, _ => Terminal(EMPTY_PIPE, EMPTY_PIPE));
      new;
      for i := 0 to |contFDs|
        invariant forall j :: 0 <= j < i ==> contToImplOffset[j] == implToContOffset[j] == 0
        invariant forall j :: 0 <= j < i ==> contFDs[j] in mInterest && mInterest[contFDs[j]] == Events(true, false)
        invariant forall j :: 0 <= j < i ==> implFDs[j] in mInterest && mInterest[implFDs[j]] == Events(true, false)
        invariant mGhost == seq(|contFDs|, _ => Terminal(EMPTY_PIPE, EMPTY_PIPE))
      {
        contToImplOffset[i] := 0;
        implToContOffset[i] := 0;
        mInterest := mInterest[contFDs[i] := Events(true, false)];
        mInterest := mInterest[implFDs[i] := Events(true, false)];
      }
    }

    /** The EPOLLIN half of a handler: the read call appends to the buffer of terminal i. */
    static method ReadInto(buf: array<Byte>, offsets: array<int>, i: nat, r: int, data: seq<Byte>)
      requires i < offsets.Length && 0 <= offsets[i] <= buf.Length == IO_BUFFER_SIZE
      requires ReadResult(r, data, IO_BUFFER_SIZE - offsets[i])
      modifies buf, offsets
      ensures 0 <= offsets[i] <= IO_BUFFER_SIZE && buf[..offsets[i]] == old(buf[..offsets[i]]) + (if r > 0 then data else [])
      ensures forall j :: 0 <= j < offsets.Length && j != i ==> offsets[j] == old(offsets[j])
    {
      if r > 0 {
        Store(buf, offsets[i], data);
        offsets[i] := offsets[i] + r;
      }
    }

    /** The EPOLLOUT half: the write call takes from the front of the buffer of terminal i. */
    static method WriteFrom(buf: array<Byte>, offsets: array<int>, i: nat, w: int)
      requires i < offsets.Length && 0 <= offsets[i] <= buf.Length == IO_BUFFER_SIZE
      requires -1 <= w <= offsets[i]
      modifies buf, offsets
      ensures 0 <= offsets[i] <= IO_BUFFER_SIZE && buf[..offsets[i]] == old(buf[..offsets[i]])[if w > 0 then w else 0..]
      ensures forall j :: 0 <= j < offsets.Length && j != i ==> offsets[j] == old(offsets[j])
    {
      if w > 0 {
        MoveDown(buf, offsets[i], w);
        offsets[i] := offsets[i] - w;
      }
    }

    /** Terminals other than i keep their buffers, offsets and registrations. */
    twostate lemma Untouched(i: nat)
      requires old(Valid()) && Shape() && i < |mContFDs| && |mGhost| == |mContFDs|
      requires forall j :: 0 <= j < |mContFDs| && j != i ==>
                 && mGhost[j] == old(mGhost[j])
                 && mContToImplOffset[j] == old(mContToImplOffset[j]) && mImplToContOffset[j] == old(mImplToContOffset[j])
                 && unchanged(mContToImpl[j]) && unchanged(mImplToCont[j])
      requires forall fd :: fd in old(mInterest) && fd != mContFDs[i] && fd != mImplFDs[i] ==>
                 fd in mInterest && mInterest[fd] == old(mInterest[fd])
      ensures forall j :: 0 <= j < |mContFDs| && j != i ==> TerminalOk(j)
    {
      forall j: nat | j < |mContFDs| && j != i ensures TerminalOk(j) {
        assert old(TerminalOk(j));
      }
    }

    /** The EPOLLIN half of OnContTerminal. */
    method ReadCont(i: nat, r: int, data: seq<Byte>)
      requires Valid() && i < |mContFDs| && ReadResult(r, data, IO_BUFFER_SIZE - |mGhost[i].contToImpl.buf|)
      modifies this, mContToImpl[i], mContToImplOffset
      ensures Valid()
      ensures mGhost == old(mGhost)[i := old(mGhost[i]).(contToImpl := old(mGhost[i]).contToImpl.Fill(Got(r, data)))]
    {
      assert TerminalOk(i);
      FillConserves(mGhost[i].contToImpl, Got(r, data));
      ReadInto(mContToImpl[i], mContToImplOffset, i, r, data);
      if r > 0 && mContToImplOffset[i] != 0 {
        mInterest := mInterest[mImplFDs[i] := Events(false, true)];
      }
      mGhost := mGhost[i := mGhost[i].(contToImpl := mGhost[i].contToImpl.Fill(Got(r, data)))];
      assert TerminalOk(i);
      Untouched(i);
    }

    /** The EPOLLOUT half of OnContTerminal. */
    method WriteCont(i: nat, w: int)
      requires Valid() && i < |mContFDs| && -1 <= w <= |mGhost[i].implToCont.buf|
      modifies this, mImplToCont[i], mImplToContOffset
      ensures Valid()
      ensures mGhost == old(mGhost)[i := old(mGhost[i]).(implToCont := old(mGhost[i]).implToCont.Drain(Put(w)))]
    {
      assert TerminalOk(i);
      DrainConserves(mGhost[i].implToCont, Put(w));
      WriteFrom(mImplToCont[i], mImplToContOffset, i, w);
      if w > 0 && mImplToContOffset[i] == 0 {
        mInterest := mInterest[mContFDs[i] := Events(true, false)];
      }
      mGhost := mGhost[i := mGhost[i].(implToCont := mGhost[i].implToCont.Drain(Put(w)))];
      assert TerminalOk(i);
      Untouched(i);
    }

    method OnContTerminal(i: nat, events: Events, r: int, data: seq<Byte>, w: int)
      requires Valid() && i < |mContFDs| && PossibleOn(mGhost[i], Ready(i, true, events, r, data, w))
      modifies this, mContToImpl[i], mImplToCont[i], mContToImplOffset, mImplToContOffset
      ensures Valid() && mGhost == Step(old(mGhost), Ready(i, true, events, r, data, w))
    {
      if events.input {
        ReadCont(i, r, data);
      }
      assert TerminalOk(i);
      if events.output && mImplToContOffset[i] != 0 {
        WriteCont(i, w);
      }
    }

    /** The EPOLLIN half of OnImplTerminal. */
    method ReadImpl(i: nat, r: int, data: seq<Byte>)
      requires Valid() && i < |mContFDs| && ReadResult(r, data, IO_BUFFER_SIZE - |mGhost[i].implToCont.buf|)
      modifies this, mImplToCont[i], mImplToContOffset
      ensures Valid()
      ensures mGhost == old(mGhost)[i := old(mGhost[i]).(implToCont := old(mGhost[i]).implToCont.Fill(Got(r, data)))]
    {
      assert TerminalOk(i);
      FillConserves(mGhost[i].implToCont, Got(r, data));
      ReadInto(mImplToCont[i], mImplToContOffset, i, r, data);
      if r > 0 && mImplToContOffset[i] != 0 {
        mInterest := mInterest[mContFDs[i] := Events(false, true)];
      }
      mGhost := mGhost[i := mGhost[i].(implToCont := mGhost[i].implToCont.Fill(Got(r, data)))];
      assert TerminalOk(i);
      Untouched(i);
    }

    /** The EPOLLOUT half of OnImplTerminal. */
    method WriteImpl(i: nat, w: int)
      requires Valid() && i < |mContFDs| && -1 <= w <= |mGhost[i].contToImpl.buf|
      modifies this, mContToImpl[i], mContToImplOffset
      ensures Valid()
      ensures mGhost == old(mGhost)[i := old(mGhost[i]).(contToImpl := old(mGhost[i]).contToImpl.Drain(Put(w)))]
    {
      assert TerminalOk(i);
      DrainConserves(mGhost[i].contToImpl, Put(w));
      WriteFrom(mContToImpl[i], mContToImplOffset, i, w);
      if w > 0 && mContToImplOffset[i] == 0 {
        mInterest := mInterest[mImplFDs[i] := Events(true, false)];
      }
      mGhost := mGhost[i := mGhost[i].(contToImpl := mGhost[i].contToImpl.Drain(Put(w)))];
      assert TerminalOk(i);
      Untouched(i);
    }

    method OnImplTerminal(i: nat, events: Events, r: int, data: seq<Byte>, w: int)
      requires Valid() && i < |mContFDs| && PossibleOn(mGhost[i], Ready(i, false, events, r, data, w))
      modifies this, mContToImpl[i], mImplToCont[i], mContToImplOffset, mImplToContOffset
      ensures Valid() && mGhost == Step(old(mGhost), Ready(i, false, events, r, data, w))
    {
      if events.input {
        ReadImpl(i, r, data);
      }
      assert TerminalOk(i);
      if events.output && mContToImplOffset[i] != 0 {
        WriteImpl(i, w);
      }
    }
  }
}
